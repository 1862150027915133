/** POSIX paths as Python's `pathlib` represents them: an optional root and a
    normalised sequence of parts (no empty part, no ".", no "/" inside a part).
    Only what the core uses is modelled: `str(path)`, `Path(string)` and `/`. */
module Paths {

  predicate IsComponent(s: string) {
    s != "" && s != "." && '/' !in s
  }

  datatype PathRep = PathRep(absolute: bool, parts: seq<string>)

  predicate Normal(p: PathRep) {
    forall i | 0 <= i < |p.parts| :: IsComponent(p.parts[i])
  }

  /** A `pathlib.PurePosixPath`: every value is already normalised. */
  type Path = p: PathRep | Normal(p) witness PathRep(false, [])

  /** `s.split("/")`. */
  function Split(s: string): (r: seq<string>)
    ensures |r| >= 1
  {
    if s == [] then [""]
    else
      var rest := Split(s[1..]);
      if s[0] == '/' then [""] + rest
      else [[s[0]] + rest[0]] + rest[1..]
  }

  /** `"/".join(parts)`. */
  function Join(parts: seq<string>): string {
    if |parts| == 0 then ""
    else if |parts| == 1 then parts[0]
    else parts[0] + "/" + Join(parts[1..])
  }

  /** The parts pathlib keeps from the pieces of a split: empty pieces and "." go. */
  function Components(pieces: seq<string>): (r: seq<string>)
    ensures forall i | 0 <= i < |r| :: IsComponent(r[i])
  {
    if pieces == [] then []
    else if pieces[0] == "" || pieces[0] == "." then Components(pieces[1..])
    else if '/' in pieces[0] then Components(pieces[1..])
    else [pieces[0]] + Components(pieces[1..])
  }

  /** `Path(s)`. */
  function Parse(s: string): Path {
    PathRep(|s| > 0 && s[0] == '/', Components(Split(s)))
  }

  /** `str(p)`. */
  function Str(p: Path): string {
    if p.parts == [] then (if p.absolute then "/" else ".")
    else (if p.absolute then "/" else "") + Join(p.parts)
  }

  /** `p / name`: an absolute name replaces the path, any other is parsed and
      appended. A single component is appended as it is, which is what
      parsing it would give (DivParsed). */
  function Div(p: Path, name: string): Path {
    if IsComponent(name) then PathRep(p.absolute, p.parts + [name])
    else if |name| > 0 && name[0] == '/' then Parse(name)
    else PathRep(p.absolute, p.parts + Parse(name).parts)
  }

  /** `s.strip("/")`. */
  function StripSlashes(s: string): (r: string)
    ensures |r| <= |s|
    ensures r == [] || (r[0] != '/' && r[|r| - 1] != '/')
    ensures r == s <==> s == [] || (s[0] != '/' && s[|s| - 1] != '/')
  {
    if |s| > 0 && s[0] == '/' then StripSlashes(s[1..])
    else if |s| > 0 && s[|s| - 1] == '/' then StripSlashes(s[..|s| - 1])
    else s
  }

  /** q lies strictly inside the directory d. */
  predicate Below(q: Path, d: Path) {
    q.absolute == d.absolute && |d.parts| < |q.parts| && q.parts[..|d.parts|] == d.parts
  }

  lemma {:induction false} SplitNoSlash(a: string)
    requires '/' !in a
    ensures Split(a) == [a]
  {
    if a != [] {
      SplitNoSlash(a[1..]);
      assert [a[0]] + a[1..] == a;
    }
  }

  lemma {:induction false} SplitAtSlash(a: string, rest: string)
    requires '/' !in a
    ensures Split(a + "/" + rest) == [a] + Split(rest)
  {
    if a == [] {
      assert a + "/" + rest == "/" + rest;
      assert ("/" + rest)[1..] == rest;
    } else {
      assert (a + "/" + rest)[1..] == a[1..] + "/" + rest;
      SplitAtSlash(a[1..], rest);
      assert [a[0]] + a[1..] == a;
    }
  }

  /** Splitting a join gives the parts back. */
  lemma {:induction false} SplitJoin(parts: seq<string>)
    requires |parts| >= 1
    requires forall i | 0 <= i < |parts| :: '/' !in parts[i]
    ensures Split(Join(parts)) == parts
  {
    if |parts| == 1 {
      SplitNoSlash(parts[0]);
    } else {
      SplitAtSlash(parts[0], Join(parts[1..]));
      SplitJoin(parts[1..]);
    }
  }

  lemma {:induction false} ComponentsKeep(pieces: seq<string>)
    requires forall i | 0 <= i < |pieces| :: IsComponent(pieces[i])
    ensures Components(pieces) == pieces
  {
    if pieces != [] {
      ComponentsKeep(pieces[1..]);
    }
  }

  lemma JoinStartsWithFirst(parts: seq<string>)
    requires |parts| >= 1 && parts[0] != ""
    ensures |Join(parts)| > 0 && Join(parts)[0] == parts[0][0]
  {
  }

  /** `Path(str(p)) == p`: the string form written into a document reads back
      as the same path. */
  lemma {:induction false} ParseStr(p: Path)
    ensures Parse(Str(p)) == p
  {
    if p.parts == [] {
      if p.absolute {
        assert Split("/") == ["", ""];
      } else {
        SplitNoSlash(".");
      }
    } else {
      assert forall i | 0 <= i < |p.parts| :: IsComponent(p.parts[i]);
      SplitJoin(p.parts);
      ComponentsKeep(p.parts);
      JoinStartsWithFirst(p.parts);
      var j := Join(p.parts);
      if p.absolute {
        assert Str(p) == "/" + j;
        assert Split("/" + j) == [""] + Split(j) by {
          assert ("/" + j)[1..] == j;
        }
        assert ([""] + p.parts)[1..] == p.parts;
      } else {
        assert Str(p) == j;
        assert p.parts[0][0] in p.parts[0];
      }
    }
  }

  /** Stripping a string that does not start with "/" removes a run of
      slashes at its end and nothing else. */
  lemma {:induction false} StripSlashesTrimsEnd(s: string)
    requires s == [] || s[0] != '/'
    ensures exists j | 0 <= j <= |s| ::
      StripSlashes(s) == s[..j] && forall k | j <= k < |s| :: s[k] == '/'
    decreases |s|
  {
    if |s| > 0 && s[|s| - 1] == '/' {
      var t := s[..|s| - 1];
      StripSlashesTrimsEnd(t);
      var j :| 0 <= j <= |t| && StripSlashes(t) == t[..j] && forall k | j <= k < |t| :: t[k] == '/';
      assert t[..j] == s[..j];
      assert forall k | j <= k < |s| :: s[k] == '/' by {
        forall k | j <= k < |s| ensures s[k] == '/' {
          if k < |t| { assert s[k] == t[k]; }
        }
      }
    } else {
      assert StripSlashes(s) == s[..|s|];
    }
  }

  lemma SliceOfTail(s: string, i: int, j: int)
    requires 0 <= i <= j <= |s| - 1
    ensures s[1..][i..j] == s[i + 1..j + 1]
  {
  }

  /** Stripping removes only slashes, and only at the ends: the result is a
      slice of s with nothing but "/" before and after it. */
  lemma {:induction false} StripSlashesTrims(s: string)
    ensures exists i, j | 0 <= i <= j <= |s| ::
      && StripSlashes(s) == s[i..j]
      && (forall k | 0 <= k < i :: s[k] == '/')
      && (forall k | j <= k < |s| :: s[k] == '/')
    decreases |s|
  {
    if |s| > 0 && s[0] == '/' {
      StripSlashesTrims(s[1..]);
      var i, j :| 0 <= i <= j <= |s| - 1 && StripSlashes(s[1..]) == s[1..][i..j]
        && (forall k | 0 <= k < i :: s[1..][k] == '/')
        && (forall k | j <= k < |s| - 1 :: s[1..][k] == '/');
      SliceOfTail(s, i, j);
      assert forall k | 0 <= k < i + 1 :: s[k] == '/' by {
        forall k | 0 <= k < i + 1 ensures s[k] == '/' {
          if k > 0 { assert s[k] == s[1..][k - 1]; }
        }
      }
      assert forall k | j + 1 <= k < |s| :: s[k] == '/' by {
        forall k | j + 1 <= k < |s| ensures s[k] == '/' {
          assert s[k] == s[1..][k - 1];
        }
      }
      assert StripSlashes(s) == s[i + 1..j + 1];
    } else {
      StripSlashesTrimsEnd(s);
      var j :| 0 <= j <= |s| && StripSlashes(s) == s[..j] && forall k | j <= k < |s| :: s[k] == '/';
      assert s[..j] == s[0..j];
    }
  }

  /** A join of components neither starts nor ends with "/". */
  lemma {:induction false} JoinEnds(parts: seq<string>)
    requires |parts| >= 1
    requires forall i | 0 <= i < |parts| :: IsComponent(parts[i])
    ensures var j := Join(parts); |j| > 0 && j[0] != '/' && j[|j| - 1] != '/'
  {
    assert parts[0][0] in parts[0];
    JoinStartsWithFirst(parts);
    if |parts| == 1 {
      assert parts[0][|parts[0]| - 1] in parts[0];
    } else {
      JoinEnds(parts[1..]);
      var rest := Join(parts[1..]);
      assert Join(parts) == parts[0] + "/" + rest;
      assert Join(parts)[|Join(parts)| - 1] == rest[|rest| - 1];
    }
  }

  /** `str(p).strip("/")` parses back to the parts of p, and is never an
      absolute name. */
  lemma StrippedParts(p: Path)
    ensures var s := StripSlashes(Str(p));
      (s == [] || s[0] != '/') && Parse(s).parts == p.parts
  {
    if p.parts == [] {
      if p.absolute {
        assert StripSlashes("/") == StripSlashes("/"[1..]);
        assert Split("") == [""];
      } else {
        SplitNoSlash(".");
      }
    } else {
      assert forall i | 0 <= i < |p.parts| :: IsComponent(p.parts[i]);
      var j := Join(p.parts);
      JoinEnds(p.parts);
      assert forall i | 0 <= i < |p.parts| :: '/' !in p.parts[i];
      SplitJoin(p.parts);
      ComponentsKeep(p.parts);
      if p.absolute {
        assert Str(p) == "/" + j;
        assert ("/" + j)[1..] == j;
      }
      assert StripSlashes(Str(p)) == j;
    }
  }

  /** The shortcut of Div agrees with pathlib: a single component is a
      relative name that parses to itself. */
  lemma DivParsed(p: Path, name: string)
    ensures Div(p, name) ==
      if |name| > 0 && name[0] == '/' then Parse(name) else PathRep(p.absolute, p.parts + Parse(name).parts)
  {
    if IsComponent(name) {
      SplitNoSlash(name);
      ComponentsKeep([name]);
      assert name[0] in name;
    }
  }
}

/** The `slugify` function of python-slugify, with its default arguments, on
    text without character references: a comma between two digits is dropped,
    letters are lower-cased, letters and digits are kept, every other run of
    characters becomes one hyphen, and hyphens at either end are dropped. */
module Slugs {
  import opened Paths

  predicate IsWordChar(c: char) {
    ('a' <= c <= 'z') || ('0' <= c <= '9')
  }

  function Lower(c: char): char {
    if 'A' <= c <= 'Z' then (c as int + 32) as char else c
  }

  predicate IsWord(w: string) {
    |w| > 0 && forall i | 0 <= i < |w| :: IsWordChar(w[i])
  }

  /** The length of the run of (lower-cased) word characters that starts s. */
  function RunLength(s: string): (n: nat)
    ensures n <= |s|
    ensures forall i | 0 <= i < n :: IsWordChar(Lower(s[i]))
    ensures n < |s| ==> !IsWordChar(Lower(s[n]))
  {
    if s == [] || !IsWordChar(Lower(s[0])) then 0 else 1 + RunLength(s[1..])
  }

  function LowerAll(s: string): (r: string)
    ensures |r| == |s| && forall i | 0 <= i < |s| :: r[i] == Lower(s[i])
  {
    if s == [] then [] else [Lower(s[0])] + LowerAll(s[1..])
  }

  /** The maximal runs of word characters of s, lower-cased. */
  function Words(s: string): (ws: seq<string>)
    ensures forall i | 0 <= i < |ws| :: IsWord(ws[i])
    decreases |s|
  {
    if s == [] then []
    else if !IsWordChar(Lower(s[0])) then Words(s[1..])
    else
      var n := RunLength(s);
      [LowerAll(s[..n])] + Words(s[n..])
  }

  /** `"-".join(ws)`. */
  function Hyphenate(ws: seq<string>): string {
    if |ws| == 0 then ""
    else if |ws| == 1 then ws[0]
    else ws[0] + "-" + Hyphenate(ws[1..])
  }

  predicate IsDigit(c: char) {
    '0' <= c <= '9'
  }

  /** The character at i is a comma between two digits. */
  predicate DigitComma(s: string, i: int)
    requires 0 <= i < |s|
  {
    s[i] == ',' && 0 < i < |s| - 1 && IsDigit(s[i - 1]) && IsDigit(s[i + 1])
  }

  /** The characters of s from i on, without the commas that sit between two
      digits of s (python-slugify's number clean-up). */
  function DropDigitCommas(s: string, i: nat): (r: string)
    requires i <= |s|
    ensures forall c | c in r :: c in s[i..]
    ensures forall k | i <= k < |s| && !DigitComma(s, k) :: s[k] in r
    ensures ',' !in s[i..] ==> r == s[i..]
    decreases |s| - i
  {
    if i == |s| then ""
    else
      var rest := DropDigitCommas(s, i + 1);
      assert s[i..] == [s[i]] + s[i + 1..];
      if DigitComma(s, i) then rest else [s[i]] + rest
  }

  lemma HeadSlice(a: string, i: int)
    requires 0 <= i < |a|
    ensures [a[i]] + a[i + 1..] == a[i..]
  {
  }

  /** Over a comma-free prefix a of s, the clean-up copies a unchanged. */
  lemma {:induction false} DropCommaFreePrefix(s: string, a: string, i: nat)
    requires i <= |a| <= |s|
    requires forall m | 0 <= m < |a| :: s[m] == a[m] && a[m] != ','
    ensures DropDigitCommas(s, i) == a[i..] + DropDigitCommas(s, |a|)
    decreases |a| - i
  {
    if i < |a| {
      var rest := DropDigitCommas(s, |a|);
      DropCommaFreePrefix(s, a, i + 1);
      assert s[i] == a[i] && s[i] != ',';
      assert DropDigitCommas(s, i) == [s[i]] + DropDigitCommas(s, i + 1);
      calc {
        [a[i]] + (a[i + 1..] + rest);
        ([a[i]] + a[i + 1..]) + rest;
        { HeadSlice(a, i); }
        a[i..] + rest;
      }
    }
  }

  /** A comma between two digits is dropped and the text around it is kept,
      in order: "1,000" gives "1000". */
  lemma {:induction false} DigitCommaDropped(a: string, b: string)
    requires |a| > 0 && |b| > 0 && IsDigit(a[|a| - 1]) && IsDigit(b[0])
    requires ',' !in a && ',' !in b
    ensures DropDigitCommas(a + "," + b, 0) == a + b
  {
    var s := a + "," + b;
    assert forall m | 0 <= m < |a| :: s[m] == a[m] && a[m] != ',' by {
      forall m | 0 <= m < |a| ensures s[m] == a[m] && a[m] != ',' {
        assert a[m] in a;
      }
    }
    DropCommaFreePrefix(s, a, 0);
    assert s[|a|] == ',' && s[|a| - 1] == a[|a| - 1] && s[|a| + 1] == b[0];
    assert DigitComma(s, |a|);
    assert s[|a| + 1..] == b;
    assert DropDigitCommas(s, |a|) == DropDigitCommas(s, |a| + 1) == b;
    assert a[0..] == a;
  }

  /** A slug is letters, digits and single hyphens between them: no hyphen at
      either end and never two in a row. */
  predicate IsSlug(s: string) {
    && (forall i | 0 <= i < |s| :: IsWordChar(s[i]) || s[i] == '-')
    && (s == [] || (s[0] != '-' && s[|s| - 1] != '-'))
    && forall i | 0 <= i < |s| - 1 :: s[i] == '-' ==> s[i + 1] != '-'
  }

  function Slugify(title: string): (r: string)
    ensures IsSlug(r)
  {
    var ws := Words(DropDigitCommas(title, 0));
    HyphenateSlug(ws);
    Hyphenate(ws)
  }

  /** Some word comes out of s exactly when s has a letter or a digit. */
  lemma {:induction false} WordsNonEmpty(s: string)
    ensures |Words(s)| > 0 <==> exists k | 0 <= k < |s| :: IsWordChar(Lower(s[k]))
    decreases |s|
  {
    if s != [] && !IsWordChar(Lower(s[0])) {
      WordsNonEmpty(s[1..]);
      assert forall k | 1 <= k < |s| :: s[1..][k - 1] == s[k];
    }
  }

  /** Joining words with "-" gives a slug that starts and ends with a word
      character. */
  lemma {:induction false} HyphenateSlug(ws: seq<string>)
    requires forall i | 0 <= i < |ws| :: IsWord(ws[i])
    ensures IsSlug(Hyphenate(ws))
    ensures |ws| > 0 ==> |Hyphenate(ws)| > 0 && IsWordChar(Hyphenate(ws)[0])
    ensures |ws| > 0 ==> IsWordChar(Hyphenate(ws)[|Hyphenate(ws)| - 1])
  {
    if |ws| > 1 {
      var w := ws[0];
      var rest := Hyphenate(ws[1..]);
      var h := w + "-" + rest;
      HyphenateSlug(ws[1..]);
      assert forall i | 0 <= i < |w| :: h[i] == w[i];
      assert h[|w|] == '-';
      assert forall i | |w| < i < |h| :: h[i] == rest[i - |w| - 1];
      forall i | 0 <= i < |h| - 1 && h[i] == '-'
        ensures h[i + 1] != '-'
      {
        if i > |w| {
          assert h[i] == rest[i - |w| - 1] && h[i + 1] == rest[i - |w|];
        }
      }
    }
  }

  /** A slug is made of lower-case letters, digits and hyphens, and is empty
      only when the title has no letter or digit at all; so a non-empty slug is
      a single path component and can name a directory. */
  lemma SlugShape(title: string)
    ensures forall i | 0 <= i < |Slugify(title)| :: IsWordChar(Slugify(title)[i]) || Slugify(title)[i] == '-'
    ensures Slugify(title) != "" ==> IsComponent(Slugify(title))
    ensures Slugify(title) != "" <==> exists k | 0 <= k < |title| :: IsWordChar(Lower(title[k]))
  {
    var t := DropDigitCommas(title, 0);
    var s := Slugify(title);
    HyphenateSlug(Words(t));
    WordsNonEmpty(t);
    assert title[0..] == title;
    if k :| 0 <= k < |title| && IsWordChar(Lower(title[k])) {
      assert title[k] in t;
      var m :| 0 <= m < |t| && t[m] == title[k];
      assert IsWordChar(Lower(t[m]));
    }
    if m :| 0 <= m < |t| && IsWordChar(Lower(t[m])) {
      assert t[m] in title;
      var k :| 0 <= k < |title| && title[k] == t[m];
      assert IsWordChar(Lower(title[k]));
    }
    if s != "" {
      assert IsWordChar(s[0]);
      assert s != ".";
      assert forall i | 0 <= i < |s| :: s[i] != '/';
    }
  }

  lemma {:induction false} RunOfWord(w: string, rest: string)
    requires IsWord(w)
    requires rest == [] || !IsWordChar(Lower(rest[0]))
    ensures RunLength(w + rest) == |w|
  {
    assert (w + rest)[0] == w[0];
    if |w| > 1 {
      assert (w + rest)[1..] == w[1..] + rest;
      RunOfWord(w[1..], rest);
    } else {
      assert (w + rest)[1..] == rest;
    }
  }

  lemma {:induction false} LowerWord(w: string)
    requires forall i | 0 <= i < |w| :: IsWordChar(w[i])
    ensures LowerAll(w) == w
  {
  }

  lemma {:induction false} WordsHyphenate(ws: seq<string>)
    requires forall i | 0 <= i < |ws| :: IsWord(ws[i])
    ensures Words(Hyphenate(ws)) == ws
  {
    if |ws| == 1 {
      RunOfWord(ws[0], "");
      assert ws[0] + "" == ws[0];
      LowerWord(ws[0]);
      assert ws[0][..|ws[0]|] == ws[0];
    } else if |ws| > 1 {
      var rest := Hyphenate(ws[1..]);
      var s := ws[0] + "-" + rest;
      RunOfWord(ws[0], "-" + rest);
      assert s == ws[0] + ("-" + rest);
      assert s[..|ws[0]|] == ws[0];
      LowerWord(ws[0]);
      assert s[|ws[0]|..] == "-" + rest;
      assert ("-" + rest)[1..] == rest;
      WordsHyphenate(ws[1..]);
    }
  }

  /** Slugifying a slug changes nothing, so the slug stored as a directory name
      is stable under another round of slugify. */
  lemma SlugifyIdempotent(title: string)
    ensures Slugify(Slugify(title)) == Slugify(title)
  {
    var s := Slugify(title);
    SlugShape(title);
    assert ',' !in s;
    assert s[0..] == s;
    WordsHyphenate(Words(DropDigitCommas(title, 0)));
  }
}

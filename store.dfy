/** The filesystem as the codec sees it: TOML documents, read as flat records,
    and other files (images, or anything that is not TOML). A directory is
    not stored; it exists exactly when some file lies below it. */
module Store {
  import opened Paths
  import opened Registry

  /** A value of a record: a string, a list of strings, or (only before
      `_try_write_toml` rewrites it) a `pathlib.Path`. */
  datatype Value = Text(text: string) | Texts(items: seq<string>) | PathValue(path: Path)

  type Record = map<string, Value>

  datatype Disk = Disk(docs: map<Path, Record>, blobs: set<Path>)

  /** What `Path.iterdir()` yields, in its order, for each directory. */
  type Listing = Path -> seq<string>

  function Files(disk: Disk): set<Path> {
    disk.docs.Keys + disk.blobs
  }

  predicate IsFile(disk: Disk, p: Path) {
    p in disk.docs || p in disk.blobs
  }

  predicate IsDir(disk: Disk, d: Path) {
    exists f | f in Files(disk) :: Below(f, d)
  }

  /** The names of the entries of directory d. */
  function Entries(disk: Disk, d: Path): (r: set<string>)
    ensures forall n | n in r :: IsComponent(n)
  {
    set f | f in Files(disk) && Below(f, d) :: f.parts[|d.parts|]
  }

  /** The listing enumerates every directory's entries, each once. */
  ghost predicate Lists(disk: Disk, listing: Listing) {
    forall d :: NoDup(listing(d)) && (set n | n in listing(d)) == Entries(disk, d)
  }

  /** The first i parts of p, as a path of its own. */
  function Prefix(p: Path, i: nat): (r: Path)
    requires i <= |p.parts|
    ensures r.absolute == p.absolute && r.parts == p.parts[..i]
  {
    PathRep(p.absolute, p.parts[..i])
  }

  /** Opening p fails with an OSError: p is a directory, or one of its
      ancestors is a file. */
  predicate Blocked(disk: Disk, p: Path) {
    IsDir(disk, p) || exists i | 0 <= i < |p.parts| :: IsFile(disk, Prefix(p, i))
  }

  /** The disk after writing the document rec at p (over whatever was there). */
  function Put(disk: Disk, p: Path, rec: Record): (r: Disk)
    ensures r.docs.Keys == disk.docs.Keys + {p} && r.docs[p] == rec
    ensures forall q | q in disk.docs && q != p :: r.docs[q] == disk.docs[q]
    ensures Files(r) == Files(disk) + {p}
  {
    Disk(disk.docs[p := rec], disk.blobs - {p})
  }

  /** A write never removes a file, so it never removes a directory entry,
      and the only entry it adds is the one leading to the written path. */
  lemma PutEntries(disk: Disk, p: Path, rec: Record, d: Path)
    ensures Entries(Put(disk, p, rec), d) ==
      Entries(disk, d) + (if Below(p, d) then {p.parts[|d.parts|]} else {})
  {
    var after := Put(disk, p, rec);
    forall n | n in Entries(after, d)
      ensures n in Entries(disk, d) + (if Below(p, d) then {p.parts[|d.parts|]} else {})
    {
      var f :| f in Files(after) && Below(f, d) && f.parts[|d.parts|] == n;
      if f != p {
        assert f in Files(disk);
      }
    }
    if Below(p, d) {
      assert p in Files(after);
    }
  }
}

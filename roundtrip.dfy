/** The round trip of scuzzie/comic.py: `write_comic` followed by `read_comic`
    on the same root gives back the comic that was written, with its order
    lists, titles and images, once every entity sits at the path the reader
    derives from its slug. */
module RoundTrip {
  import opened Wrappers
  import opened Paths
  import opened Slugs
  import opened Registry
  import opened Store
  import opened Resources
  import opened Documents
  import opened Loader
  import opened Saver

  /** The document a plan leaves at each path it writes to. */
  function Writes(steps: seq<Step>): map<Path, Record>
    decreases |steps|
  {
    if steps == [] then map[]
    else
      (if steps[0].Write? then map[steps[0].target := Stringified(steps[0].record)] else map[])
      + Writes(steps[1..])
  }

  /** The asset paths a plan validates. */
  function Assets(steps: seq<Step>): set<Path>
    decreases |steps|
  {
    if steps == [] then {}
    else (if steps[0].Write? then {steps[0].asset} else {}) + Assets(steps[1..])
  }

  /** The disk with all of w written over it. */
  function PutAll(disk: Disk, w: map<Path, Record>): (r: Disk)
    ensures Files(r) == Files(disk) + w.Keys
    ensures forall p | p in w :: p in r.docs && r.docs[p] == w[p]
  {
    Disk(disk.docs + w, disk.blobs - w.Keys)
  }

  /** A plan that runs to the end leaves its documents on the disk, and every
      asset it validated is still a file. */
  lemma {:induction false} RunPuts(disk: Disk, steps: seq<Step>)
    requires Run(disk, steps).outcome.Pass?
    ensures Run(disk, steps).disk == PutAll(disk, Writes(steps))
    ensures forall a | a in Assets(steps) :: IsFile(Run(disk, steps).disk, a)
    decreases |steps|
  {
    if steps != [] {
      var s := steps[0];
      assert s.Write? && IsFile(disk, s.asset);
      var next := Put(disk, s.target, Stringified(s.record));
      RunPuts(next, steps[1..]);
      RunChangesOnlyTargets(next, steps[1..], s.asset);
      assert Writes(steps) == map[s.target := Stringified(s.record)] + Writes(steps[1..]);
      PutThenAll(disk, s.target, Stringified(s.record), Writes(steps[1..]));
    }
  }

  lemma PutThenAll(disk: Disk, p: Path, rec: Record, w: map<Path, Record>)
    ensures PutAll(Put(disk, p, rec), w) == PutAll(disk, map[p := rec] + w)
  {
    assert disk.docs[p := rec] + w == disk.docs + (map[p := rec] + w);
    assert (disk.blobs - {p}) - w.Keys == disk.blobs - (map[p := rec] + w).Keys;
  }

  lemma {:induction false} WritesAppend(a: seq<Step>, b: seq<Step>)
    ensures Writes(a + b) == Writes(a) + Writes(b)
    decreases |a|
  {
    if a == [] {
      assert a + b == b;
    } else {
      assert (a + b)[0] == a[0];
      assert (a + b)[1..] == a[1..] + b;
      WritesAppend(a[1..], b);
      var head := if a[0].Write? then map[a[0].target := Stringified(a[0].record)] else map[];
      calc {
        Writes(a + b);
        head + Writes(a[1..] + b);
        head + (Writes(a[1..]) + Writes(b));
        { MapUnionAssoc(head, Writes(a[1..]), Writes(b)); }
        (head + Writes(a[1..])) + Writes(b);
      }
    }
  }

  lemma MapUnionAssoc<K, V>(x: map<K, V>, y: map<K, V>, z: map<K, V>)
    ensures x + (y + z) == (x + y) + z
  {
  }

  lemma {:induction false} AssetsAppend(a: seq<Step>, b: seq<Step>)
    ensures Assets(a + b) == Assets(a) + Assets(b)
    decreases |a|
  {
    if a == [] {
      assert a + b == b;
    } else {
      assert (a + b)[0] == a[0];
      assert (a + b)[1..] == a[1..] + b;
      AssetsAppend(a[1..], b);
    }
  }

  /** `<root>/volumes/<k>`, where the reader finds volume k. */
  function VolumeDir(root: Path, k: string): Path {
    Div(Div(root, "volumes"), k)
  }

  /** `<root>/volumes/<k>/pages`. */
  function PagesDir(root: Path, k: string): Path {
    Div(VolumeDir(root, k), "pages")
  }

  /** The paths of the layout, part by part. */
  lemma VolumeDirParts(root: Path, k: string)
    requires IsComponent(k)
    ensures Div(root, "comic.toml").parts == root.parts + ["comic.toml"]
    ensures Div(root, "volumes").parts == root.parts + ["volumes"]
    ensures VolumeDir(root, k).parts == root.parts + ["volumes"] + [k]
    ensures VolumeTarget(root, k).parts == root.parts + ["volumes"] + [k] + ["volume.toml"]
    ensures PagesDir(root, k).parts == root.parts + ["volumes"] + [k] + ["pages"]
    ensures Div(root, "comic.toml").absolute == Div(root, "volumes").absolute == VolumeDir(root, k).absolute
      == VolumeTarget(root, k).absolute == PagesDir(root, k).absolute == root.absolute
  {
    assert IsComponent("comic.toml") && IsComponent("volumes");
    assert IsComponent("volume.toml") && IsComponent("pages");
  }

  lemma PageTargetParts(vp: Path, pk: string)
    requires IsComponent(pk)
    ensures Div(Div(vp, "pages"), pk).parts == vp.parts + ["pages"] + [pk]
    ensures PageTarget(vp, pk).parts == vp.parts + ["pages"] + [pk] + ["page.toml"]
    ensures Div(Div(vp, "pages"), pk).absolute == PageTarget(vp, pk).absolute == vp.absolute
  {
    assert IsComponent("pages") && IsComponent("page.toml");
  }

  /** The page is stored under its slug, the slug can name a directory (it
      is not empty), and the page's volume is at `<root>/volumes/<k>`. */
  predicate PagePlaced(p: PageData, pk: string, vp: Path) {
    pk == Slugify(p.title) && IsComponent(pk) && p.home == Some(vp)
  }

  /** The volume is stored under its slug, its order list names each of its
      pages exactly once, and its pages are placed. */
  ghost predicate VolumePlaced(v: VolumeData, k: string, root: Path) {
    && k == Slugify(v.title) && IsComponent(k)
    && NoDup(v.pageSlugs) && (forall s :: s in v.pageSlugs <==> s in v.pages)
    && forall pk | pk in v.pages :: PagePlaced(v.pages[pk], pk, VolumeDir(root, k))
  }

  /** What the round trip needs of a comic: its order list names each volume
      exactly once, and its volumes are placed. */
  ghost predicate Placed(d: ComicData, root: Path) {
    && NoDup(d.volumeSlugs) && (forall s :: s in d.volumeSlugs <==> s in d.volumes)
    && forall k | k in d.volumes :: VolumePlaced(d.volumes[k], k, root)
  }

  /** What the plan of one placed volume writes. */
  function VolumeWrites(root: Path, v: VolumeData): map<Path, Record> {
    Writes(VolumeSteps(Some(root), root, v))
  }

  /** Two page targets in the same volume are the same exactly when the
      slugs are. */
  lemma PageTargetInjective(vp: Path, a: string, b: string)
    requires IsComponent(a) && IsComponent(b) && a != b
    ensures PageTarget(vp, a) != PageTarget(vp, b)
  {
    PageTargetParts(vp, a);
    PageTargetParts(vp, b);
    assert PageTarget(vp, a).parts[|vp.parts| + 1] == a;
    assert PageTarget(vp, b).parts[|vp.parts| + 1] == b;
  }

  lemma NoDupTail(order: seq<string>)
    requires NoDup(order) && order != []
    ensures NoDup(order[1..]) && order[0] !in order[1..]
    ensures forall s | s in order[1..] :: s in order
  {
    forall j | 0 <= j < |order| - 1
      ensures order[1..][j] != order[0]
    {
      assert order[1..][j] == order[j + 1];
    }
  }

  /** A one-step plan writes its one document. */
  lemma WritesOne(s: Step)
    ensures Writes([s]) == if s.Write? then map[s.target := Stringified(s.record)] else map[]
    ensures Assets([s]) == if s.Write? then {s.asset} else {}
  {
    assert [s][1..] == [];
  }

  /** The step that writes a placed page. */
  function PageWrite(root: Path, vp: Path, pk: string, p: PageData): Step {
    Write(AssetLocation(root, p.image), PageTarget(vp, pk), PageRecord(p.title, p.image))
  }

  /** The pages plan starts with the write of the first listed page. */
  lemma PageStepsOf(root: Path, k: string, order: seq<string>, pages: map<string, PageData>)
    requires order != [] && order[0] in pages && PagePlaced(pages[order[0]], order[0], VolumeDir(root, k))
    ensures PagesSteps(Some(root), order, pages) ==
      [PageWrite(root, VolumeDir(root, k), order[0], pages[order[0]])] + PagesSteps(Some(root), order[1..], pages)
  {
    assert PageStepsAt(Some(root), order[0], pages) == [PageWrite(root, VolumeDir(root, k), order[0], pages[order[0]])];
  }

  /** The pages of a placed volume are written to their own targets only. */
  lemma {:induction false} PagesWrittenOnly(root: Path, k: string, order: seq<string>, pages: map<string, PageData>)
    requires forall pk | pk in order :: pk in pages && PagePlaced(pages[pk], pk, VolumeDir(root, k))
    ensures forall t | t in Writes(PagesSteps(Some(root), order, pages)) ::
      exists pk | pk in order :: t == PageTarget(VolumeDir(root, k), pk)
    ensures forall pk | pk in order :: AssetLocation(root, pages[pk].image) in Assets(PagesSteps(Some(root), order, pages))
    decreases |order|
  {
    if order != [] {
      var steps := PagesSteps(Some(root), order[1..], pages);
      PageStepsOf(root, k, order, pages);
      var step := PageWrite(root, VolumeDir(root, k), order[0], pages[order[0]]);
      WritesOne(step);
      WritesAppend([step], steps);
      AssetsAppend([step], steps);
      assert forall pk | pk in order[1..] :: pk in order;
      PagesWrittenOnly(root, k, order[1..], pages);
    }
  }

  /** Each page of a placed volume is written to its own target. */
  lemma {:induction false} PagesWritten(root: Path, k: string, order: seq<string>, pages: map<string, PageData>)
    requires NoDup(order)
    requires forall pk | pk in order :: pk in pages && PagePlaced(pages[pk], pk, VolumeDir(root, k))
    ensures forall pk | pk in order ::
      PageTarget(VolumeDir(root, k), pk) in Writes(PagesSteps(Some(root), order, pages))
      && Writes(PagesSteps(Some(root), order, pages))[PageTarget(VolumeDir(root, k), pk)]
         == Stringified(PageRecord(pages[pk].title, pages[pk].image))
    decreases |order|
  {
    if order != [] {
      var vp := VolumeDir(root, k);
      var step := PageWrite(root, vp, order[0], pages[order[0]]);
      var t := step.target;
      var rest := Writes(PagesSteps(Some(root), order[1..], pages));
      PageStepsOf(root, k, order, pages);
      WritesOne(step);
      WritesAppend([step], PagesSteps(Some(root), order[1..], pages));
      assert Writes(PagesSteps(Some(root), order, pages)) == map[t := Stringified(step.record)] + rest;
      NoDupTail(order);
      PagesWritten(root, k, order[1..], pages);
      PagesWrittenOnly(root, k, order[1..], pages);
      forall pk' | pk' in order[1..]
        ensures PageTarget(vp, pk') != t
      {
        PageTargetInjective(vp, pk', order[0]);
      }
      assert t !in rest;
    }
  }

  /** Where the layout's paths lie relative to each other. */
  lemma LayoutBelow(root: Path, k: string)
    requires IsComponent(k)
    ensures |Div(root, "volumes").parts| == |root.parts| + 1
    ensures |VolumeDir(root, k).parts| == |root.parts| + 2
    ensures |VolumeTarget(root, k).parts| == |root.parts| + 3
    ensures PagesDir(root, k) == Div(VolumeDir(root, k), "pages") && |PagesDir(root, k).parts| == |root.parts| + 3
    ensures Below(VolumeTarget(root, k), VolumeDir(root, k)) && !Below(VolumeTarget(root, k), PagesDir(root, k))
    ensures Below(PagesDir(root, k), VolumeDir(root, k))
  {
    VolumeDirParts(root, k);
    var vd := VolumeDir(root, k);
    assert VolumeTarget(root, k).parts[..|vd.parts|] == vd.parts;
    assert PagesDir(root, k).parts[..|vd.parts|] == vd.parts;
    assert VolumeTarget(root, k).parts[|vd.parts|] != PagesDir(root, k).parts[|vd.parts|];
  }

  /** A path below `<root>/volumes/<k>` is below `<root>/volumes`, as the
      entry k. */
  lemma BelowVolumeDir(t: Path, root: Path, k: string)
    requires IsComponent(k) && Below(t, VolumeDir(root, k))
    ensures Below(t, Div(root, "volumes")) && t.parts[|root.parts| + 1] == k
    ensures t != Div(root, "comic.toml")
  {
    VolumeDirParts(root, k);
    var vd := VolumeDir(root, k);
    assert t.parts[..|root.parts| + 1] == t.parts[..|vd.parts|][..|root.parts| + 1];
    assert t.parts[|root.parts| + 1] == t.parts[..|vd.parts|][|root.parts| + 1];
  }

  /** A path below `<root>/volumes/<k>/pages` is below `<root>/volumes/<k>`. */
  lemma BelowPagesDir(t: Path, root: Path, k: string)
    requires IsComponent(k) && Below(t, PagesDir(root, k))
    ensures Below(t, VolumeDir(root, k))
  {
    VolumeDirParts(root, k);
    var vd := VolumeDir(root, k);
    assert t.parts[..|vd.parts|] == t.parts[..|vd.parts| + 1][..|vd.parts|];
  }

  lemma PageTargetBelow(vp: Path, pk: string)
    requires IsComponent(pk)
    ensures Below(PageTarget(vp, pk), Div(vp, "pages")) && Below(PageTarget(vp, pk), vp)
    ensures PageTarget(vp, pk).parts[|vp.parts| + 1] == pk
    ensures |PageTarget(vp, pk).parts| == |vp.parts| + 3
  {
    PageTargetParts(vp, pk);
    assert PageTarget(vp, pk).parts[..|vp.parts| + 1] == Div(vp, "pages").parts;
    assert PageTarget(vp, pk).parts[..|vp.parts|] == vp.parts;
  }

  /** The step that writes a placed volume's document. */
  function VolumeWrite(root: Path, k: string, v: VolumeData): Step {
    Write(AssetLocation(root, v.image), VolumeTarget(root, k), VolumeRecord(v.title, v.image, v.pageSlugs))
  }

  /** A placed volume's plan: its document, then its pages. */
  lemma VolumeStepsOf(root: Path, k: string, v: VolumeData)
    requires VolumePlaced(v, k, root)
    ensures VolumeSteps(Some(root), root, v) == [VolumeWrite(root, k, v)] + PagesSteps(Some(root), v.pageSlugs, v.pages)
    ensures forall pk | pk in v.pageSlugs :: pk in v.pages && PagePlaced(v.pages[pk], pk, VolumeDir(root, k))
  {
  }

  /** A placed volume writes below its own directory: its document and its
      pages' documents, nothing else; and it validates its image and its
      pages' images. */
  lemma VolumeWrittenOnly(root: Path, k: string, v: VolumeData)
    requires VolumePlaced(v, k, root)
    ensures forall t | t in VolumeWrites(root, v) ::
      Below(t, VolumeDir(root, k))
      && (Below(t, PagesDir(root, k)) ==> exists pk | pk in v.pages :: t == PageTarget(VolumeDir(root, k), pk))
    ensures AssetLocation(root, v.image) in Assets(VolumeSteps(Some(root), root, v))
    ensures forall pk | pk in v.pages :: AssetLocation(root, v.pages[pk].image) in Assets(VolumeSteps(Some(root), root, v))
  {
    var vd := VolumeDir(root, k);
    var step := VolumeWrite(root, k, v);
    var pages := PagesSteps(Some(root), v.pageSlugs, v.pages);
    VolumeStepsOf(root, k, v);
    WritesOne(step);
    WritesAppend([step], pages);
    AssetsAppend([step], pages);
    PagesWrittenOnly(root, k, v.pageSlugs, v.pages);
    LayoutBelow(root, k);
    forall pk | pk in v.pages
      ensures Below(PageTarget(vd, pk), vd)
    {
      PageTargetBelow(vd, pk);
    }
  }

  /** A placed volume writes its document and each page's document. */
  lemma VolumeWritten(root: Path, k: string, v: VolumeData)
    requires VolumePlaced(v, k, root)
    ensures var w := VolumeWrites(root, v);
      && VolumeTarget(root, k) in w
      && w[VolumeTarget(root, k)] == Stringified(VolumeRecord(v.title, v.image, v.pageSlugs))
      && forall pk | pk in v.pages ::
           PageTarget(VolumeDir(root, k), pk) in w
           && w[PageTarget(VolumeDir(root, k), pk)] == Stringified(PageRecord(v.pages[pk].title, v.pages[pk].image))
  {
    var vd := VolumeDir(root, k);
    var step := VolumeWrite(root, k, v);
    var pages := Writes(PagesSteps(Some(root), v.pageSlugs, v.pages));
    VolumeStepsOf(root, k, v);
    WritesOne(step);
    WritesAppend([step], PagesSteps(Some(root), v.pageSlugs, v.pages));
    assert VolumeWrites(root, v) == map[VolumeTarget(root, k) := Stringified(step.record)] + pages;
    PagesWritten(root, k, v.pageSlugs, v.pages);
    PagesWrittenOnly(root, k, v.pageSlugs, v.pages);
    LayoutBelow(root, k);
    forall pk | pk in v.pageSlugs
      ensures PageTarget(vd, pk) != VolumeTarget(root, k)
    {
      PageTargetBelow(vd, pk);
    }
    assert VolumeTarget(root, k) !in pages;
  }

  /** Every document of small is in big, unchanged. */
  predicate SubMap(small: map<Path, Record>, big: map<Path, Record>) {
    forall t | t in small :: t in big && big[t] == small[t]
  }

  /** What the plans of the listed volumes write. */
  function VolumesWrites(root: Path, order: seq<string>, vs: map<string, VolumeData>): map<Path, Record> {
    Writes(VolumesSteps(Some(root), root, order, vs))
  }

  /** What the plans of the listed volumes validate. */
  function VolumesAssets(root: Path, order: seq<string>, vs: map<string, VolumeData>): set<Path> {
    Assets(VolumesSteps(Some(root), root, order, vs))
  }

  /** The volumes plan starts with the plan of the first listed volume. */
  lemma VolumesStepsOf(root: Path, order: seq<string>, vs: map<string, VolumeData>)
    requires order != [] && order[0] in vs
    ensures VolumesWrites(root, order, vs) == VolumeWrites(root, vs[order[0]]) + VolumesWrites(root, order[1..], vs)
    ensures VolumesAssets(root, order, vs) ==
      Assets(VolumeSteps(Some(root), root, vs[order[0]])) + VolumesAssets(root, order[1..], vs)
  {
    var first := VolumeSteps(Some(root), root, vs[order[0]]);
    var rest := VolumesSteps(Some(root), root, order[1..], vs);
    assert VolumesSteps(Some(root), root, order, vs) == first + rest;
    WritesAppend(first, rest);
    AssetsAppend(first, rest);
  }

  /** A path below one volume's directory is not below another's. */
  lemma VolumeDirsApart(t: Path, root: Path, k: string, k': string)
    requires IsComponent(k) && IsComponent(k') && k != k'
    requires Below(t, VolumeDir(root, k))
    ensures !Below(t, VolumeDir(root, k'))
  {
    BelowVolumeDir(t, root, k);
    LayoutBelow(root, k');
    VolumeDirParts(root, k');
  }

  /** Two placed volumes under different slugs write to different paths. */
  lemma VolumeWritesDisjoint(root: Path, k: string, v: VolumeData, k': string, v': VolumeData, t: Path)
    requires VolumePlaced(v, k, root) && VolumePlaced(v', k', root) && k != k'
    requires t in VolumeWrites(root, v)
    ensures t !in VolumeWrites(root, v')
  {
    VolumeWrittenOnly(root, k, v);
    VolumeWrittenOnly(root, k', v');
    VolumeDirsApart(t, root, k, k');
  }

  /** The listed volumes write only what their own plans write, and validate
      everything their own plans validate. */
  lemma {:induction false} VolumesWrittenOnly(root: Path, order: seq<string>, vs: map<string, VolumeData>)
    requires forall k | k in order :: k in vs
    ensures forall t | t in VolumesWrites(root, order, vs) ::
      exists k | k in order :: t in VolumeWrites(root, vs[k])
    ensures forall k | k in order ::
      Assets(VolumeSteps(Some(root), root, vs[k])) <= VolumesAssets(root, order, vs)
    decreases |order|
  {
    if order != [] {
      VolumesStepsOf(root, order, vs);
      assert forall k | k in order[1..] :: k in order;
      VolumesWrittenOnly(root, order[1..], vs);
    }
  }

  /** When no two listed volumes write to the same path, each listed volume's
      documents are written, unchanged by the others. */
  lemma {:induction false} VolumesWritten(root: Path, order: seq<string>, vs: map<string, VolumeData>)
    requires NoDup(order)
    requires forall k | k in order :: k in vs
    requires forall k, k', t | k in order && k' in order && k != k' && t in VolumeWrites(root, vs[k]) ::
      t !in VolumeWrites(root, vs[k'])
    ensures forall k | k in order :: SubMap(VolumeWrites(root, vs[k]), VolumesWrites(root, order, vs))
    decreases |order|
  {
    if order != [] {
      var k0 := order[0];
      var first := VolumeWrites(root, vs[k0]);
      var rest := VolumesWrites(root, order[1..], vs);
      VolumesStepsOf(root, order, vs);
      NoDupTail(order);
      VolumesWritten(root, order[1..], vs);
      VolumesWrittenOnly(root, order[1..], vs);
      forall k | k in order
        ensures SubMap(VolumeWrites(root, vs[k]), first + rest)
      {
        if k == k0 {
          assert forall t | t in first :: t !in rest;
        } else {
          assert k in order[1..];
        }
      }
    }
  }

  /** Placed volumes under different slugs write to different paths. */
  lemma PlacedDisjoint(d: ComicData, root: Path)
    requires Placed(d, root)
    ensures forall k, k', t | k in d.volumeSlugs && k' in d.volumeSlugs && k != k' && t in VolumeWrites(root, d.volumes[k]) ::
      t !in VolumeWrites(root, d.volumes[k'])
  {
    forall k, k', t | k in d.volumeSlugs && k' in d.volumeSlugs && k != k' && t in VolumeWrites(root, d.volumes[k])
      ensures t !in VolumeWrites(root, d.volumes[k'])
    {
      VolumeWritesDisjoint(root, k, d.volumes[k], k', d.volumes[k'], t);
    }
  }

  /** The comic's own document and its target. */
  function ComicTarget(root: Path): Path {
    Div(root, "comic.toml")
  }

  function ComicWrite(root: Path, d: ComicData): Step {
    Write(AssetLocation(root, d.placeholder), ComicTarget(root), ComicRecord(d.name, d.placeholder, d.volumeSlugs))
  }

  /** What a save to root writes: the comic's document, then its volumes. */
  lemma ComicStepsOf(d: ComicData, root: Path)
    ensures Writes(ComicSteps(d.(path := Some(root)), root)) ==
      map[ComicTarget(root) := Stringified(ComicRecord(d.name, d.placeholder, d.volumeSlugs))]
      + VolumesWrites(root, d.volumeSlugs, d.volumes)
    ensures Assets(ComicSteps(d.(path := Some(root)), root)) ==
      {AssetLocation(root, d.placeholder)} + VolumesAssets(root, d.volumeSlugs, d.volumes)
  {
    var first := ComicWrite(root, d);
    var rest := VolumesSteps(Some(root), root, d.volumeSlugs, d.volumes);
    assert ComicSteps(d.(path := Some(root)), root) == [first] + rest;
    WritesOne(first);
    WritesAppend([first], rest);
    AssetsAppend([first], rest);
  }

  /** The documents a save of d to root writes. */
  function SavedWrites(root: Path, d: ComicData): map<Path, Record> {
    map[ComicTarget(root) := Stringified(ComicRecord(d.name, d.placeholder, d.volumeSlugs))]
    + VolumesWrites(root, d.volumeSlugs, d.volumes)
  }

  /** A save to root that succeeds leaves its documents over the old disk,
      and every asset it validated is a file. */
  lemma SaveLeaves(disk: Disk, d: ComicData, given: Option<Path>, root: Path)
    requires TargetPath(d.path, given) == Success(root)
    requires Save(disk, d, given).outcome.Pass?
    ensures Save(disk, d, given).disk == PutAll(disk, SavedWrites(root, d))
    ensures IsFile(Save(disk, d, given).disk, AssetLocation(root, d.placeholder))
    ensures forall a | a in VolumesAssets(root, d.volumeSlugs, d.volumes) :: IsFile(Save(disk, d, given).disk, a)
  {
    var steps := ComicSteps(d.(path := Some(root)), root);
    assert Save(disk, d, given) == Run(disk, steps);
    RunPuts(disk, steps);
    ComicStepsOf(d, root);
  }

  /** The comic's document is not below a volume's directory. */
  lemma ComicTargetNotBelow(root: Path, k: string)
    requires IsComponent(k)
    ensures !Below(ComicTarget(root), VolumeDir(root, k))
  {
    LayoutBelow(root, k);
    VolumeDirParts(root, k);
  }

  /** No volume writes the comic's document. */
  lemma ComicTargetApart(root: Path, d: ComicData)
    requires Placed(d, root)
    ensures ComicTarget(root) !in VolumesWrites(root, d.volumeSlugs, d.volumes)
  {
    VolumesWrittenOnly(root, d.volumeSlugs, d.volumes);
    forall k | k in d.volumeSlugs
      ensures ComicTarget(root) !in VolumeWrites(root, d.volumes[k])
    {
      VolumeWrittenOnly(root, k, d.volumes[k]);
      ComicTargetNotBelow(root, k);
    }
  }

  /** The comic's document is saved at `<root>/comic.toml`. */
  lemma SavedComicDoc(root: Path, d: ComicData)
    requires Placed(d, root)
    ensures ComicTarget(root) in SavedWrites(root, d)
    ensures SavedWrites(root, d)[ComicTarget(root)] == Stringified(ComicRecord(d.name, d.placeholder, d.volumeSlugs))
  {
    ComicTargetApart(root, d);
  }

  /** Each volume's documents are saved, unchanged by the other volumes. */
  lemma SavedVolumeDocs(root: Path, d: ComicData)
    requires Placed(d, root)
    ensures forall k | k in d.volumes :: SubMap(VolumeWrites(root, d.volumes[k]), SavedWrites(root, d))
  {
    var order := d.volumeSlugs;
    PlacedDisjoint(d, root);
    VolumesWritten(root, order, d.volumes);
    forall k | k in d.volumes
      ensures SubMap(VolumeWrites(root, d.volumes[k]), SavedWrites(root, d))
    {
      assert k in order;
    }
  }

  /** Besides the comic's document, a save writes only volumes' documents. */
  lemma SavedOnly(root: Path, d: ComicData)
    requires forall k | k in d.volumeSlugs :: k in d.volumes
    ensures forall t | t in SavedWrites(root, d) && t != ComicTarget(root) ::
      exists k | k in d.volumes :: t in VolumeWrites(root, d.volumes[k])
  {
    VolumesWrittenOnly(root, d.volumeSlugs, d.volumes);
  }

  /** The names of the entries of dir that the documents of w lie under. */
  function EntryNames(w: map<Path, Record>, dir: Path): set<string> {
    set t | t in w && Below(t, dir) :: t.parts[|dir.parts|]
  }

  /** The entries of a directory the old disk has nothing below are the ones
      the writes create. */
  lemma EntriesOfWrites(disk: Disk, w: map<Path, Record>, dir: Path)
    requires forall f | f in Files(disk) :: !Below(f, dir)
    ensures Entries(PutAll(disk, w), dir) == EntryNames(w, dir)
  {
  }

  /** A saved document below `<root>/volumes` lies under a volume's slug. */
  lemma SavedVolumeEntry(root: Path, d: ComicData, t: Path)
    requires Placed(d, root)
    requires t in SavedWrites(root, d) && Below(t, Div(root, "volumes"))
    ensures t.parts[|Div(root, "volumes").parts|] in d.volumes
  {
    SavedOnly(root, d);
    ComicTargetOutside(root);
    var k :| k in d.volumes && t in VolumeWrites(root, d.volumes[k]);
    VolumeWrittenOnly(root, k, d.volumes[k]);
    LayoutBelow(root, k);
    BelowVolumeDir(t, root, k);
  }

  /** The comic's document is not below `<root>/volumes`. */
  lemma ComicTargetOutside(root: Path)
    ensures !Below(ComicTarget(root), Div(root, "volumes"))
  {
    assert IsComponent("comic.toml") && IsComponent("volumes");
  }

  /** Each volume's document is saved below `<root>/volumes`, under its slug. */
  lemma SavedVolumeListed(root: Path, d: ComicData, k: string)
    requires Placed(d, root) && k in d.volumes
    ensures VolumeTarget(root, k) in SavedWrites(root, d)
    ensures Below(VolumeTarget(root, k), Div(root, "volumes"))
    ensures VolumeTarget(root, k).parts[|Div(root, "volumes").parts|] == k
  {
    SavedVolumeDocs(root, d);
    VolumeWritten(root, k, d.volumes[k]);
    LayoutBelow(root, k);
    BelowVolumeDir(VolumeTarget(root, k), root, k);
  }

  /** The entries a save creates in `<root>/volumes` are the volumes' slugs. */
  lemma SavedVolumeEntries(root: Path, d: ComicData)
    requires Placed(d, root)
    ensures EntryNames(SavedWrites(root, d), Div(root, "volumes")) == d.volumes.Keys
  {
    var dir := Div(root, "volumes");
    var sw := SavedWrites(root, d);
    forall n | n in EntryNames(sw, dir)
      ensures n in d.volumes
    {
      var t :| t in sw && Below(t, dir) && t.parts[|dir.parts|] == n;
      SavedVolumeEntry(root, d, t);
    }
    forall k | k in d.volumes
      ensures k in EntryNames(sw, dir)
    {
      SavedVolumeListed(root, d, k);
    }
  }

  /** A saved document below `<root>/volumes/<k>/pages` lies under the slug
      of one of volume k's pages. */
  lemma SavedPageEntry(root: Path, d: ComicData, k: string, t: Path)
    requires Placed(d, root) && k in d.volumes
    requires t in SavedWrites(root, d) && Below(t, PagesDir(root, k))
    ensures t.parts[|PagesDir(root, k).parts|] in d.volumes[k].pages
  {
    var vd := VolumeDir(root, k);
    var v := d.volumes[k];
    assert VolumePlaced(v, k, root);
    SavedOnly(root, d);
    LayoutBelow(root, k);
    BelowPagesDir(t, root, k);
    BelowVolumeDir(t, root, k);
    var k' :| k' in d.volumes && t in VolumeWrites(root, d.volumes[k']);
    VolumeWrittenOnly(root, k', d.volumes[k']);
    BelowVolumeDir(t, root, k');
    assert k' == k;
    assert exists pk | pk in v.pages :: t == PageTarget(vd, pk);
    var pk :| pk in v.pages && t == PageTarget(vd, pk);
    assert PagePlaced(v.pages[pk], pk, vd);
    PageTargetBelow(vd, pk);
  }

  /** Each page's document is saved below its volume's `pages` directory,
      under its slug. */
  lemma SavedPageListed(root: Path, d: ComicData, k: string, pk: string)
    requires Placed(d, root) && k in d.volumes && pk in d.volumes[k].pages
    ensures PageTarget(VolumeDir(root, k), pk) in SavedWrites(root, d)
    ensures Below(PageTarget(VolumeDir(root, k), pk), PagesDir(root, k))
    ensures PageTarget(VolumeDir(root, k), pk).parts[|PagesDir(root, k).parts|] == pk
  {
    var vd := VolumeDir(root, k);
    SavedVolumeDocs(root, d);
    VolumeWritten(root, k, d.volumes[k]);
    LayoutBelow(root, k);
    PageTargetBelow(vd, pk);
  }

  /** The entries a save creates in `<root>/volumes/<k>/pages` are the slugs
      of volume k's pages. */
  lemma SavedPageEntries(root: Path, d: ComicData, k: string)
    requires Placed(d, root) && k in d.volumes
    ensures EntryNames(SavedWrites(root, d), PagesDir(root, k)) == d.volumes[k].pages.Keys
  {
    var dir := PagesDir(root, k);
    var sw := SavedWrites(root, d);
    forall n | n in EntryNames(sw, dir)
      ensures n in d.volumes[k].pages
    {
      var t :| t in sw && Below(t, dir) && t.parts[|dir.parts|] == n;
      SavedPageEntry(root, d, k, t);
    }
    forall pk | pk in d.volumes[k].pages
      ensures pk in EntryNames(sw, dir)
    {
      SavedPageListed(root, d, k, pk);
    }
  }

  /** A path below a volume's `pages` directory is below `<root>/volumes`. */
  lemma PagesDirInVolumes(t: Path, root: Path, k: string)
    requires IsComponent(k)
    ensures Below(t, PagesDir(root, k)) ==> Below(t, Div(root, "volumes"))
  {
    if Below(t, PagesDir(root, k)) {
      BelowPagesDir(t, root, k);
      BelowVolumeDir(t, root, k);
    }
  }

  /** The page's document and its image, as the reader looks for them. */
  predicate PageStored(disk: Disk, root: Path, vp: Path, pk: string, p: PageData) {
    && PageTarget(vp, pk) in disk.docs
    && disk.docs[PageTarget(vp, pk)] == Stringified(PageRecord(p.title, p.image))
    && AssetIsFile(disk, root, p.image)
  }

  /** The volume's document, its image, and exactly its pages' directories
      below `<root>/volumes/<k>/pages`, each with its page stored. */
  ghost predicate VolumeStored(disk: Disk, root: Path, k: string, v: VolumeData) {
    && VolumeTarget(root, k) in disk.docs
    && disk.docs[VolumeTarget(root, k)] == Stringified(VolumeRecord(v.title, v.image, v.pageSlugs))
    && AssetIsFile(disk, root, v.image)
    && Entries(disk, PagesDir(root, k)) == v.pages.Keys
    && forall pk | pk in v.pages :: PageStored(disk, root, VolumeDir(root, k), pk, v.pages[pk])
  }

  /** The comic's document, its placeholder, and exactly its volumes'
      directories below `<root>/volumes`, each with its volume stored. */
  ghost predicate Stored(disk: Disk, root: Path, d: ComicData) {
    && ComicTarget(root) in disk.docs
    && disk.docs[ComicTarget(root)] == Stringified(ComicRecord(d.name, d.placeholder, d.volumeSlugs))
    && AssetIsFile(disk, root, d.placeholder)
    && Entries(disk, Div(root, "volumes")) == d.volumes.Keys
    && forall k | k in d.volumes :: VolumeStored(disk, root, k, d.volumes[k])
  }

  /** A save that succeeds validated the image of every volume and page. */
  lemma SavedAssets(disk: Disk, d: ComicData, given: Option<Path>, root: Path, k: string)
    requires TargetPath(d.path, given) == Success(root)
    requires Placed(d, root) && k in d.volumes
    requires Save(disk, d, given).outcome.Pass?
    ensures AssetIsFile(Save(disk, d, given).disk, root, d.volumes[k].image)
    ensures forall pk | pk in d.volumes[k].pages :: AssetIsFile(Save(disk, d, given).disk, root, d.volumes[k].pages[pk].image)
  {
    SaveLeaves(disk, d, given, root);
    VolumesWrittenOnly(root, d.volumeSlugs, d.volumes);
    VolumeWrittenOnly(root, k, d.volumes[k]);
    assert k in d.volumeSlugs;
  }

  /** After a successful save, each volume is stored where the reader looks. */
  lemma SavedVolumeStored(disk: Disk, d: ComicData, given: Option<Path>, root: Path, k: string)
    requires TargetPath(d.path, given) == Success(root)
    requires Placed(d, root) && k in d.volumes
    requires forall f | f in Files(disk) :: !Below(f, Div(root, "volumes"))
    requires Save(disk, d, given).outcome.Pass?
    ensures VolumeStored(Save(disk, d, given).disk, root, k, d.volumes[k])
  {
    var final := Save(disk, d, given).disk;
    var sw := SavedWrites(root, d);
    SaveLeaves(disk, d, given, root);
    SavedAssets(disk, d, given, root, k);
    SavedVolumeDocs(root, d);
    VolumeWritten(root, k, d.volumes[k]);
    forall f | f in Files(disk)
      ensures !Below(f, PagesDir(root, k))
    {
      PagesDirInVolumes(f, root, k);
    }
    EntriesOfWrites(disk, sw, PagesDir(root, k));
    SavedPageEntries(root, d, k);
  }

  /** After a successful save of a placed comic to a root with nothing below
      `<root>/volumes` before, the reader finds every document it needs. */
  lemma SaveStores(disk: Disk, d: ComicData, given: Option<Path>, root: Path)
    requires TargetPath(d.path, given) == Success(root)
    requires Placed(d, root)
    requires forall f | f in Files(disk) :: !Below(f, Div(root, "volumes"))
    requires Save(disk, d, given).outcome.Pass?
    ensures Stored(Save(disk, d, given).disk, root, d)
  {
    var sw := SavedWrites(root, d);
    SaveLeaves(disk, d, given, root);
    SavedComicDoc(root, d);
    EntriesOfWrites(disk, sw, Div(root, "volumes"));
    SavedVolumeEntries(root, d);
    forall k | k in d.volumes
      ensures VolumeStored(Save(disk, d, given).disk, root, k, d.volumes[k])
    {
      SavedVolumeStored(disk, d, given, root, k);
    }
  }

  /** The page as the reader builds it back from `<vp>/pages/<pk>`. */
  function LocatedPage(p: PageData, vp: Path, pk: string): (r: PageData)
    ensures r.title == p.title && r.image == p.image
    ensures r.path == Some(Div(Div(vp, "pages"), pk)) && r.home == Some(vp)
  {
    p.(path := Some(Div(Div(vp, "pages"), pk)), home := Some(vp))
  }

  /** The volume as the reader builds it back from vp: the same title, image
      and order list, located at vp, with its pages located below it. */
  function LocatedVolume(v: VolumeData, vp: Path): (r: VolumeData)
    ensures r.title == v.title && r.image == v.image && r.pageSlugs == v.pageSlugs && r.path == Some(vp)
    ensures r.pages.Keys == v.pages.Keys
    ensures forall pk | pk in r.pages :: r.pages[pk].title == v.pages[pk].title && r.pages[pk].image == v.pages[pk].image
  {
    v.(path := Some(vp), pages := map pk | pk in v.pages :: LocatedPage(v.pages[pk], vp, pk))
  }

  /** The entries of want named in names. */
  function Pick<V>(want: map<string, V>, names: seq<string>): (r: map<string, V>)
    ensures r.Keys == set n | n in names && n in want
    ensures forall n | n in r :: r[n] == want[n]
  {
    map n | n in names && n in want :: want[n]
  }

  /** Loading the page directories names, each holding the document of the
      page want has under that name, adds exactly those pages to the volume
      and leaves its order list alone, when the names are new, listed and
      distinct. */
  lemma {:induction false} LoadPagesFill(disk: Disk, root: Path, acc: VolumeData, dir: Path, names: seq<string>,
                                         want: map<string, PageData>)
    requires NoDup(names)
    requires forall n | n in names :: n in want && n !in acc.pages && n in acc.pageSlugs
    requires forall n | n in names ::
      && LoadPage(disk, root, Div(dir, n)) == Success(want[n].(home := None))
      && Slugify(want[n].title) == n && want[n].home == acc.path
    ensures LoadPages(disk, root, acc, dir, names) == Success(acc.(pages := acc.pages + Pick(want, names)))
    decreases |names|
  {
    if names == [] {
      assert acc.pages + Pick(want, names) == acc.pages;
    } else {
      var n := names[0];
      var next := acc.WithPage(n, want[n]);
      assert LoadPageInto(disk, root, acc, Div(dir, n)) == Success(next);
      assert next == acc.(pages := acc.pages[n := want[n]]);
      NoDupTail(names);
      LoadPagesFill(disk, root, next, dir, names[1..], want);
      PickHead(want, names);
      UpdateUnion(acc.pages, n, want[n], Pick(want, names[1..]));
    }
  }

  lemma PickHead<V>(want: map<string, V>, names: seq<string>)
    requires names != [] && names[0] in want
    ensures Pick(want, names) == Pick(want, names[1..])[names[0] := want[names[0]]]
  {
    assert forall n :: n in names <==> n == names[0] || n in names[1..];
  }

  lemma UpdateUnion<V>(m: map<string, V>, n: string, x: V, p: map<string, V>)
    requires n !in p
    ensures m[n := x] + p == m + p[n := x]
  {
  }

  /** A stored page loads back from its directory. */
  lemma PageLoadsBack(disk: Disk, root: Path, vp: Path, pk: string, p: PageData)
    requires PageStored(disk, root, vp, pk, p)
    ensures LoadPage(disk, root, Div(Div(vp, "pages"), pk)) == Success(LocatedPage(p, vp, pk).(home := None))
  {
    var path := Div(Div(vp, "pages"), pk);
    assert PageConfig(disk, path) == Success(Stringified(PageRecord(p.title, p.image)));
    PageRecordRoundTrip(disk, root, p, path);
  }

  /** The volume as its document reads back at vp, before its pages. */
  function Unloaded(v: VolumeData, vp: Path): (r: VolumeData)
    ensures r.path == Some(vp) && r.pages == map[]
    ensures r.title == v.title && r.image == v.image && r.pageSlugs == v.pageSlugs
  {
    VolumeData(Some(vp), v.title, v.image, v.pageSlugs, map[])
  }

  /** Each entry of a stored placed volume's `pages` directory is the slug
      of one of its pages, and loads back as that page. */
  lemma PagesListedBack(disk: Disk, root: Path, k: string, v: VolumeData, names: seq<string>)
    requires VolumePlaced(v, k, root) && VolumeStored(disk, root, k, v)
    requires (set n | n in names) == Entries(disk, PagesDir(root, k))
    ensures forall n :: n in names <==> n in LocatedVolume(v, VolumeDir(root, k)).pages
    ensures var acc := Unloaded(v, VolumeDir(root, k));
      var want := LocatedVolume(v, VolumeDir(root, k)).pages;
      forall n | n in names ::
        && n in want && n !in acc.pages && n in acc.pageSlugs
        && LoadPage(disk, root, Div(PagesDir(root, k), n)) == Success(want[n].(home := None))
        && Slugify(want[n].title) == n && want[n].home == acc.path
  {
    var vd := VolumeDir(root, k);
    var want := LocatedVolume(v, vd).pages;
    var listed := set n | n in names;
    assert listed == v.pages.Keys == want.Keys;
    forall n
      ensures n in names <==> n in want
    {
      assert n in names <==> n in listed;
    }
    forall n | n in names
      ensures LoadPage(disk, root, Div(PagesDir(root, k), n)) == Success(want[n].(home := None))
    {
      PageLoadsBack(disk, root, vd, n, v.pages[n]);
    }
  }

  /** Reading the pages of a stored placed volume gives its pages back,
      located below it, with its order list as written. */
  lemma PagesReadBack(disk: Disk, root: Path, k: string, v: VolumeData, listing: Listing)
    requires VolumePlaced(v, k, root) && VolumeStored(disk, root, k, v) && Lists(disk, listing)
    ensures PagesRead(disk, root, Unloaded(v, VolumeDir(root, k)), listing) == Success(LocatedVolume(v, VolumeDir(root, k)))
  {
    var vd := VolumeDir(root, k);
    var dir := PagesDir(root, k);
    var acc := Unloaded(v, vd);
    var want := LocatedVolume(v, vd).pages;
    var names := listing(dir);
    assert NoDup(names) && (set n | n in names) == Entries(disk, dir);
    PagesListedBack(disk, root, k, v, names);
    LoadPagesFill(disk, root, acc, dir, names, want);
    PickAll(want, names);
    var loaded := acc.(pages := want);
    assert loaded == LocatedVolume(v, vd);
    assert LoadPages(disk, root, acc, dir, names) == Success(loaded);
    NoneMissing(v.pageSlugs, want.Keys);
    assert Missing(loaded.pageSlugs, loaded.pages.Keys) == [];
  }

  lemma PickAll<V>(want: map<string, V>, names: seq<string>)
    requires forall n :: n in names <==> n in want
    ensures map[] + Pick(want, names) == want
  {
  }

  /** A stored placed volume loads back from its directory. */
  lemma VolumeLoadsBack(disk: Disk, root: Path, k: string, v: VolumeData, listing: Listing)
    requires VolumePlaced(v, k, root) && VolumeStored(disk, root, k, v) && Lists(disk, listing)
    ensures LoadVolume(disk, root, VolumeDir(root, k), listing) == Success(LocatedVolume(v, VolumeDir(root, k)))
  {
    var path := VolumeDir(root, k);
    assert VolumeConfig(disk, path) == Success(Stringified(VolumeRecord(v.title, v.image, v.pageSlugs)));
    VolumeRecordRoundTrip(disk, root, v, path);
    assert VolumeFromRecord(disk, root, Stringified(VolumeRecord(v.title, v.image, v.pageSlugs)), path)
      == Success(Unloaded(v, path));
    PagesReadBack(disk, root, k, v, listing);
  }

  /** Loading the volume directories names, each holding the volume want has
      under that name, adds exactly those volumes to the comic and leaves its
      order list alone, when the names are new, listed and distinct. */
  lemma {:induction false} LoadVolumesFill(disk: Disk, root: Path, acc: ComicData, dir: Path, names: seq<string>,
                                           listing: Listing, want: map<string, VolumeData>)
    requires NoDup(names)
    requires forall n | n in names :: n in want && n !in acc.volumes && n in acc.volumeSlugs
    requires forall n | n in names ::
      LoadVolume(disk, root, Div(dir, n), listing) == Success(want[n]) && Slugify(want[n].title) == n
    ensures LoadVolumes(disk, root, acc, dir, names, listing) == Success(acc.(volumes := acc.volumes + Pick(want, names)))
    decreases |names|
  {
    if names == [] {
      assert acc.volumes + Pick(want, names) == acc.volumes;
    } else {
      var n := names[0];
      var next := acc.WithVolume(n, want[n]);
      assert LoadVolumeInto(disk, root, acc, Div(dir, n), listing) == Success(next);
      assert next == acc.(volumes := acc.volumes[n := want[n]]);
      NoDupTail(names);
      LoadVolumesFill(disk, root, next, dir, names[1..], listing, want);
      PickHead(want, names);
      UpdateUnion(acc.volumes, n, want[n], Pick(want, names[1..]));
    }
  }

  /** The comic as the reader builds it back from root: the same name,
      placeholder and order list, located at root, with each volume located
      at `<root>/volumes/<slug>`. */
  function Located(d: ComicData, root: Path): (r: ComicData)
    ensures r.path == Some(root) && r.name == d.name && r.placeholder == d.placeholder
    ensures r.volumeSlugs == d.volumeSlugs && r.volumes.Keys == d.volumes.Keys
  {
    d.(path := Some(root), volumes := map k | k in d.volumes :: LocatedVolume(d.volumes[k], VolumeDir(root, k)))
  }

  /** The comic as its document reads back at root, before its volumes. */
  function UnloadedComic(d: ComicData, root: Path): (r: ComicData)
    ensures r.path == Some(root) && r.volumes == map[]
    ensures r.name == d.name && r.placeholder == d.placeholder && r.volumeSlugs == d.volumeSlugs
  {
    ComicData(Some(root), d.name, d.placeholder, d.volumeSlugs, map[])
  }

  /** Each entry of a stored placed comic's `volumes` directory is the slug
      of one of its volumes, and loads back as that volume. */
  lemma VolumesListedBack(disk: Disk, root: Path, d: ComicData, names: seq<string>, listing: Listing)
    requires Placed(d, root) && Stored(disk, root, d) && Lists(disk, listing)
    requires (set n | n in names) == Entries(disk, Div(root, "volumes"))
    ensures forall n :: n in names <==> n in Located(d, root).volumes
    ensures var acc := UnloadedComic(d, root);
      var want := Located(d, root).volumes;
      forall n | n in names ::
        && n in want && n !in acc.volumes && n in acc.volumeSlugs
        && LoadVolume(disk, root, Div(Div(root, "volumes"), n), listing) == Success(want[n])
        && Slugify(want[n].title) == n
  {
    var want := Located(d, root).volumes;
    var listed := set n | n in names;
    assert listed == d.volumes.Keys == want.Keys;
    forall n
      ensures n in names <==> n in want
    {
      assert n in names <==> n in listed;
    }
    forall n | n in names
      ensures n in want && LoadVolume(disk, root, Div(Div(root, "volumes"), n), listing) == Success(want[n])
      ensures Slugify(want[n].title) == n
    {
      VolumeListedBack(disk, root, d, n, listing);
    }
  }

  /** One listed volume of a stored placed comic reads back, located. */
  lemma VolumeListedBack(disk: Disk, root: Path, d: ComicData, k: string, listing: Listing)
    requires Placed(d, root) && Stored(disk, root, d) && Lists(disk, listing) && k in d.volumes
    ensures var want := Located(d, root).volumes;
      && k in want
      && LoadVolume(disk, root, Div(Div(root, "volumes"), k), listing) == Success(want[k])
      && Slugify(want[k].title) == k
  {
    var v := d.volumes[k];
    assert VolumePlaced(v, k, root) && VolumeStored(disk, root, k, v);
    VolumeLoadsBack(disk, root, k, v, listing);
    assert Located(d, root).volumes[k] == LocatedVolume(v, VolumeDir(root, k));
  }

  /** Reading a stored placed comic from root gives it back, located at root. */
  lemma LoadBack(disk: Disk, root: Path, d: ComicData, listing: Listing)
    requires Placed(d, root) && Stored(disk, root, d) && Lists(disk, listing)
    ensures LoadComic(disk, root, listing) == Success(Located(d, root))
  {
    var rec := Stringified(ComicRecord(d.name, d.placeholder, d.volumeSlugs));
    assert ComicConfig(disk, root) == Success(rec);
    ComicRecordRoundTrip(disk, root, d);
    var acc := UnloadedComic(d, root);
    assert ComicFromRecord(disk, root, rec) == Success(acc);
    var dir := Div(root, "volumes");
    var want := Located(d, root).volumes;
    var names := listing(dir);
    assert NoDup(names) && (set n | n in names) == Entries(disk, dir);
    VolumesListedBack(disk, root, d, names, listing);
    LoadVolumesFill(disk, root, acc, dir, names, listing, want);
    PickAll(want, names);
    assert acc.(volumes := want) == Located(d, root);
  }

  /** `write_comic` followed by `read_comic` on the same root gives the comic
      back, order lists, titles and images included, once every entity is
      stored under its slug at the path the reader derives from it and
      nothing was below `<root>/volumes` before. */
  lemma WriteThenRead(disk: Disk, d: ComicData, given: Option<Path>, root: Path, listing: Listing)
    requires TargetPath(d.path, given) == Success(root)
    requires Placed(d, root)
    requires forall f | f in Files(disk) :: !Below(f, Div(root, "volumes"))
    requires Save(disk, d, given).outcome.Pass?
    requires Lists(Save(disk, d, given).disk, listing)
    ensures LoadComic(Save(disk, d, given).disk, root, listing) == Success(Located(d, root))
    ensures var r := LoadComic(Save(disk, d, given).disk, root, listing).value;
      && r.name == d.name && r.placeholder == d.placeholder
      && r.volumeSlugs == d.volumeSlugs && r.volumes.Keys == d.volumes.Keys
      && forall k | k in d.volumes ::
        && r.volumes[k].title == d.volumes[k].title && r.volumes[k].image == d.volumes[k].image
        && r.volumes[k].pageSlugs == d.volumes[k].pageSlugs && r.volumes[k].pages.Keys == d.volumes[k].pages.Keys
        && forall pk | pk in d.volumes[k].pages ::
          r.volumes[k].pages[pk].title == d.volumes[k].pages[pk].title
          && r.volumes[k].pages[pk].image == d.volumes[k].pages[pk].image
  {
    SaveStores(disk, d, given, root);
    LoadBack(Save(disk, d, given).disk, root, d, listing);
    var r := Located(d, root);
    forall k | k in d.volumes
      ensures r.volumes[k] == LocatedVolume(d.volumes[k], VolumeDir(root, k))
    {
    }
  }

  /** Every step of the plan writes, and its asset is a file on the disk. */
  predicate Feasible(steps: seq<Step>, disk: Disk) {
    forall s | s in steps :: s.Write? && IsFile(disk, s.asset)
  }

  /** A plan whose every step writes with its asset present runs to the end:
      a write never removes a file. */
  lemma {:induction false} RunPasses(disk: Disk, steps: seq<Step>)
    requires Feasible(steps, disk)
    ensures Run(disk, steps).outcome.Pass?
    decreases |steps|
  {
    if steps != [] {
      assert steps[0] in steps;
      var next := Put(disk, steps[0].target, Stringified(steps[0].record));
      assert forall s | s in steps[1..] :: s in steps;
      RunPasses(next, steps[1..]);
    }
  }

  /** The images a placed comic's save validates, all present. */
  ghost predicate ImagesPresent(disk: Disk, root: Path, d: ComicData) {
    && AssetIsFile(disk, root, d.placeholder)
    && forall k | k in d.volumes ::
      && AssetIsFile(disk, root, d.volumes[k].image)
      && forall pk | pk in d.volumes[k].pages :: AssetIsFile(disk, root, d.volumes[k].pages[pk].image)
  }

  lemma {:induction false} PagesFeasible(disk: Disk, root: Path, k: string, order: seq<string>, pages: map<string, PageData>)
    requires forall pk | pk in order ::
      pk in pages && PagePlaced(pages[pk], pk, VolumeDir(root, k)) && AssetIsFile(disk, root, pages[pk].image)
    ensures Feasible(PagesSteps(Some(root), order, pages), disk)
    decreases |order|
  {
    if order != [] {
      PageStepsOf(root, k, order, pages);
      assert forall pk | pk in order[1..] :: pk in order;
      PagesFeasible(disk, root, k, order[1..], pages);
    }
  }

  lemma VolumeFeasible(disk: Disk, root: Path, k: string, v: VolumeData)
    requires VolumePlaced(v, k, root) && AssetIsFile(disk, root, v.image)
    requires forall pk | pk in v.pages :: AssetIsFile(disk, root, v.pages[pk].image)
    ensures Feasible(VolumeSteps(Some(root), root, v), disk)
  {
    VolumeStepsOf(root, k, v);
    PagesFeasible(disk, root, k, v.pageSlugs, v.pages);
  }

  lemma {:induction false} VolumesFeasible(disk: Disk, root: Path, order: seq<string>, vs: map<string, VolumeData>)
    requires forall k | k in order :: k in vs && Feasible(VolumeSteps(Some(root), root, vs[k]), disk)
    ensures Feasible(VolumesSteps(Some(root), root, order, vs), disk)
    decreases |order|
  {
    if order != [] {
      assert forall k | k in order[1..] :: k in order;
      VolumesFeasible(disk, root, order[1..], vs);
    }
  }

  /** A save of a placed comic to a settled target succeeds when every image
      it validates is present. */
  lemma SaveSucceeds(disk: Disk, d: ComicData, given: Option<Path>, root: Path)
    requires TargetPath(d.path, given) == Success(root)
    requires Placed(d, root) && ImagesPresent(disk, root, d)
    ensures Save(disk, d, given).outcome.Pass?
  {
    var steps := ComicSteps(d.(path := Some(root)), root);
    forall k | k in d.volumeSlugs
      ensures k in d.volumes && Feasible(VolumeSteps(Some(root), root, d.volumes[k]), disk)
    {
      VolumeFeasible(disk, root, k, d.volumes[k]);
    }
    VolumesFeasible(disk, root, d.volumeSlugs, d.volumes);
    assert steps == [ComicWrite(root, d)] + VolumesSteps(Some(root), root, d.volumeSlugs, d.volumes);
    RunPasses(disk, steps);
  }
}

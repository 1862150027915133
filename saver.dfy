/** The write side of scuzzie/comic.py: `write_comic` turns the resource graph
    into documents. What it writes is specified as a plan, a sequence of
    steps computed from the snapshots, and `Run` executes a plan on a disk;
    each writer method is proved to do what `Run` does with its part of the
    plan. */
module Saver {
  import opened Wrappers
  import opened Paths
  import opened Slugs
  import opened Errors
  import opened Registry
  import opened Store
  import opened Resources
  import opened Documents

  /** One step of a write: build a schema, whose validator requires the
      asset file at `asset`, and write its document to `target`; or raise. */
  datatype Step = Write(asset: Path, target: Path, record: Record) | Raise(error: Error)

  /** The disk after a run, and how the run ended. */
  datatype Ran = Ran(disk: Disk, outcome: Outcome<Error>)

  /** Executes steps in order, stopping at the first one that raises. */
  function Run(disk: Disk, steps: seq<Step>): (r: Ran)
    decreases |steps|
  {
    if steps == [] then Ran(disk, Pass)
    else match steps[0]
      case Raise(e) => Ran(disk, Fail(e))
      case Write(asset, target, record) =>
        if !IsFile(disk, asset) then Ran(disk, Fail(ValidationError(asset)))
        else Run(Put(disk, target, Stringified(record)), steps[1..])
  }

  /** Running two plans one after the other is running their concatenation. */
  lemma {:induction false} RunAppend(disk: Disk, a: seq<Step>, b: seq<Step>)
    ensures Run(disk, a + b) ==
      var first := Run(disk, a);
      if first.outcome.Fail? then first else Run(first.disk, b)
    decreases |a|
  {
    if a == [] {
      assert a + b == b;
    } else {
      assert (a + b)[0] == a[0];
      assert (a + b)[1..] == a[1..] + b;
      if a[0].Write? && IsFile(disk, a[0].asset) {
        RunAppend(Put(disk, a[0].target, Stringified(a[0].record)), a[1..], b);
      }
    }
  }

  /** The paths a plan writes to, in order. */
  function Targets(steps: seq<Step>): (r: seq<Path>)
    ensures |r| <= |steps|
  {
    if steps == [] then []
    else (if steps[0].Write? then [steps[0].target] else []) + Targets(steps[1..])
  }

  /** A run changes the disk only at the targets of its plan, and removes no
      file. */
  lemma {:induction false} RunChangesOnlyTargets(disk: Disk, steps: seq<Step>, q: Path)
    ensures Files(disk) <= Files(Run(disk, steps).disk)
    ensures q !in Targets(steps) ==>
      && (q in Run(disk, steps).disk.docs <==> q in disk.docs)
      && (q in disk.docs ==> Run(disk, steps).disk.docs[q] == disk.docs[q])
      && (q in Run(disk, steps).disk.blobs <==> q in disk.blobs)
    decreases |steps|
  {
    if steps != [] && steps[0].Write? && IsFile(disk, steps[0].asset) {
      RunChangesOnlyTargets(Put(disk, steps[0].target, Stringified(steps[0].record)), steps[1..], q);
    }
  }

  /** `_write_comic_config`: the comic document at `<path>/comic.toml`, its
      placeholder validated against the comic's own path. */
  function ComicConfigSteps(comicPath: Option<Path>, path: Path, name: string, placeholder: Path, volumeSlugs: seq<string>): seq<Step> {
    if comicPath.None? then [Raise(ScuzzieError(VirtualComic))]
    else [Write(AssetLocation(comicPath.value, placeholder), Div(path, "comic.toml"),
                ComicRecord(name, placeholder, volumeSlugs))]
  }

  /** `_write_volume_config`: the volume document at
      `<path>/volumes/<slug>/volume.toml`. */
  function VolumeConfigSteps(comicPath: Option<Path>, path: Path, v: VolumeData): seq<Step> {
    if comicPath.None? then [Raise(ScuzzieError(VirtualComic))]
    else [Write(AssetLocation(comicPath.value, v.image), VolumeTarget(path, Slugify(v.title)),
                VolumeRecord(v.title, v.image, v.pageSlugs))]
  }

  function VolumeTarget(path: Path, slug: string): Path {
    Div(Div(Div(path, "volumes"), slug), "volume.toml")
  }

  function PageTarget(volumePath: Path, slug: string): Path {
    Div(Div(Div(volumePath, "pages"), slug), "page.toml")
  }

  /** `_write_page`: the page document at `<its volume's path>/pages/<slug>/page.toml`;
      a page whose volume has no path cannot be written. */
  function PageSteps(comicPath: Option<Path>, p: PageData): seq<Step> {
    if comicPath.None? then [Raise(ScuzzieError(VirtualComic))]
    else if p.home.None? then [Raise(ConfigError(VolumeFile, NoVolumePath))]
    else [Write(AssetLocation(comicPath.value, p.image), PageTarget(p.home.value, Slugify(p.title)),
                PageRecord(p.title, p.image))]
  }

  /** What the slug `each_page` reaches contributes: its page, or the
      KeyError the dictionary lookup raises. */
  function PageStepsAt(comicPath: Option<Path>, slug: string, pages: map<string, PageData>): seq<Step> {
    if slug in pages then PageSteps(comicPath, pages[slug]) else [Raise(KeyError(slug))]
  }

  /** The pages `each_page` yields, written one by one; the first listed slug
      without a page raises when the generator reaches it. */
  function PagesSteps(comicPath: Option<Path>, order: seq<string>, pages: map<string, PageData>): seq<Step>
    decreases |order|
  {
    if order == [] then []
    else PageStepsAt(comicPath, order[0], pages) + PagesSteps(comicPath, order[1..], pages)
  }

  /** Running the pages from the i-th slug on: that slug's steps, then, unless
      they raised, the rest. */
  lemma PagesStepsRun(disk: Disk, comicPath: Option<Path>, order: seq<string>, i: nat, pages: map<string, PageData>)
    requires i < |order|
    ensures Run(disk, PagesSteps(comicPath, order[i..], pages)) ==
      var first := Run(disk, PageStepsAt(comicPath, order[i], pages));
      if first.outcome.Fail? then first else Run(first.disk, PagesSteps(comicPath, order[i + 1..], pages))
  {
    assert order[i..][1..] == order[i + 1..];
    RunAppend(disk, PageStepsAt(comicPath, order[i], pages), PagesSteps(comicPath, order[i + 1..], pages));
  }

  /** `_write_volume`: its document, then its pages. */
  function VolumeSteps(comicPath: Option<Path>, path: Path, v: VolumeData): seq<Step> {
    VolumeConfigSteps(comicPath, path, v) + PagesSteps(comicPath, v.pageSlugs, v.pages)
  }

  /** What the slug `each_volume` reaches contributes. */
  function VolumeStepsAt(comicPath: Option<Path>, path: Path, slug: string, volumes: map<string, VolumeData>): seq<Step> {
    if slug in volumes then VolumeSteps(comicPath, path, volumes[slug]) else [Raise(KeyError(slug))]
  }

  /** `_write_volumes`: the volumes `each_volume` yields, written one by one. */
  function VolumesSteps(comicPath: Option<Path>, path: Path, order: seq<string>, volumes: map<string, VolumeData>): seq<Step>
    decreases |order|
  {
    if order == [] then []
    else VolumeStepsAt(comicPath, path, order[0], volumes) + VolumesSteps(comicPath, path, order[1..], volumes)
  }

  lemma VolumesStepsRun(disk: Disk, comicPath: Option<Path>, path: Path, order: seq<string>, i: nat, volumes: map<string, VolumeData>)
    requires i < |order|
    ensures Run(disk, VolumesSteps(comicPath, path, order[i..], volumes)) ==
      var first := Run(disk, VolumeStepsAt(comicPath, path, order[i], volumes));
      if first.outcome.Fail? then first else Run(first.disk, VolumesSteps(comicPath, path, order[i + 1..], volumes))
  {
    assert order[i..][1..] == order[i + 1..];
    RunAppend(disk, VolumeStepsAt(comicPath, path, order[i], volumes), VolumesSteps(comicPath, path, order[i + 1..], volumes));
  }

  /** A volume whose first listed page has no volume path to go under (the
      case of every page of a volume made by `create_volume`) is not saved:
      its document is written, then writing the page raises. */
  lemma PageWithoutVolumePathFails(disk: Disk, comicPath: Path, path: Path, v: VolumeData)
    requires v.pageSlugs != [] && v.pageSlugs[0] in v.pages && v.pages[v.pageSlugs[0]].home.None?
    requires IsFile(disk, AssetLocation(comicPath, v.image))
    ensures Run(disk, VolumeSteps(Some(comicPath), path, v)) ==
      Ran(Put(disk, VolumeTarget(path, Slugify(v.title)), Stringified(VolumeRecord(v.title, v.image, v.pageSlugs))),
          Fail(ConfigError(VolumeFile, NoVolumePath)))
  {
    var config := VolumeConfigSteps(Some(comicPath), path, v);
    RunAppend(disk, config, PagesSteps(Some(comicPath), v.pageSlugs, v.pages));
    var first := Run(disk, config);
    assert v.pageSlugs[0..] == v.pageSlugs;
    PagesStepsRun(first.disk, Some(comicPath), v.pageSlugs, 0, v.pages);
  }

  /** Everything `write_comic` writes once the comic has its path. */
  function ComicSteps(c: ComicData, path: Path): seq<Step> {
    ComicConfigSteps(c.path, path, c.name, c.placeholder, c.volumeSlugs)
    + VolumesSteps(c.path, path, c.volumeSlugs, c.volumes)
  }

  /** The target `_ensure_comic_has_path` settles on: exactly one of the
      comic's path and the given path must be set. */
  function TargetPath(current: Option<Path>, given: Option<Path>): (r: Result<Path, Error>)
    ensures r.Success? <==> current.Some? != given.Some?
    ensures r.Success? ==> r.value == if current.Some? then current.value else given.value
    ensures r.Failure? ==> r.error == ScuzzieError(AmbiguousTarget)
  {
    if current.Some? && given.None? then Success(current.value)
    else if current.None? && given.Some? then Success(given.value)
    else Failure(ScuzzieError(AmbiguousTarget))
  }

  /** `write_comic` on a snapshot: settle the target, then run the plan for
      the comic as it is once its path is set. */
  function Save(disk: Disk, c: ComicData, given: Option<Path>): Ran {
    match TargetPath(c.path, given)
    case Failure(e) => Ran(disk, Fail(e))
    case Success(path) => Run(disk, ComicSteps(c.(path := Some(path)), path))
  }

  /** `_ensure_comic_has_path`. */
  method EnsureComicHasPath(comic: Comic, path: Option<Path>) returns (r: Result<Path, Error>)
    modifies comic`path
    ensures r == TargetPath(old(comic.path), path)
    ensures comic.path == if r.Success? then Some(r.value) else old(comic.path)
  {
    if comic.path.Some? && path.None? {
      return Success(comic.path.value);
    }
    if path.Some? && comic.path.None? {
      comic.path := path;
      return Success(path.value);
    }
    return Failure(ScuzzieError(AmbiguousTarget));
  }

  /** `_write_comic_config`. */
  method WriteComicConfig(comic: Comic, path: Path, disk: Disk) returns (r: Outcome<Error>, written: Disk)
    ensures Ran(written, r) == Run(disk, ComicConfigSteps(comic.path, path, comic.name, comic.placeholder, comic.volumeSlugs))
  {
    if comic.path.None? {
      return Fail(ScuzzieError(VirtualComic)), disk;
    }
    var location := AssetLocation(comic.path.value, comic.placeholder);
    if !IsFile(disk, location) {
      return Fail(ValidationError(location)), disk;
    }
    var config := ComicRecord(comic.name, comic.placeholder, comic.volumeSlugs);
    written := TryWriteToml(disk, Div(path, "comic.toml"), config);
    r := Pass;
  }

  /** `_write_volume_config`. */
  method WriteVolumeConfig(volume: Volume, comic: Comic, path: Path, disk: Disk) returns (r: Outcome<Error>, written: Disk)
    ensures Ran(written, r) == Run(disk, VolumeConfigSteps(comic.path, path, volume.Data()))
  {
    if comic.path.None? {
      return Fail(ScuzzieError(VirtualComic)), disk;
    }
    var location := AssetLocation(comic.path.value, volume.image);
    if !IsFile(disk, location) {
      return Fail(ValidationError(location)), disk;
    }
    var config := VolumeRecord(volume.title, volume.image, volume.pageSlugs);
    written := TryWriteToml(disk, VolumeTarget(path, volume.slug), config);
    r := Pass;
  }

  /** `_write_page`. */
  method WritePage(page: Page, comic: Comic, disk: Disk) returns (r: Outcome<Error>, written: Disk)
    ensures Ran(written, r) == Run(disk, PageSteps(comic.path, page.Data()))
  {
    if comic.path.None? {
      return Fail(ScuzzieError(VirtualComic)), disk;
    }
    if page.volume == null || page.volume.path.None? {
      return Fail(ConfigError(VolumeFile, NoVolumePath)), disk;
    }
    var location := AssetLocation(comic.path.value, page.image);
    if !IsFile(disk, location) {
      return Fail(ValidationError(location)), disk;
    }
    var config := PageRecord(page.title, page.image);
    written := TryWriteToml(disk, PageTarget(page.volume.path.value, page.slug), config);
    r := Pass;
  }

  /** One turn of the loop in `_write_volume`: the page `each_page` yields
      for slug, written. */
  method WriteListedPage(volume: Volume, comic: Comic, slug: string, ghost pages: map<string, PageData>, disk: Disk)
    returns (r: Outcome<Error>, written: Disk)
    requires pages == Volume.PagesData(volume.pages)
    ensures Ran(written, r) == Run(disk, PageStepsAt(comic.path, slug, pages))
  {
    if slug !in volume.pages {
      return Fail(KeyError(slug)), disk;
    }
    r, written := WritePage(volume.pages[slug], comic, disk);
  }

  /** `_write_volume`: its document, then `each_page` consumed lazily. */
  method WriteVolume(volume: Volume, comic: Comic, path: Path, disk: Disk) returns (r: Outcome<Error>, written: Disk)
    ensures Ran(written, r) == Run(disk, VolumeSteps(comic.path, path, volume.Data()))
  {
    ghost var v := volume.Data();
    RunAppend(disk, VolumeConfigSteps(comic.path, path, v), PagesSteps(comic.path, v.pageSlugs, v.pages));
    r, written := WriteVolumeConfig(volume, comic, path, disk);
    if r.Fail? {
      return;
    }
    var i := 0;
    volume.DataFramed();
    while i < |volume.pageSlugs|
      invariant 0 <= i <= |volume.pageSlugs| && r == Pass
      invariant unchanged(comic, volume) && unchanged(volume.pages.Values) && volume.Data() == v
      invariant Run(disk, VolumeSteps(comic.path, path, v)) ==
        Run(written, PagesSteps(comic.path, v.pageSlugs[i..], v.pages))
    {
      PagesStepsRun(written, comic.path, v.pageSlugs, i, v.pages);
      r, written := WriteListedPage(volume, comic, volume.pageSlugs[i], v.pages, written);
      volume.DataFramed();
      if r.Fail? {
        return;
      }
      i := i + 1;
    }
    assert v.pageSlugs[i..] == [];
  }

  /** One turn of the loop in `_write_volumes`. */
  method WriteListedVolume(comic: Comic, path: Path, slug: string, ghost volumes: map<string, VolumeData>, disk: Disk)
    returns (r: Outcome<Error>, written: Disk)
    requires volumes == Comic.VolumesData(comic.volumes)
    ensures Ran(written, r) == Run(disk, VolumeStepsAt(comic.path, path, slug, volumes))
  {
    if slug !in comic.volumes {
      return Fail(KeyError(slug)), disk;
    }
    r, written := WriteVolume(comic.volumes[slug], comic, path, disk);
  }

  /** `_write_volumes`: `each_volume` consumed lazily. */
  method WriteVolumes(comic: Comic, path: Path, disk: Disk) returns (r: Outcome<Error>, written: Disk)
    ensures Ran(written, r) == Run(disk, VolumesSteps(comic.path, path, comic.volumeSlugs, comic.Data().volumes))
  {
    ghost var vs := comic.Data().volumes;
    r, written := Pass, disk;
    var i := 0;
    while i < |comic.volumeSlugs|
      invariant 0 <= i <= |comic.volumeSlugs| && r == Pass
      invariant unchanged(comic) && unchanged(comic.volumes.Values) && unchanged(Comic.PageObjects(comic.volumes))
      invariant Comic.VolumesData(comic.volumes) == vs
      invariant Run(disk, VolumesSteps(comic.path, path, comic.volumeSlugs, vs)) ==
        Run(written, VolumesSteps(comic.path, path, comic.volumeSlugs[i..], vs))
    {
      VolumesStepsRun(written, comic.path, path, comic.volumeSlugs, i, vs);
      r, written := WriteListedVolume(comic, path, comic.volumeSlugs[i], vs, written);
      Comic.VolumesDataFramed(comic.volumes);
      if r.Fail? {
        return;
      }
      i := i + 1;
    }
    assert comic.volumeSlugs[i..] == [];
  }

  /** `write_comic` once the comic has its path: the comic document, then
      the volumes. */
  method WriteSettled(comic: Comic, path: Path, disk: Disk) returns (r: Outcome<Error>, written: Disk)
    ensures Ran(written, r) == Run(disk, ComicSteps(comic.Data(), path))
  {
    ghost var c := comic.Data();
    RunAppend(disk, ComicConfigSteps(c.path, path, c.name, c.placeholder, c.volumeSlugs),
      VolumesSteps(c.path, path, c.volumeSlugs, c.volumes));
    r, written := WriteComicConfig(comic, path, disk);
    if r.Fail? {
      return;
    }
    Comic.VolumesDataFramed(comic.volumes);
    r, written := WriteVolumes(comic, path, written);
  }

  /** `write_comic`: settle the target path (setting the comic's path when
      it had none), write the comic document, then the volumes. */
  method WriteComic(comic: Comic, path: Option<Path>, disk: Disk) returns (r: Outcome<Error>, written: Disk)
    modifies comic`path
    ensures Ran(written, r) == Save(disk, old(comic.Data()), path)
    ensures comic.path == if TargetPath(old(comic.path), path).Success? then Some(TargetPath(old(comic.path), path).value) else old(comic.path)
  {
    ghost var c := comic.Data();
    var target := EnsureComicHasPath(comic, path);
    if target.Failure? {
      return Fail(target.error), disk;
    }
    ghost var settled := c.(path := Some(target.value));
    assert comic.Data() == settled;
    label settled:
    r, written := WriteSettled(comic, target.value, disk);
    Comic.VolumesDataFramed@settled(comic.volumes);
    assert Ran(written, r) == Run(disk, ComicSteps(settled, target.value));
  }
}

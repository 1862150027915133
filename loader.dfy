/** The read side of scuzzie/comic.py: `read_comic` walks the comic's directory
    tree and builds the resource graph. Each step is specified by a function on
    snapshots (`LoadComic`, `VolumesRead`, `PagesRead`) and implemented by a
    method that builds the objects and is proved to agree with it. */
module Loader {
  import opened Wrappers
  import opened Paths
  import opened Slugs
  import opened Errors
  import opened Registry
  import opened Store
  import opened Resources
  import opened Documents

  /** `_read_comic_config`, `_read_volume_config`, `_read_page_config`. */
  function ComicConfig(disk: Disk, path: Path): (r: Result<Record, Error>)
    ensures r.Failure? && !IsFile(disk, Div(path, "comic.toml")) && !Blocked(disk, Div(path, "comic.toml")) ==>
      r.error == ConfigError(ComicFile, NotFound(Div(path, "comic.toml")))
  {
    TryReadToml(disk, Div(path, "comic.toml"), ComicFile)
  }

  function VolumeConfig(disk: Disk, path: Path): (r: Result<Record, Error>)
    ensures r.Failure? && !IsFile(disk, Div(path, "volume.toml")) && !Blocked(disk, Div(path, "volume.toml")) ==>
      r.error == ConfigError(VolumeFile, NotFound(Div(path, "volume.toml")))
  {
    TryReadToml(disk, Div(path, "volume.toml"), VolumeFile)
  }

  function PageConfig(disk: Disk, path: Path): (r: Result<Record, Error>)
    ensures r.Failure? && !IsFile(disk, Div(path, "page.toml")) && !Blocked(disk, Div(path, "page.toml")) ==>
      r.error == ConfigError(PageFile, NotFound(Div(path, "page.toml")))
  {
    TryReadToml(disk, Div(path, "page.toml"), PageFile)
  }

  /** One page directory of `_read_pages`: its document, then its schema. */
  function LoadPage(disk: Disk, comicPath: Path, path: Path): (r: Result<PageData, Error>)
    ensures r.Success? ==> r.value.path == Some(path) && r.value.home == None
  {
    var rec :- PageConfig(disk, path);
    PageFromRecord(disk, comicPath, rec, path)
  }

  /** `Volume.add_page` on snapshots: a new slug stores the page, pointing back
      to the volume; a known slug fails. */
  function AddPageData(v: VolumeData, p: PageData): (r: Result<VolumeData, Error>)
    ensures r.Failure? <==> Slugify(p.title) in v.pages
    ensures r.Failure? ==> r.error == ScuzzieError(AlreadyExists(Slugify(p.title)))
    ensures r.Success? ==> r.value == v.WithPage(Slugify(p.title), p.(home := v.path))
  {
    var slug := Slugify(p.title);
    if slug in v.pages then Failure(ScuzzieError(AlreadyExists(slug)))
    else Success(v.WithPage(slug, p.(home := v.path)))
  }

  /** One iteration of the loop of `_read_pages`. */
  function LoadPageInto(disk: Disk, comicPath: Path, v: VolumeData, path: Path): (r: Result<VolumeData, Error>)
  {
    var p :- LoadPage(disk, comicPath, path);
    AddPageData(v, p)
  }

  /** The loop of `_read_pages` over the entries of dir, in listing order. */
  function LoadPages(disk: Disk, comicPath: Path, v: VolumeData, dir: Path, names: seq<string>): (r: Result<VolumeData, Error>)
    decreases |names|
  {
    if names == [] then Success(v)
    else
      var v' :- LoadPageInto(disk, comicPath, v, Div(dir, names[0]));
      LoadPages(disk, comicPath, v', dir, names[1..])
  }

  /** `_read_pages`: load every page directory below `<volume>/pages`, then
      reject the volume if it lists a slug that no page was loaded for. */
  function PagesRead(disk: Disk, comicPath: Path, v: VolumeData, listing: Listing): (r: Result<VolumeData, Error>)
  {
    if v.path.None? then Failure(ScuzzieError(VirtualVolume))
    else
      var dir := Div(v.path.value, "pages");
      var loaded :- LoadPages(disk, comicPath, v, dir, listing(dir));
      var missing := Missing(loaded.pageSlugs, loaded.pages.Keys);
      if missing != [] then Failure(ConfigError(VolumeFile, MissingPages(loaded.title, missing)))
      else Success(loaded)
  }

  /** One volume directory of `_read_volumes`: its document, its schema, its pages. */
  function LoadVolume(disk: Disk, comicPath: Path, path: Path, listing: Listing): (r: Result<VolumeData, Error>)
  {
    var rec :- VolumeConfig(disk, path);
    var v :- VolumeFromRecord(disk, comicPath, rec, path);
    PagesRead(disk, comicPath, v, listing)
  }

  /** `Comic.add_volume` on snapshots. */
  function AddVolumeData(c: ComicData, v: VolumeData): (r: Result<ComicData, Error>)
    ensures r.Failure? <==> Slugify(v.title) in c.volumes
    ensures r.Failure? ==> r.error == ScuzzieError(AlreadyExists(Slugify(v.title)))
    ensures r.Success? ==> r.value == c.WithVolume(Slugify(v.title), v)
  {
    var slug := Slugify(v.title);
    if slug in c.volumes then Failure(ScuzzieError(AlreadyExists(slug)))
    else Success(c.WithVolume(slug, v))
  }

  /** One iteration of the loop of `_read_volumes`. */
  function LoadVolumeInto(disk: Disk, comicPath: Path, c: ComicData, path: Path, listing: Listing): (r: Result<ComicData, Error>)
  {
    var v :- LoadVolume(disk, comicPath, path, listing);
    AddVolumeData(c, v)
  }

  /** The loop of `_read_volumes` over the entries of dir, in listing order. */
  function LoadVolumes(disk: Disk, comicPath: Path, c: ComicData, dir: Path, names: seq<string>, listing: Listing): (r: Result<ComicData, Error>)
    decreases |names|
  {
    if names == [] then Success(c)
    else
      var c' :- LoadVolumeInto(disk, comicPath, c, Div(dir, names[0]), listing);
      LoadVolumes(disk, comicPath, c', dir, names[1..], listing)
  }

  /** `_read_volumes`: load every volume directory below `<comic>/volumes`. */
  function VolumesRead(disk: Disk, comicPath: Path, c: ComicData, listing: Listing): (r: Result<ComicData, Error>)
  {
    if c.path.None? then Failure(ScuzzieError(VirtualComic))
    else
      var dir := Div(c.path.value, "volumes");
      LoadVolumes(disk, comicPath, c, dir, listing(dir), listing)
  }

  /** `read_comic`: the comic document at root, then its volumes. Its guard
      against a virtual comic never fires: the comic is built with path root. */
  function LoadComic(disk: Disk, root: Path, listing: Listing): (r: Result<ComicData, Error>)
  {
    var rec :- ComicConfig(disk, root);
    var c :- ComicFromRecord(disk, root, rec);
    VolumesRead(disk, root, c, listing)
  }

  /** The body of the loop of `_read_pages`: a Page from the directory's
      document, added to the volume. */
  method ReadPage(disk: Disk, comicPath: Path, into: Volume, path: Path) returns (r: Outcome<Error>)
    requires into.Valid()
    modifies into
    ensures into.Valid()
    ensures r.Fail? ==> LoadPageInto(disk, comicPath, old(into.Data()), path) == Failure(r.error)
    ensures r.Pass? ==> LoadPageInto(disk, comicPath, old(into.Data()), path) == Success(into.Data())
  {
    var config := PageConfig(disk, path);
    if config.Failure? {
      return Fail(config.error);
    }
    var data := PageFromRecord(disk, comicPath, config.value, path);
    if data.Failure? {
      return Fail(data.error);
    }
    var page := new Page(Some(path), data.value.title, data.value.image);
    r := into.AddPage(page);
  }

  /** `_read_pages`, building Page objects and adding them to the volume. */
  method ReadPages(disk: Disk, comicPath: Path, into: Volume, listing: Listing) returns (r: Outcome<Error>)
    requires into.Valid()
    modifies into
    ensures into.Valid()
    ensures r.Pass? <==> PagesRead(disk, comicPath, old(into.Data()), listing).Success?
    ensures r.Fail? ==> PagesRead(disk, comicPath, old(into.Data()), listing) == Failure(r.error)
    ensures r.Pass? ==> PagesRead(disk, comicPath, old(into.Data()), listing) == Success(into.Data())
  {
    if into.path.None? {
      return Fail(ScuzzieError(VirtualVolume));
    }
    ghost var start := into.Data();
    var dir := Div(into.path.value, "pages");
    var names := listing(dir);
    var i := 0;
    while i < |names|
      invariant 0 <= i <= |names|
      invariant into.Valid()
      invariant into.Data().path == into.path && into.Data().title == into.title
      invariant LoadPages(disk, comicPath, into.Data(), dir, names[i..]) == LoadPages(disk, comicPath, start, dir, names)
    {
      var added := ReadPage(disk, comicPath, into, Div(dir, names[i]));
      if added.Fail? {
        return Fail(added.error);
      }
      assert names[i..][1..] == names[i + 1..];
      i := i + 1;
    }
    var missing := Missing(into.pageSlugs, into.pages.Keys);
    if missing != [] {
      return Fail(ConfigError(VolumeFile, MissingPages(into.title, missing)));
    }
    return Pass;
  }

  /** One iteration of `_read_volumes` up to `add_volume`: a fresh Volume from
      the directory's document, with its pages read into it. */
  method ReadVolume(disk: Disk, comicPath: Path, path: Path, listing: Listing) returns (r: Result<Volume, Error>)
    ensures r.Success? <==> LoadVolume(disk, comicPath, path, listing).Success?
    ensures r.Failure? ==> LoadVolume(disk, comicPath, path, listing) == Failure(r.error)
    ensures r.Success? ==>
      && fresh(r.value) && r.value.Valid()
      && LoadVolume(disk, comicPath, path, listing) == Success(r.value.Data())
  {
    var config := VolumeConfig(disk, path);
    if config.Failure? {
      return Failure(config.error);
    }
    var data := VolumeFromRecord(disk, comicPath, config.value, path);
    if data.Failure? {
      return Failure(data.error);
    }
    var volume := new Volume(Some(path), data.value.title, data.value.image, data.value.pageSlugs);
    assert volume.Data() == data.value;
    var read := ReadPages(disk, comicPath, volume, listing);
    if read.Fail? {
      return Failure(read.error);
    }
    return Success(volume);
  }

  /** The body of the loop of `_read_volumes`: a Volume read from the
      directory, added to the comic. */
  method ReadVolumeInto(disk: Disk, comicPath: Path, into: Comic, path: Path, listing: Listing) returns (r: Outcome<Error>)
    requires into.Valid()
    modifies into
    ensures into.Valid() && into.path == old(into.path)
    ensures r.Fail? ==> LoadVolumeInto(disk, comicPath, old(into.Data()), path, listing) == Failure(r.error)
    ensures r.Pass? ==> LoadVolumeInto(disk, comicPath, old(into.Data()), path, listing) == Success(into.Data())
  {
    ghost var current := into.Data();
    var volume := ReadVolume(disk, comicPath, path, listing);
    if volume.Failure? {
      return Fail(volume.error);
    }
    Comic.VolumesDataFramed(into.volumes);
    assert into.Data() == current;
    ghost var v := volume.value.Data();
    assert Slugify(v.title) == volume.value.slug;
    label adding:
    r := into.AddVolume(volume.value);
    if r.Pass? {
      volume.value.DataFramed@adding();
      assert into.Data() == current.WithVolume(volume.value.slug, v);
    }
  }

  /** `_read_volumes`, building Volume objects and adding them to the comic. */
  method ReadVolumes(disk: Disk, comicPath: Path, into: Comic, listing: Listing) returns (r: Outcome<Error>)
    requires into.Valid()
    modifies into
    ensures into.Valid() && into.path == old(into.path)
    ensures r.Pass? <==> VolumesRead(disk, comicPath, old(into.Data()), listing).Success?
    ensures r.Fail? ==> VolumesRead(disk, comicPath, old(into.Data()), listing) == Failure(r.error)
    ensures r.Pass? ==> VolumesRead(disk, comicPath, old(into.Data()), listing) == Success(into.Data())
  {
    if into.path.None? {
      return Fail(ScuzzieError(VirtualComic));
    }
    ghost var start := into.Data();
    var dir := Div(into.path.value, "volumes");
    var names := listing(dir);
    var i := 0;
    while i < |names|
      invariant 0 <= i <= |names|
      invariant into.Valid() && into.path == old(into.path)
      invariant LoadVolumes(disk, comicPath, into.Data(), dir, names[i..], listing) ==
        LoadVolumes(disk, comicPath, start, dir, names, listing)
    {
      var added := ReadVolumeInto(disk, comicPath, into, Div(dir, names[i]), listing);
      if added.Fail? {
        return Fail(added.error);
      }
      assert names[i..][1..] == names[i + 1..];
      i := i + 1;
    }
    return Pass;
  }

  /** `read_comic`: a fresh Comic at root whose snapshot is `LoadComic`'s. */
  method ReadComic(disk: Disk, root: Path, listing: Listing) returns (r: Result<Comic, Error>)
    ensures r.Success? <==> LoadComic(disk, root, listing).Success?
    ensures r.Failure? ==> LoadComic(disk, root, listing) == Failure(r.error)
    ensures r.Success? ==>
      && fresh(r.value) && r.value.Valid() && r.value.path == Some(root)
      && LoadComic(disk, root, listing) == Success(r.value.Data())
  {
    var config := ComicConfig(disk, root);
    if config.Failure? {
      return Failure(config.error);
    }
    var data := ComicFromRecord(disk, root, config.value);
    if data.Failure? {
      return Failure(data.error);
    }
    var comic := new Comic(Some(root), data.value.name, data.value.placeholder, data.value.volumeSlugs);
    assert comic.Data() == data.value;
    var read := ReadVolumes(disk, root, comic, listing);
    if read.Fail? {
      return Failure(read.error);
    }
    return Success(comic);
  }

  /** Every page of the snapshot is stored under its slug and points back to
      the volume. */
  predicate Linked(v: VolumeData) {
    forall k | k in v.pages :: k == Slugify(v.pages[k].title) && v.pages[k].home == v.path
  }

  /** Every volume of the snapshot is stored under its slug, and every one of
      its listed pages was loaded. */
  ghost predicate Complete(c: ComicData) {
    && Listed(c.volumeSlugs, c.volumes.Keys)
    && forall k | k in c.volumes ::
      && k == Slugify(c.volumes[k].title)
      && Linked(c.volumes[k])
      && (forall s :: s in c.volumes[k].pageSlugs <==> s in c.volumes[k].pages)
  }

  /** Loading pages keeps the volume's own fields and its pages, and keeps
      "every key is listed" and "every page is linked". */
  lemma {:induction false} LoadPagesKeeps(disk: Disk, comicPath: Path, v: VolumeData, dir: Path, names: seq<string>)
    requires LoadPages(disk, comicPath, v, dir, names).Success?
    ensures var r := LoadPages(disk, comicPath, v, dir, names).value;
      && r.path == v.path && r.title == v.title && r.image == v.image
      && v.pages.Keys <= r.pages.Keys
      && (Listed(v.pageSlugs, v.pages.Keys) ==> Listed(r.pageSlugs, r.pages.Keys))
      && (Linked(v) ==> Linked(r))
    decreases |names|
  {
    if names != [] {
      var p := LoadPage(disk, comicPath, Div(dir, names[0])).value;
      var v' := LoadPageInto(disk, comicPath, v, Div(dir, names[0])).value;
      AddSlugPreserves(v.pageSlugs, v.pages.Keys, Slugify(p.title));
      LoadPagesKeeps(disk, comicPath, v', dir, names[1..]);
    }
  }

  /** `_read_pages` fails with the missing-pages error exactly when, once the
      page directories are loaded, some listed slug has no page; the error
      names those slugs, in list order. */
  lemma PagesReadRejectsMissing(disk: Disk, comicPath: Path, v: VolumeData, listing: Listing)
    requires v.path.Some?
    requires LoadPages(disk, comicPath, v, Div(v.path.value, "pages"), listing(Div(v.path.value, "pages"))).Success?
    ensures var loaded := LoadPages(disk, comicPath, v, Div(v.path.value, "pages"), listing(Div(v.path.value, "pages"))).value;
      && (PagesRead(disk, comicPath, v, listing).Failure? <==> exists s | s in loaded.pageSlugs :: s !in loaded.pages)
      && (PagesRead(disk, comicPath, v, listing).Failure? ==>
          PagesRead(disk, comicPath, v, listing).error ==
            ConfigError(VolumeFile, MissingPages(v.title, Missing(loaded.pageSlugs, loaded.pages.Keys))))
  {
    var dir := Div(v.path.value, "pages");
    LoadPagesKeeps(disk, comicPath, v, dir, listing(dir));
    var loaded := LoadPages(disk, comicPath, v, dir, listing(dir)).value;
    var missing := Missing(loaded.pageSlugs, loaded.pages.Keys);
    if missing != [] {
      assert missing[0] in missing;
    }
  }

  /** After a successful `_read_pages` of a volume whose pages were listed
      and linked, the listed slugs are exactly the loaded ones, so
      `each_page` cannot raise. */
  lemma PagesReadComplete(disk: Disk, comicPath: Path, v: VolumeData, listing: Listing)
    requires Listed(v.pageSlugs, v.pages.Keys) && Linked(v)
    requires PagesRead(disk, comicPath, v, listing).Success?
    ensures var r := PagesRead(disk, comicPath, v, listing).value;
      && Linked(r) && r.path == v.path && r.title == v.title
      && (forall s :: s in r.pageSlugs <==> s in r.pages)
      && Each(r.pageSlugs, r.pages).Success?
  {
    var dir := Div(v.path.value, "pages");
    LoadPagesKeeps(disk, comicPath, v, dir, listing(dir));
    var r := PagesRead(disk, comicPath, v, listing).value;
    NoneMissing(r.pageSlugs, r.pages.Keys);
  }

  /** Adding a complete volume under its slug keeps the comic complete. */
  lemma CompleteWith(c: ComicData, v: VolumeData)
    requires Complete(c) && Linked(v)
    requires forall s :: s in v.pageSlugs <==> s in v.pages
    ensures Complete(c.WithVolume(Slugify(v.title), v))
  {
    AddSlugPreserves(c.volumeSlugs, c.volumes.Keys, Slugify(v.title));
  }

  /** Reading one volume into the comic keeps the comic's own fields, the
      prefix of its list, and "every volume is listed, stored under its slug
      and complete". */
  lemma LoadVolumeIntoKeeps(disk: Disk, comicPath: Path, c: ComicData, path: Path, listing: Listing)
    requires Complete(c)
    requires LoadVolumeInto(disk, comicPath, c, path, listing).Success?
    ensures var r := LoadVolumeInto(disk, comicPath, c, path, listing).value;
      && Complete(r) && r.path == c.path && r.name == c.name && r.placeholder == c.placeholder
      && c.volumeSlugs <= r.volumeSlugs
  {
    var rec := VolumeConfig(disk, path).value;
    var v0 := VolumeFromRecord(disk, comicPath, rec, path).value;
    assert LoadVolume(disk, comicPath, path, listing) == PagesRead(disk, comicPath, v0, listing);
    var v := PagesRead(disk, comicPath, v0, listing).value;
    PagesReadComplete(disk, comicPath, v0, listing);
    assert LoadVolumeInto(disk, comicPath, c, path, listing) == Success(c.WithVolume(Slugify(v.title), v));
    CompleteWith(c, v);
    AddSlugExtends(c.volumeSlugs, Slugify(v.title));
  }

  /** Loading volumes keeps the comic's own fields, the prefix of its list,
      and "every volume is listed, stored under its slug and complete". */
  lemma {:induction false} LoadVolumesKeeps(disk: Disk, comicPath: Path, c: ComicData, dir: Path, names: seq<string>, listing: Listing)
    requires Complete(c)
    requires LoadVolumes(disk, comicPath, c, dir, names, listing).Success?
    ensures var r := LoadVolumes(disk, comicPath, c, dir, names, listing).value;
      && Complete(r) && r.path == c.path && r.name == c.name && r.placeholder == c.placeholder
      && c.volumeSlugs <= r.volumeSlugs
    decreases |names|
  {
    if names != [] {
      LoadVolumeIntoKeeps(disk, comicPath, c, Div(dir, names[0]), listing);
      var c' := LoadVolumeInto(disk, comicPath, c, Div(dir, names[0]), listing).value;
      LoadVolumesKeeps(disk, comicPath, c', dir, names[1..], listing);
    }
  }

  /** A successfully read comic is located at root and complete: every
      volume's listed pages all exist. */
  lemma LoadComicComplete(disk: Disk, root: Path, listing: Listing)
    requires LoadComic(disk, root, listing).Success?
    ensures Complete(LoadComic(disk, root, listing).value)
    ensures LoadComic(disk, root, listing).value.path == Some(root)
  {
    var rec := ComicConfig(disk, root).value;
    var c := ComicFromRecord(disk, root, rec).value;
    var dir := Div(root, "volumes");
    LoadVolumesKeeps(disk, root, c, dir, listing(dir), listing);
  }

  /** There is no comic-level analogue of the missing-pages check: with no
      volume directories, the comic loads with its `volumes` list as
      written, whatever slugs it names. */
  lemma ListedVolumesNotChecked(disk: Disk, root: Path, listing: Listing)
    requires ComicConfig(disk, root).Success?
    requires ComicFromRecord(disk, root, ComicConfig(disk, root).value).Success?
    requires listing(Div(root, "volumes")) == []
    ensures LoadComic(disk, root, listing) == Success(ComicFromRecord(disk, root, ComicConfig(disk, root).value).value)
    ensures LoadComic(disk, root, listing).value.volumes == map[]
  {
  }
}

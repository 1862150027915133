/** The document layer of scuzzie/comic.py: reading and writing one TOML
    document, and the schemas of scuzzie/models.py that turn a document into
    the fields of a resource (and a resource back into a document). */
module Documents {
  import opened Wrappers
  import opened Paths
  import opened Errors
  import opened Store
  import opened Resources

  /** `_try_read_toml`: only a missing file becomes the config error of the
      caller's kind; a file that is not TOML and a path that cannot be opened
      raise their own exceptions. */
  function TryReadToml(disk: Disk, path: Path, file: FileType): (r: Result<Record, Error>)
    ensures r.Success? <==> path in disk.docs
    ensures r.Success? ==> r.value == disk.docs[path]
    ensures path in disk.blobs && path !in disk.docs ==> r == Failure(DecodeError(path))
    ensures !IsFile(disk, path) ==>
      r == Failure(if Blocked(disk, path) then OSError(path) else ConfigError(file, NotFound(path)))
  {
    if path in disk.docs then Success(disk.docs[path])
    else if path in disk.blobs then Failure(DecodeError(path))
    else if Blocked(disk, path) then Failure(OSError(path))
    else Failure(ConfigError(file, NotFound(path)))
  }

  /** Where `validate_asset_exists` looks for an asset path: below the comic's
      `assets` directory, with the path's leading and trailing "/" stripped. */
  function AssetLocation(comicPath: Path, asset: Path): (r: Path)
    ensures r.absolute == comicPath.absolute && r.parts == comicPath.parts + ["assets"] + asset.parts
  {
    var assets := Div(comicPath, "assets");
    var relative := StripSlashes(Str(asset));
    assert IsComponent("assets");
    StrippedParts(asset);
    DivParsed(assets, relative);
    Div(assets, relative)
  }

  /** An absolute asset path and the relative one with the same parts name
      the same file. */
  lemma AssetRootIgnored(comicPath: Path, parts: seq<string>)
    requires forall i | 0 <= i < |parts| :: IsComponent(parts[i])
    ensures AssetLocation(comicPath, PathRep(true, parts)) == AssetLocation(comicPath, PathRep(false, parts))
  {
  }

  /** `validate_asset_exists`: the location exists and is a regular file. */
  predicate AssetIsFile(disk: Disk, comicPath: Path, asset: Path) {
    IsFile(disk, AssetLocation(comicPath, asset))
  }

  /** A `str` field of a schema. */
  function TextField(rec: Record, key: string, file: FileType): (r: Result<string, Error>)
    ensures r.Success? <==> key in rec && rec[key].Text?
    ensures r.Success? ==> r.value == rec[key].text
    ensures r.Failure? ==> r.error == ConfigError(file, Invalid(key))
  {
    if key in rec && rec[key].Text? then Success(rec[key].text)
    else Failure(ConfigError(file, Invalid(key)))
  }

  /** A `list[str]` field of a schema. */
  function TextsField(rec: Record, key: string, file: FileType): (r: Result<seq<string>, Error>)
    ensures r.Success? <==> key in rec && rec[key].Texts?
    ensures r.Success? ==> r.value == rec[key].items
    ensures r.Failure? ==> r.error == ConfigError(file, Invalid(key))
  {
    if key in rec && rec[key].Texts? then Success(rec[key].items)
    else Failure(ConfigError(file, Invalid(key)))
  }

  /** A `Path` field whose validator requires an existing asset file: a string
      is parsed as `Path(s)` first. */
  function AssetField(disk: Disk, comicPath: Path, rec: Record, key: string, file: FileType): (r: Result<Path, Error>)
    ensures r.Success? <==>
      key in rec && !rec[key].Texts? && AssetIsFile(disk, comicPath, AsPath(rec[key]))
    ensures r.Success? ==> r.value == AsPath(rec[key])
    ensures r.Failure? ==> r.error == ConfigError(file, Invalid(key))
  {
    if key in rec && !rec[key].Texts? && AssetIsFile(disk, comicPath, AsPath(rec[key])) then
      Success(AsPath(rec[key]))
    else Failure(ConfigError(file, Invalid(key)))
  }

  /** The path a string or path value stands for. */
  function AsPath(v: Value): Path
    requires !v.Texts?
  {
    if v.Text? then Parse(v.text) else v.path
  }

  /** `_comic_from_config`: a `models.Comic` validated against the comic's own
      directory; the comic is located at root and has no volumes yet. */
  function ComicFromRecord(disk: Disk, root: Path, rec: Record): (r: Result<ComicData, Error>)
    ensures r.Success? <==>
      && "name" in rec && rec["name"].Text?
      && "placeholder" in rec && !rec["placeholder"].Texts? && AssetIsFile(disk, root, AsPath(rec["placeholder"]))
      && "volumes" in rec && rec["volumes"].Texts?
    ensures r.Success? ==> r.value.path == Some(root) && r.value.volumes == map[]
    ensures r.Success? ==>
      && r.value.name == rec["name"].text
      && r.value.placeholder == AsPath(rec["placeholder"])
      && r.value.volumeSlugs == rec["volumes"].items
    ensures r.Failure? ==> r.error.ConfigError? && r.error.file == ComicFile
  {
    var name :- TextField(rec, "name", ComicFile);
    var placeholder :- AssetField(disk, root, rec, "placeholder", ComicFile);
    var volumes :- TextsField(rec, "volumes", ComicFile);
    Success(ComicData(Some(root), name, placeholder, volumes, map[]))
  }

  /** `_volume_from_config`: a `models.Volume` validated against the comic's
      directory; the volume is located at path and has no pages yet. */
  function VolumeFromRecord(disk: Disk, root: Path, rec: Record, path: Path): (r: Result<VolumeData, Error>)
    ensures r.Success? <==>
      && "title" in rec && rec["title"].Text?
      && "image" in rec && !rec["image"].Texts? && AssetIsFile(disk, root, AsPath(rec["image"]))
      && "pages" in rec && rec["pages"].Texts?
    ensures r.Success? ==> r.value.path == Some(path) && r.value.pages == map[]
    ensures r.Success? ==>
      && r.value.title == rec["title"].text
      && r.value.image == AsPath(rec["image"])
      && r.value.pageSlugs == rec["pages"].items
    ensures r.Failure? ==> r.error.ConfigError? && r.error.file == VolumeFile
  {
    var title :- TextField(rec, "title", VolumeFile);
    var image :- AssetField(disk, root, rec, "image", VolumeFile);
    var pages :- TextsField(rec, "pages", VolumeFile);
    Success(VolumeData(Some(path), title, image, pages, map[]))
  }

  /** `_page_from_config`: a `models.Page`; its failures are reported as
      volume config errors. The page is located at path and in no volume. */
  function PageFromRecord(disk: Disk, root: Path, rec: Record, path: Path): (r: Result<PageData, Error>)
    ensures r.Success? <==>
      && "title" in rec && rec["title"].Text?
      && "image" in rec && !rec["image"].Texts? && AssetIsFile(disk, root, AsPath(rec["image"]))
    ensures r.Success? ==> r.value.path == Some(path) && r.value.home == None
    ensures r.Success? ==> r.value.title == rec["title"].text && r.value.image == AsPath(rec["image"])
    ensures r.Failure? ==> r.error.ConfigError? && r.error.file == VolumeFile
  {
    var title :- TextField(rec, "title", VolumeFile);
    var image :- AssetField(disk, root, rec, "image", VolumeFile);
    Success(PageData(Some(path), title, image, None))
  }

  /** `models.Comic(...).dict()` as `_write_comic_config` builds it; the
      `path` argument is not a field of the schema, so it is dropped. */
  function ComicRecord(name: string, placeholder: Path, volumes: seq<string>): Record {
    map["name" := Text(name), "placeholder" := PathValue(placeholder), "volumes" := Texts(volumes)]
  }

  /** `models.Volume(...).dict()` as `_write_volume_config` builds it. */
  function VolumeRecord(title: string, image: Path, pages: seq<string>): Record {
    map["title" := Text(title), "image" := PathValue(image), "pages" := Texts(pages)]
  }

  /** `models.Page(...).dict()` as `_write_page` builds it. */
  function PageRecord(title: string, image: Path): Record {
    map["title" := Text(title), "image" := PathValue(image)]
  }

  function Stringify(v: Value): (r: Value)
    ensures !r.PathValue?
    ensures v.PathValue? ==> r == Text(Str(v.path))
    ensures !v.PathValue? ==> r == v
  {
    if v.PathValue? then Text(Str(v.path)) else v
  }

  /** The copy `_try_write_toml` serialises: the same keys, every path value
      replaced by its string form, everything else kept. */
  function Stringified(data: Record): (r: Record)
    ensures r.Keys == data.Keys
    ensures forall k | k in r :: r[k] == Stringify(data[k])
  {
    map k | k in data :: Stringify(data[k])
  }

  /** The loop of `_try_write_toml` over a copy of the caller's record. */
  method StringifyPaths(data: Record) returns (copy: Record)
    ensures copy == Stringified(data)
  {
    copy := data;
    var todo := data.Keys;
    while todo != {}
      invariant todo <= data.Keys && copy.Keys == data.Keys
      invariant forall k | k in data :: copy[k] == if k in todo then data[k] else Stringify(data[k])
      decreases |todo|
    {
      var key :| key in todo;
      if copy[key].PathValue? {
        copy := copy[key := Text(Str(copy[key].path))];
      }
      todo := todo - {key};
    }
  }

  /** `_try_write_toml`: the document at path becomes the stringified copy. */
  method TryWriteToml(disk: Disk, path: Path, data: Record) returns (written: Disk)
    ensures written == Put(disk, path, Stringified(data))
  {
    var copy := StringifyPaths(data);
    written := Put(disk, path, copy);
  }

  /** A path survives the rewrite to a string and the parse back. */
  lemma StringifiedPath(p: Path)
    ensures AsPath(Stringify(PathValue(p))) == p
  {
    ParseStr(p);
  }

  /** The keys of the documents are distinct strings. */
  lemma KeysDistinct()
    ensures "name" != "placeholder" && "name" != "volumes" && "placeholder" != "volumes"
    ensures "title" != "image" && "title" != "pages" && "image" != "pages"
  {
    assert "title"[0] != "image"[0] && "title"[0] != "pages"[0] && "image"[0] != "pages"[0];
  }

  /** The document `_write_comic_config` leaves, field by field. */
  lemma ComicRecordWritten(name: string, placeholder: Path, volumes: seq<string>)
    ensures Stringified(ComicRecord(name, placeholder, volumes)) ==
      map["name" := Text(name), "placeholder" := Text(Str(placeholder)), "volumes" := Texts(volumes)]
  {
    KeysDistinct();
  }

  /** The document `_write_volume_config` leaves, field by field. */
  lemma VolumeRecordWritten(title: string, image: Path, pages: seq<string>)
    ensures Stringified(VolumeRecord(title, image, pages)) ==
      map["title" := Text(title), "image" := Text(Str(image)), "pages" := Texts(pages)]
  {
    KeysDistinct();
  }

  /** The document `_write_page` leaves, field by field. */
  lemma PageRecordWritten(title: string, image: Path)
    ensures Stringified(PageRecord(title, image)) == map["title" := Text(title), "image" := Text(Str(image))]
  {
    KeysDistinct();
  }

  /** Reading back a written comic document gives the comic's fields. */
  lemma ComicRecordRoundTrip(disk: Disk, root: Path, c: ComicData)
    requires AssetIsFile(disk, root, c.placeholder)
    ensures ComicFromRecord(disk, root, Stringified(ComicRecord(c.name, c.placeholder, c.volumeSlugs))) ==
      Success(ComicData(Some(root), c.name, c.placeholder, c.volumeSlugs, map[]))
  {
    ComicRecordWritten(c.name, c.placeholder, c.volumeSlugs);
    KeysDistinct();
    StringifiedPath(c.placeholder);
  }

  /** Reading back a written volume document gives the volume's fields. */
  lemma VolumeRecordRoundTrip(disk: Disk, root: Path, v: VolumeData, path: Path)
    requires AssetIsFile(disk, root, v.image)
    ensures VolumeFromRecord(disk, root, Stringified(VolumeRecord(v.title, v.image, v.pageSlugs)), path) ==
      Success(VolumeData(Some(path), v.title, v.image, v.pageSlugs, map[]))
  {
    VolumeRecordWritten(v.title, v.image, v.pageSlugs);
    KeysDistinct();
    StringifiedPath(v.image);
  }

  /** Reading back a written page document gives the page's fields. */
  lemma PageRecordRoundTrip(disk: Disk, root: Path, p: PageData, path: Path)
    requires AssetIsFile(disk, root, p.image)
    ensures PageFromRecord(disk, root, Stringified(PageRecord(p.title, p.image)), path) ==
      Success(PageData(Some(path), p.title, p.image, None))
  {
    PageRecordWritten(p.title, p.image);
    KeysDistinct();
    StringifiedPath(p.image);
  }
}

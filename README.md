# scuzzie: the resource graph and its TOML codec, in Dafny

scuzzie is a static webcomic generator. Its core is a small resource graph and
the codec that stores that graph as a tree of TOML files:

- **The resource graph** (`scuzzie/resources.py`). A `Comic` holds `Volume`s and
  a `Volume` holds `Page`s. Each container keeps an ordered list of slugs next
  to a dictionary from slug to entity. A slug is the slugified title. A page
  points back to the volume it was added to. `add_page` and `add_volume`
  refuse a slug that is already a key, and append the slug to the order list
  only when it is not already listed. The `each_*` generators yield the
  entities in list order. The `url` properties name the HTML page of an
  entity.
- **The codec** (`scuzzie/comic.py`, with the asset check of
  `scuzzie/models.py`). `read_comic` reads `<root>/comic.toml`. It then reads
  `<entry>/volume.toml` for every entry that `iterdir` lists in
  `<root>/volumes`, and `<entry>/page.toml` for every entry listed in
  `<volume>/pages`. Every entry is taken to be a directory: a stray file there
  makes the read fail with an OS error. It rejects a volume that lists a
  page with no directory. `write_comic` settles the target path, then writes
  the comic's document and every volume's and page's document. Each image
  path is validated against `<comic>/assets`.

Modules, one per file:

| file | module | what it holds |
|---|---|---|
| `wrappers.dfy` | `Wrappers` | `Option`, `Result` and `Outcome` (an operation that returns nothing but may raise) |
| `paths.dfy` | `Paths` | POSIX paths as `pathlib` normalises them: `Path(s)`, `str(p)`, `p / name` |
| `slugs.dfy` | `Slugs` | `slugify`, restricted to ASCII text without character references |
| `errors.dfy` | `Errors` | the exceptions the core raises or lets escape |
| `registry.dfy` | `Registry` | the order-list and dictionary logic shared by volumes and comics |
| `resources.dfy` | `Resources` | the classes `Page`, `Volume` and `Comic`, with value snapshots of them (`PageData`, `VolumeData`, `ComicData`) |
| `store.dfy` | `Store` | the filesystem: TOML documents (flat records) and other files; directories are implicit |
| `documents.dfy` | `Documents` | reading and writing one document, the schemas and the asset check |
| `loader.dfy` | `Loader` | `read_comic`, as functions on snapshots and as methods that build the objects |
| `saver.dfy` | `Saver` | `write_comic`, as a plan of writes that `Run` executes and as methods proved to do the same |
| `roundtrip.dfy` | `RoundTrip` | writing a comic and reading it back gives the comic back; a save succeeds when its images are present |

The resource classes mutate their fields in place, so they are Dafny
classes. Each class's methods are proved against the value snapshot it
exposes (`Data()`): `AddPage` turns `Data()` into `old(Data()).WithPage(...)`.
The codec is written twice:

- **Specification functions on snapshots and a disk value.** Reading is
  `LoadComic`, `VolumesRead` and `PagesRead`. Writing is `Save`, the plan
  `ComicSteps` and the executor `Run`.
- **Methods that build or walk the objects.** `ReadComic` and `WriteComic`
  each carry an `ensures` that ties them to the specification functions.

Filesystem effects are threaded as a `Disk` value. The listing order of
`Path.iterdir()` is a parameter, `listing`. `Lists(disk, listing)` states that
it lists every directory's entries once.

## Model

| member | source | states |
|---|---|---|
| Resources.Page.constructor | scuzzie/resources.py:13-18 | a new page keeps its path, title and image, and belongs to no volume |
| Resources.Page.Url | scuzzie/resources.py:26-31 | fails exactly when the page is in no volume, with that error; otherwise it is `/volumes/<volume slug>/pages/<slug>.html` |
| Resources.Page.UrlsDistinct | scuzzie/resources.py:26-31 | two distinct pages of one volume, both pointing back to it, have distinct URLs |
| Resources.PageUrlInjective | scuzzie/resources.py:31 | a page URL determines both its volume slug and its page slug when the volume slug has no "/" |
| Resources.VolumeUrlIsNotAPageUrl | scuzzie/resources.py:56-61 | no volume URL is ever a page URL |
| Resources.SlugHasNoSlash | scuzzie/resources.py:16 | a slug never contains "/" |
| Resources.Volume.constructor | scuzzie/resources.py:37-45 | a new volume keeps its fields, has no pages, and is valid (every page under its slug, every key listed) |
| Resources.Volume.Url | scuzzie/resources.py:56-61 | fails exactly for a volume without a path; otherwise it is `/volumes/<slug>.html` |
| Resources.Volume.LatestPage | scuzzie/resources.py:63-69 | None exactly for an empty list; otherwise the page of the last listed slug, or a KeyError for that slug |
| Resources.Volume.EachPage | scuzzie/resources.py:71-74 | yields the page of every listed slug in order, or the KeyError of the first listed slug without a page (`Registry.Each`) |
| Resources.Volume.AddPage | scuzzie/resources.py:76-85 | a known slug fails with nothing changed; otherwise the page points back, is stored under its slug, and the slug is appended only if unlisted; keeps `Valid()` and no-duplicates; the snapshot becomes `WithPage` |
| Resources.Comic.constructor | scuzzie/resources.py:91-103 | a new comic keeps its fields, has no volumes, and is valid |
| Resources.Comic.LatestVolume | scuzzie/resources.py:114-120 | None exactly for an empty list; otherwise the volume of the last listed slug, or a KeyError for that slug |
| Resources.Comic.EachVolume | scuzzie/resources.py:122-125 | yields the volume of every listed slug in order, or the KeyError of the first listed slug without one |
| Resources.Comic.AddVolume | scuzzie/resources.py:127-134 | as `AddPage` one level up: a known slug fails unchanged; otherwise the volume is stored and the slug appended if unlisted; keeps `Valid()`; the snapshot becomes `WithVolume` |
| Resources.Comic.CreateVolume | scuzzie/resources.py:136-140 | fails exactly when the title's slug is taken; otherwise a fresh virtual volume with no pages is added under its slug, the comic's path is unchanged, validity and a duplicate-free order list are kept, and the snapshot becomes `old(Data()).WithVolume(slug, volume)` |
| Resources.Comic.CreatePage | scuzzie/resources.py:142-152 | fails exactly when the slug is taken in the volume; otherwise a fresh virtual page is added, pointing back to the volume, with the placeholder as its image when none is given |
| Resources.VolumeData.WithPage | scuzzie/resources.py:81-85 | the snapshot after `add_page`: the new key holds the page, other keys are unchanged, the list is `AddSlug`ed, and the volume's own fields are kept |
| Resources.ComicData.WithVolume | scuzzie/resources.py:132-134 | the snapshot after `add_volume`, in the same terms |
| Registry.Each | scuzzie/resources.py:71-74 | succeeds exactly when every listed slug has an entity; then it yields those entities in list order; otherwise it fails with the KeyError of the first listed slug without one |
| Registry.AddSlugExtends | scuzzie/resources.py:83-84 | the old list is a prefix of the new one, and the slug is appended exactly when it was not listed |
| Registry.AddSlugPreserves | scuzzie/resources.py:76-85 | adding keeps "every key is listed" and "no slug is listed twice" |
| Registry.Missing | scuzzie/comic.py:86 | a slug is missing exactly when it is listed and has no entity |
| Registry.NoneMissing | scuzzie/comic.py:86-92 | the missing-pages check passes exactly when every listed slug has a page; with every key listed, the list then covers exactly the keys |
| Registry.MissingIsFilter | scuzzie/comic.py:86 | the missing slugs are the listed slugs without an entity, in list order |
| Slugs.Slugify | scuzzie/resources.py:16 | a slug is lower-case letters, digits and single hyphens between them: no hyphen at either end and never two in a row |
| Slugs.DropDigitCommas | scuzzie/resources.py:16 | the clean-up keeps every character except commas between two digits, adds none, and changes nothing in text without a comma |
| Slugs.DropCommaFreePrefix | scuzzie/resources.py:16 | over a prefix without commas the clean-up copies the text unchanged, in order |
| Slugs.DigitCommaDropped | scuzzie/resources.py:16 | a comma between two digits is dropped and the text on either side is kept, in order: `a + "," + b` becomes `a + b` ("1,000" gives "1000") |
| Slugs.WordsNonEmpty | scuzzie/resources.py:16 | some word comes out of the text exactly when it has an ASCII letter or digit |
| Slugs.HyphenateSlug | scuzzie/resources.py:16 | joining words with "-" gives a slug that starts and ends with a letter or digit |
| Slugs.SlugShape | scuzzie/resources.py:16 | a slug is made of lower-case letters, digits and hyphens; it is empty exactly when the title has no ASCII letter or digit; a non-empty slug is one path component |
| Slugs.SlugifyIdempotent | scuzzie/resources.py:16 | slugifying a slug gives the slug back |
| Paths.StripSlashes | scuzzie/models.py:34 | the stripped string is no longer than the input, neither starts nor ends with "/", and equals the input exactly when the input has no "/" at either end |
| Paths.StripSlashesTrimsEnd | scuzzie/models.py:34 | on a string not starting with "/", stripping removes a run of "/" at the end and nothing else |
| Paths.StripSlashesTrims | scuzzie/models.py:34 | the stripped string is a slice `s[i..j]` of the input with only "/" before i and after j |
| Paths.JoinEnds | scuzzie/models.py:34 | the string of one or more components joined by "/" neither starts nor ends with "/" |
| Paths.StrippedParts | scuzzie/models.py:34-35 | `str(p).strip("/")` is a relative name that parses back to the parts of p |
| Paths.ParseStr | scuzzie/comic.py:38-40 | `Path(str(p)) == p`: a path written into a document as a string reads back as the same path |
| Paths.DivParsed | scuzzie/comic.py:96 | `p / name` replaces p when name is absolute and otherwise appends the parsed parts of name; appending one component directly agrees with this |
| Store.Entries | scuzzie/comic.py:66 | every name that `iterdir` yields is a single path component |
| Store.Put | scuzzie/comic.py:42-44 | writing a document adds exactly its path to the files, stores the record there, and leaves every other document unchanged |
| Store.PutEntries | scuzzie/comic.py:42-44 | a write adds to a directory's entries only the name that leads to the written path, and removes none |
| Documents.TryReadToml | scuzzie/comic.py:24-31 | succeeds exactly when the path holds a document, and returns it; a file that is not TOML is a decode error; a missing file is the caller's config error, unless the path is blocked (an OS error) |
| Documents.AssetLocation | scuzzie/models.py:32-35 | the asset is looked up at `<comic>/assets/<the asset's parts>`, absolute exactly when the comic path is |
| Documents.AssetRootIgnored | scuzzie/models.py:34-35 | an absolute asset path and the relative one with the same parts are looked up at the same place |
| Documents.TextField | scuzzie/models.py:43 | a `str` field is accepted exactly when present as a string; otherwise the field is reported invalid |
| Documents.TextsField | scuzzie/models.py:45 | a `list[str]` field is accepted exactly when present as a list; otherwise the field is reported invalid |
| Documents.AssetField | scuzzie/models.py:47-52 | a path field is accepted exactly when present, not a list, and naming an existing asset file; otherwise it is reported invalid |
| Documents.Stringify | scuzzie/comic.py:39-40 | a path value becomes its string; any other value is unchanged |
| Documents.ComicFromRecord | scuzzie/comic.py:110-122 | building a comic from its document succeeds exactly when `name` is text, `placeholder` is a path or text naming an existing asset file, and `volumes` is a list; the comic then takes its name, placeholder and volume list from the document as written, is located at its root and has no volumes; a failure is a comic config error |
| Documents.VolumeFromRecord | scuzzie/comic.py:125-132 | building a volume from its document succeeds exactly when `title` is text, `image` names an existing asset file, and `pages` is a list; the volume then takes its title, image and page list from the document as written, is located at its directory and has no pages; a failure is a volume config error |
| Documents.PageFromRecord | scuzzie/comic.py:135-142 | building a page from its document succeeds exactly when `title` is text and `image` names an existing asset file; the page then takes its title and image from the document, is located at its directory and is in no volume; a failure is reported as a volume config error |
| Documents.Stringified | scuzzie/comic.py:37-40 | the copy has the same keys, with every path value replaced by its string |
| Documents.StringifyPaths | scuzzie/comic.py:37-40 | the loop over the copied record yields `Stringified(data)` |
| Documents.TryWriteToml | scuzzie/comic.py:34-44 | the document at path becomes the stringified copy of the record |
| Documents.StringifiedPath | scuzzie/comic.py:39-40 | a path survives being stringified and parsed back |
| Documents.ComicRecordWritten | scuzzie/comic.py:165-181 | the written comic document holds the name, the placeholder as a string, and the volume list, under keys `name`, `placeholder` and `volumes` |
| Documents.VolumeRecordWritten | scuzzie/comic.py:195-208 | the written volume document holds the title, the image as a string, and the page list, under keys `title`, `image` and `pages` |
| Documents.PageRecordWritten | scuzzie/comic.py:211-225 | the written page document holds the title and the image as a string, under keys `title` and `image` |
| Documents.ComicRecordRoundTrip | scuzzie/comic.py:165-181 | reading back a written comic document gives the comic's name, placeholder and volume list |
| Documents.VolumeRecordRoundTrip | scuzzie/comic.py:195-208 | reading back a written volume document gives its title, image and page list |
| Documents.PageRecordRoundTrip | scuzzie/comic.py:211-225 | reading back a written page document gives its title and image |
| Loader.ComicConfig | scuzzie/comic.py:95-97 | a failure on a path that is neither a file nor blocked is the comic config error "not found" for `<path>/comic.toml` |
| Loader.VolumeConfig | scuzzie/comic.py:100-102 | the same for `volume.toml`, as a volume config error |
| Loader.PageConfig | scuzzie/comic.py:105-107 | the same for `page.toml`, as a page config error |
| Loader.LoadPage | scuzzie/comic.py:82-83 | a loaded page is located at its directory and is in no volume yet |
| Loader.AddPageData | scuzzie/resources.py:76-85 | `add_page` on snapshots: fails exactly when the slug is taken; otherwise gives `WithPage` of the page pointing back to the volume |
| Loader.AddVolumeData | scuzzie/resources.py:127-134 | `add_volume` on snapshots: fails exactly when the slug is taken; otherwise gives `WithVolume` |
| Loader.ReadPage | scuzzie/comic.py:81-84 | one loop turn of `_read_pages` on the objects: keeps `Valid()`, and fails or succeeds as `LoadPageInto` does on the snapshot |
| Loader.ReadPages | scuzzie/comic.py:73-92 | succeeds exactly when `PagesRead` does; the volume's snapshot becomes its result, or the error is its error |
| Loader.ReadVolume | scuzzie/comic.py:67-69 | builds a fresh volume exactly when `LoadVolume` succeeds, with that snapshot |
| Loader.ReadVolumeInto | scuzzie/comic.py:66-70 | one loop turn of `_read_volumes` on the objects: keeps `Valid()` and the comic's path, and agrees with `LoadVolumeInto` |
| Loader.ReadVolumes | scuzzie/comic.py:58-70 | succeeds exactly when `VolumesRead` does; the comic's snapshot becomes its result, or the error is its error |
| Loader.ReadComic | scuzzie/comic.py:47-55 | returns a fresh comic exactly when `LoadComic` succeeds, with that snapshot; otherwise it raises `LoadComic`'s error |
| Loader.LoadPagesKeeps | scuzzie/comic.py:80-84 | loading pages keeps the volume's own fields and existing pages, and keeps every key listed and every page linked back |
| Loader.PagesReadRejectsMissing | scuzzie/comic.py:86-92 | `_read_pages` fails after loading exactly when some listed slug has no page, and the error names those slugs in list order |
| Loader.PagesReadComplete | scuzzie/comic.py:73-92 | after a successful `_read_pages`, the listed slugs are exactly the loaded ones, every page is linked, and `each_page` cannot raise |
| Loader.CompleteWith | scuzzie/comic.py:70 | adding a complete volume under its slug keeps the comic complete |
| Loader.LoadVolumeIntoKeeps | scuzzie/comic.py:66-70 | reading one volume keeps the comic complete, keeps its own fields, and only extends its list |
| Loader.LoadVolumesKeeps | scuzzie/comic.py:58-70 | the same for the whole loop over the volume directories |
| Loader.LoadComicComplete | scuzzie/comic.py:47-55 | a comic that was read is located at root and complete: every volume's listed pages all exist |
| Loader.ListedVolumesNotChecked | scuzzie/comic.py:58-70 | volumes get no missing-entries check: with no volume directories, the comic loads with its volume list as written and no volumes |
| Saver.RunAppend | scuzzie/comic.py:158-162 | running two plans in sequence is running their concatenation, stopping at the first failure |
| Saver.RunChangesOnlyTargets | scuzzie/comic.py:34-44 | a run removes no file and leaves every path outside its targets unchanged |
| Saver.PagesStepsRun | scuzzie/comic.py:191-192 | the page loop runs the current slug's steps, then the rest unless they raised |
| Saver.VolumesStepsRun | scuzzie/comic.py:185-186 | the volume loop runs the current slug's steps, then the rest unless they raised |
| Saver.PageWithoutVolumePathFails | scuzzie/comic.py:217-229 | a volume whose first page has no volume path leaves its own document written and then fails with the volume config error |
| Saver.TargetPath | scuzzie/comic.py:145-155 | succeeds exactly when one of the comic's path and the given path is set, and returns that one; otherwise the ambiguous-target error |
| Saver.EnsureComicHasPath | scuzzie/comic.py:145-155 | returns `TargetPath`, and sets the comic's path to the target when it succeeds |
| Saver.WriteComicConfig | scuzzie/comic.py:165-181 | does to the disk what its plan (`ComicConfigSteps`) does |
| Saver.WriteVolumeConfig | scuzzie/comic.py:195-208 | does what `VolumeConfigSteps` does: writes `<path>/volumes/<slug>/volume.toml` after validating the image |
| Saver.WritePage | scuzzie/comic.py:211-229 | does what `PageSteps` does: writes under the page's own volume path, or raises when the page has none |
| Saver.WriteListedPage | scuzzie/comic.py:191-192 | one turn of the page loop: the page of the slug, or its KeyError |
| Saver.WriteVolume | scuzzie/comic.py:189-192 | does what `VolumeSteps` does: the volume's document, then its pages in list order |
| Saver.WriteListedVolume | scuzzie/comic.py:185-186 | one turn of the volume loop: the volume of the slug, or its KeyError |
| Saver.WriteVolumes | scuzzie/comic.py:184-186 | does what `VolumesSteps` does for the comic's list |
| Saver.WriteSettled | scuzzie/comic.py:160-162 | once the path is settled, does what `ComicSteps` does |
| Saver.WriteComic | scuzzie/comic.py:158-162 | does what `Save` does on the comic's old snapshot, and sets the comic's path as `_ensure_comic_has_path` does |
| RoundTrip.RunPuts | scuzzie/comic.py:158-229 | a plan that runs to the end leaves exactly its documents over the old disk, and every asset it validated is still a file |
| RoundTrip.PageTargetInjective | scuzzie/comic.py:224 | two pages of one volume with different slugs are written to different document paths |
| RoundTrip.PagesWritten | scuzzie/comic.py:191-192 | each listed page of a placed volume is written to its own `page.toml` |
| RoundTrip.VolumeWritten | scuzzie/comic.py:189-192 | a placed volume writes its document and each of its pages' documents |
| RoundTrip.VolumesWritten | scuzzie/comic.py:184-186 | when listed volumes write to disjoint paths, each volume's documents survive the whole loop |
| RoundTrip.SaveLeaves | scuzzie/comic.py:158-162 | a successful save leaves exactly the saved documents over the old disk |
| RoundTrip.SavedVolumeEntries | scuzzie/comic.py:207 | the entries a save creates in `<root>/volumes` are exactly the volumes' slugs |
| RoundTrip.SavedPageEntries | scuzzie/comic.py:224 | the entries a save creates in `<volume>/pages` are exactly its pages' slugs |
| RoundTrip.SaveStores | scuzzie/comic.py:158-229 | after a successful save of a placed comic, every document, image and directory the reader needs is on the disk |
| RoundTrip.LocatedVolume | scuzzie/comic.py:125-142 | the volume read back keeps its title, image, page list, page keys, and its pages' titles and images |
| RoundTrip.Located | scuzzie/comic.py:110-122 | the comic read back keeps its name, placeholder, volume list and keys, and is located at root |
| RoundTrip.LoadBack | scuzzie/comic.py:47-92 | reading a stored placed comic from root gives `Located(d, root)` |
| RoundTrip.WriteThenRead | scuzzie/comic.py:47-229 | `read_comic` after a successful `write_comic` gives the comic back: name, placeholder, volume list, and each volume's title, image, page list and pages' titles and images |
| RoundTrip.RunPasses | scuzzie/comic.py:34-44 | a plan whose every step writes with its asset present runs to the end |
| RoundTrip.SaveSucceeds | scuzzie/comic.py:158-229 | saving a placed comic to a settled target succeeds when every image it validates is present |

## Left out

- `slugify` comes from the `python-slugify` package, which is not part of this model. `Slugs.Slugify` models its default behaviour on ASCII text: a comma between two digits is dropped (python-slugify turns "Vol 1,000" into "vol-1000"; `Slugs.DigitCommaDropped` states the rule), then maximal runs of ASCII letters and digits are lower-cased and joined by "-". Transliteration of non-ASCII letters (unidecode and NFKD) is not modelled.
- `Slugs.Slugify`: does not decode HTML entity, decimal or hexadecimal character references. python-slugify turns "Tom &amp; Jerry" into "tom-jerry" and "&amp;" alone into "", where the model keeps "amp" as a word. Titles containing "&" followed by a reference are outside the model.
- `Paths.Parse`: a leading "//" is treated as "/". `pathlib` keeps exactly two leading slashes as a root of its own, so `str` of such a path differs from the model's.
- TOML parsing and serialisation (`tomli`, `tomli_w`) are not modelled. A document is a flat record of strings, string lists and (before writing) paths. A file that is not TOML is one `DecodeError`.
- Pydantic's coercions and error aggregation are not modelled. A field of the wrong type fails, and the first invalid field (in schema order) is the one reported. A path field accepts a string or a path.
- `Documents.AssetField`: does not model asset paths with ".." or a symbolic link. `pathlib` keeps ".." as a part, and so does the model, but the filesystem lookup that resolves it is not modelled.
- Directory creation (`_ensure_path`, `mkdir`) is not modelled: a directory exists exactly when some file lies below it. Failures of `mkdir` and of opening a file for writing are not modelled either. `Blocked` covers the read-side OS errors.
- The order of `Path.iterdir()` is platform-defined, so it is a parameter (`listing`). `Lists` requires only that it lists each directory's entries once.
- The context variable of `models.set_context` is passed as an explicit comic path.
- Exception messages (`scuzzie/exc.py`, and the f-strings of the core) are reduced to the error kind and its data.
- `__str__` and `__repr__` of the resources are not modelled.
- `scuzzie/cli.py`, `scuzzie/gui.py`, `scuzzie/generator.py`, `scuzzie/templator.py` and `scuzzie/schemas.py` are not part of this model.
- `RoundTrip.WriteThenRead`: the round trip is stated for "placed" comics only. In a placed comic every slug is non-empty, every entity is stored under its own slug, every page's volume path is `<root>/volumes/<slug>`, every order list has no duplicates, and every listed slug has an entity. Nothing may lie below `<root>/volumes` beforehand. A comic built in memory with `create_volume` does not meet this, because its volumes have no path (see below).

## Where the code differs from its description

- On load, a volume's or page's key is the slug recomputed from its title, not the name of its directory. The model follows the code, so the round trip requires `k == Slugify(title)`.
- A comic built entirely in memory (`create_volume`, then `create_page`) cannot be saved once it has a page. The page's volume has no path, so `_write_page` raises after the volume's document is written. `Saver.PageWithoutVolumePathFails` states this.
- Pages are written under their volume's own `path`, not under the target the comic is being written to.
- The `if not comic.path` guard of `read_comic` can never fire, because the comic was just built with that path. `LoadComic` has no such branch, and `VolumesRead` keeps the guard of `_read_volumes`.
- A volume that lists a page with no directory is rejected, but a comic that lists a volume with no directory is not (`Loader.ListedVolumesNotChecked`).

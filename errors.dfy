/** The error kinds the core raises (scuzzie/exc.py), plus the Python
    exceptions that escape from it uncaught. */
module Errors {
  import opened Paths

  /** Which configuration file a `ScuzzieConfigError` subclass blames. */
  datatype FileType = ComicFile | VolumeFile | PageFile

  datatype Reason =
    | NotFound(path: Path)                                 // _try_read_toml: FileNotFoundError
    | Invalid(field: string)                               // a `models` schema rejects this field
    | MissingPages(title: string, slugs: seq<string>)      // _read_pages: listed pages without a directory
    | NoVolumePath                                         // _write_page: page has no volume with a path

  /** Why a plain `ScuzzieError` was raised. */
  datatype Cause =
    | AlreadyExists(slug: string)     // add_page / add_volume with a slug already in the map
    | PageNotInVolume                 // Page.url before the page was added to a volume
    | VolumeWithoutPath               // Volume.url of a virtual volume
    | AmbiguousTarget                 // _ensure_comic_has_path: not exactly one of comic.path and path
    | VirtualComic                    // the "this should never happen" guards on a comic without a path
    | VirtualVolume                   // the same guard of _read_pages on a volume without a path

  datatype Error =
    | ConfigError(file: FileType, reason: Reason)   // ScuzzieComic/Volume/PageConfigError
    | ScuzzieError(cause: Cause)
    | KeyError(key: string)                         // a dict lookup of a listed slug that has no entity
    | ValidationError(asset: Path)                  // a schema built while writing rejects an asset path
    | DecodeError(path: Path)                       // a document path holds a file that is not TOML
    | OSError(path: Path)                           // a document path is a directory, or lies below a file
}

/** The manifest, the file system it describes and the file index of a record run. */
module Manifests {
  import opened Wrappers

  /** A Go slice: nil and empty differ when encoded, nowhere else. */
  datatype Slice<+T> = Nil | Of(elems: seq<T>) {
    function Items(): seq<T> {
      if Nil? then [] else elems
    }
  }

  /** A slice appended to from nil. */
  function Grown<T>(items: seq<T>): Slice<T> {
    if items == [] then Nil else Of(items)
  }

  /** A content hash in hex; what it is the hash of stays uninterpreted. */
  type Digest = s: string | s != "" witness "0"
  type Name = s: string | s != "" witness "x"

  /** A name in the listing of a directory. */
  type EntryName = s: string | s != "" && s != "." && s != ".." && '/' !in s witness "x"

  datatype FileAttrs = FileAttrs(sha256: Digest, size: int, mtime: int, mode: string)
  type FileIndex = map<string, FileAttrs>

  datatype ManifestFile = ManifestFile(path: string, sha256: string, mode: string, size: int, mtime: int)
  datatype ManifestPackage = ManifestPackage(name: string, version: string)
  datatype ManifestService = ManifestService(name: string, running: bool, enabled: bool)

  datatype Manifest = Manifest(
    schemaVersion: int,
    generatedAt: int,
    files: Slice<ManifestFile>,
    packages: Slice<ManifestPackage>,
    services: Slice<ManifestService>,
    packageSnapshot: Slice<string>,
    serviceSnapshot: Slice<string>)

  function ToManifestFile(path: string, a: FileAttrs): ManifestFile {
    ManifestFile(path, a.sha256, a.mode, a.size, a.mtime)
  }

  /** What `stat` finds at a path; `readable` says whether the content can be hashed. */
  datatype Target =
    | Denied
    | Dir(listing: Option<seq<EntryName>>)
    | File(regular: bool, attrs: FileAttrs, readable: bool)

  /** A directory entry: `link` marks a symbolic link, whose target `stat` reports. */
  datatype Node = Node(link: bool, target: Target)

  type FileSystem = map<string, Node>
}

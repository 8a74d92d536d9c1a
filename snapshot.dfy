/**
 * A finite, read-only snapshot of the part of the filesystem the renderer
 * walks. It stands in for `os.listdir` and `os.path.isdir`: a directory
 * carries the outcome of listing it, which is either its entries in the
 * order the operating system returned them, a permission failure, or any
 * other failure with its message (`str(e)`).
 */
module Snapshot {

  datatype Listing =
    | Ok(entries: seq<Entry>)
    | Denied
    | Failed(msg: string)

  datatype Entry =
    | File(name: string)
    | Dir(name: string, listing: Listing)

  /** No two entries of one directory share a name, as on every real filesystem. */
  predicate DistinctNames(es: seq<Entry>)
  {
    forall i, j :: 0 <= i < j < |es| ==> es[i].name != es[j].name
  }
}

/** Entries of the remote tree and the positions the controller caches listings for. */
module Tree {

  import opened Optional

  /** One entry of the remote tree as the retrieval endpoint delivers it. Only files
      carry a path for the image preview. */
  datatype Node =
    | Directory(id: string, name: string)
    | File(id: string, name: string, filePath: string)

  /** A position whose child listing can be cached: the root, or a directory by id.
      The App keys its cache object by plain strings, using `"root"` for the root
      and the directory's id otherwise, so a directory whose id were literally "root"
      would share the root's entry. The separate constructors here keep the two apart. */
  datatype Key = Root | Dir(id: string)

  /** What one call of the retrieval endpoint produced: the child listing, or a failure
      (transport or server error, which the App rethrows as one generic error). */
  datatype FetchOutcome = Ok(listing: seq<Node>) | Err

  /** The position a breadcrumb stack leads to: the root when it is empty, otherwise the
      directory on top. */
  function PositionKey(depth: seq<Node>): Key
  {
    if depth == [] then Root else Dir(depth[|depth| - 1].id)
  }

}

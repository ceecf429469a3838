/**
 * The part of the file system the upload endpoints touch: the set of paths
 * that currently exist. Contents are not modelled.
 */
module FileStore {

  class Store {
    var existing: set<string>

    constructor (initial: set<string>)
      ensures existing == initial
    {
      existing := initial;
    }

    /** `os.path.exists(path)`. */
    predicate Exists(path: string)
      reads this
    {
      path in existing
    }

    /** `open(path, "wb")` followed by a write: the path exists afterwards. */
    method Write(path: string)
      modifies this
      ensures existing == old(existing) + {path}
    {
      existing := existing + {path};
    }

    /** `os.remove(path)` on an existing path. */
    method Remove(path: string)
      requires path in existing
      modifies this
      ensures existing == old(existing) - {path}
    {
      existing := existing - {path};
    }
  }
}

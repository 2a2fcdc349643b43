/** The session record the controller replaces on every transition, the module-wide
    cache of fetched listings, and what it means for the two to agree. */
module Store {

  import opened Optional
  import opened Tree

  /** Fetched child listings by position. Entries are written once and never removed. */
  type Cache = map<Key, seq<Node>>

  /** The session record. `nodes` is None when the App stored `undefined` (a read of a
      cache key that was never written); `selectedFilePath` is None for `null`. */
  datatype State = State(
    isRoot: bool,
    nodes: Option<seq<Node>>,
    depth: seq<Node>,
    selectedFilePath: Option<string>,
    isLoading: bool)

  /** The record the App starts with, before `init` runs. */
  const Initial: State := State(true, Some([]), [], None, false)

  /** A plain property read of the cache object: `undefined` when the key was never written. */
  function Lookup(cache: Cache, k: Key): Option<seq<Node>>
  {
    if k in cache then Some(cache[k]) else None
  }

  /** The fields that say where the session is in the tree. */
  predicate SamePosition(a: State, b: State) {
    a.isRoot == b.isRoot && a.nodes == b.nodes && a.depth == b.depth
  }

  /** The consistency the handlers rely on: the root and every directory on the breadcrumb
      stack are cached, the root flag agrees with the stack, the shown listing is the cached
      one for the current position, and no fetch is outstanding. */
  predicate Consistent(s: State, cache: Cache) {
    && Root in cache
    && (forall n :: n in s.depth ==> n.Directory? && Dir(n.id) in cache)
    && (s.isRoot <==> s.depth == [])
    && PositionKey(s.depth) in cache
    && s.nodes == Some(cache[PositionKey(s.depth)])
    && !s.isLoading
  }

  /** `after` keeps every entry of `before` with the same listing. */
  predicate Extends(before: Cache, after: Cache) {
    forall k :: k in before ==> k in after && after[k] == before[k]
  }

  /** What one handler invocation did: the states it passed to `setState`, in order, the
      cache afterwards, the position it fetched (if any), and whether it threw. */
  datatype Effect = Effect(
    renders: seq<State>,
    cache: Cache,
    fetched: Option<Key>,
    failed: bool)
  {
    /** The state the store holds once the handler has returned or thrown. */
    function Final(before: State): State
    {
      if renders == [] then before else renders[|renders| - 1]
    }
  }

  /** The state and cache between two user actions. */
  datatype Session = Session(state: State, cache: Cache)

}

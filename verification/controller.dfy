/** The click handlers of the App and its start-up routine, each as a pure function from
    the current state and cache (and, where the handler awaits the endpoint, the outcome
    of that one fetch) to the effect the handler has. */
module Controller {

  import opened Optional
  import opened Tree
  import opened Store

  /** `t` is `s` after entering directory `node` whose listing is `listing`; the preview
      path is carried over. */
  predicate Entered(s: State, t: State, node: Node, listing: seq<Node>) {
    && t.depth == s.depth + [node]
    && !t.isRoot
    && t.nodes == Some(listing)
    && t.selectedFilePath == s.selectedFilePath
  }

  /** Start-up: show the loading indicator, fetch the root listing, show and cache it, and
      in every case clear the indicator again. The cache is the empty module-level object. */
  function Init(fetch: FetchOutcome): (e: Effect)
    ensures e.fetched == Some(Root)
    ensures |e.renders| >= 2 && e.renders[0] == Initial.(isLoading := true)
    ensures !e.Final(Initial).isLoading
    ensures fetch.Ok? ==>
      && !e.failed
      && e.cache == map[Root := fetch.listing]
      && e.Final(Initial).isRoot && e.Final(Initial).depth == []
      && e.Final(Initial).nodes == Some(fetch.listing)
      && e.Final(Initial).selectedFilePath == None
    ensures fetch.Err? ==> e.failed && e.cache == map[] && e.Final(Initial) == Initial
  {
    var loading := Initial.(isLoading := true);
    match fetch
    case Ok(listing) =>
      var shown := loading.(isRoot := true, nodes := Some(listing));
      Effect([loading, shown, shown.(isLoading := false)], map[Root := listing], Some(Root), false)
    case Err =>
      Effect([loading, loading.(isLoading := false)], map[], Some(Root), true)
  }

  /** A breadcrumb click: `None` is the root crumb, `Some(i)` the crumb of `depth[i]`.
      Clicking the crumb of the current directory does nothing; any other crumb truncates
      the stack just after it and shows that directory's cached listing, read without a
      presence check. Like `Array.prototype.slice`, an index past the end keeps the whole
      stack; with an empty stack the kept part is empty and reading its last entry's id
      throws. */
  function ClickCrumb(s: State, cache: Cache, index: Option<nat>): (e: Effect)
    ensures e.cache == cache && e.fetched == None
    ensures index.None? ==>
      && !e.failed && |e.renders| == 1
      && e.Final(s).depth == [] && e.Final(s).isRoot
      && e.Final(s).nodes == Lookup(cache, Root)
      && e.Final(s).selectedFilePath == s.selectedFilePath
      && e.Final(s).isLoading == s.isLoading
    ensures index.Some? && index.value + 1 == |s.depth| ==>
      !e.failed && e.renders == [] && e.Final(s) == s
    ensures index.Some? && index.value + 1 < |s.depth| ==>
      && !e.failed && |e.renders| == 1
      && e.Final(s).depth == s.depth[..index.value + 1]
      && e.Final(s).nodes == Lookup(cache, Dir(s.depth[index.value].id))
      && e.Final(s).isRoot == s.isRoot
      && e.Final(s).selectedFilePath == s.selectedFilePath
      && e.Final(s).isLoading == s.isLoading
    ensures index.Some? && index.value + 1 > |s.depth| ==>
      if s.depth == [] then e.failed && e.renders == []
      else !e.failed && |e.renders| == 1 && e.Final(s) == s.(nodes := Lookup(cache, PositionKey(s.depth)))
  {
    match index
    case None =>
      Effect([s.(depth := [], isRoot := true, nodes := Lookup(cache, Root))], cache, None, false)
    case Some(i) =>
      if i == |s.depth| - 1 then
        Effect([], cache, None, false)
      else
        var kept := if i + 1 < |s.depth| then i + 1 else |s.depth|;
        if kept == 0 then
          Effect([], cache, None, true)
        else
          var nextDepth := s.depth[..kept];
          Effect([s.(depth := nextDepth, nodes := Lookup(cache, Dir(nextDepth[kept - 1].id)))], cache, None, false)
  }

  /** A click on an entry of the listing. A cached directory is entered at once; an
      uncached one first shows the loading indicator, then awaits `fetch` and on success
      enters it and caches the listing, on failure rethrows. A file becomes the preview.
      On every path a final replacement clears the loading indicator. */
  function ClickNode(s: State, cache: Cache, node: Node, fetch: FetchOutcome): (e: Effect)
    ensures |e.renders| >= 2 && !e.Final(s).isLoading
    ensures node.File? ==>
      && !e.failed && e.cache == cache && e.fetched == None
      && SamePosition(e.Final(s), s)
      && e.Final(s).selectedFilePath == Some(node.filePath)
    ensures node.Directory? && Dir(node.id) in cache ==>
      && !e.failed && e.cache == cache && e.fetched == None
      && Entered(s, e.Final(s), node, cache[Dir(node.id)])
    ensures node.Directory? && Dir(node.id) !in cache ==>
      && e.fetched == Some(Dir(node.id))
      && e.renders[0] == s.(isLoading := true)
    ensures node.Directory? && Dir(node.id) !in cache && fetch.Ok? ==>
      && !e.failed
      && e.cache == cache[Dir(node.id) := fetch.listing]
      && Entered(s, e.Final(s), node, fetch.listing)
    ensures node.Directory? && Dir(node.id) !in cache && fetch.Err? ==>
      && e.failed && e.cache == cache
      && SamePosition(e.Final(s), s)
      && e.Final(s).selectedFilePath == s.selectedFilePath
  {
    match node
    case File(_, _, path) =>
      var previewed := s.(selectedFilePath := Some(path));
      Effect([previewed, previewed.(isLoading := false)], cache, None, false)
    case Directory(id, _) =>
      if Dir(id) in cache then
        var entered := s.(depth := s.depth + [node], isRoot := false, nodes := Some(cache[Dir(id)]));
        Effect([entered, entered.(isLoading := false)], cache, None, false)
      else
        var loading := s.(isLoading := true);
        match fetch
        case Ok(listing) =>
          var entered := loading.(depth := loading.depth + [node], isRoot := false, nodes := Some(listing));
          Effect([loading, entered, entered.(isLoading := false)], cache[Dir(id) := listing], Some(Dir(id)), false)
        case Err =>
          Effect([loading, loading.(isLoading := false)], cache, Some(Dir(id)), true)
  }

  /** The back button: drop the top of the breadcrumb stack (nothing to drop at the root)
      and show the cached listing of the position reached, read without a presence check. */
  function ClickBack(s: State, cache: Cache): (e: Effect)
    ensures !e.failed && e.cache == cache && e.fetched == None && |e.renders| == 1
    ensures s.depth == [] ==> e.Final(s).depth == []
    ensures s.depth != [] ==> e.Final(s).depth + [s.depth[|s.depth| - 1]] == s.depth
    ensures e.Final(s).isRoot <==> e.Final(s).depth == []
    ensures e.Final(s).nodes == Lookup(cache, PositionKey(e.Final(s).depth))
    ensures e.Final(s).selectedFilePath == s.selectedFilePath
    ensures e.Final(s).isLoading == s.isLoading
  {
    var popped := if s.depth == [] then [] else s.depth[..|s.depth| - 1];
    if popped == [] then
      Effect([s.(depth := popped, isRoot := true, nodes := Lookup(cache, Root))], cache, None, false)
    else
      var prevId := popped[|popped| - 1].id;
      Effect([s.(depth := popped, isRoot := false, nodes := Lookup(cache, Dir(prevId)))], cache, None, false)
  }

  /** Dismissing the image preview clears the preview path and nothing else. */
  function DismissImage(s: State, cache: Cache): (e: Effect)
    ensures !e.failed && e.cache == cache && e.fetched == None && |e.renders| == 1
    ensures e.Final(s).selectedFilePath == None
    ensures SamePosition(e.Final(s), s) && e.Final(s).isLoading == s.isLoading
  {
    Effect([s.(selectedFilePath := None)], cache, None, false)
  }

  /** A user action, carrying the outcome the endpoint would give if the action fetches. */
  datatype Action =
    | CrumbClick(index: Option<nat>)
    | NodeClick(node: Node, fetch: FetchOutcome)
    | BackClick
    | ImageDismiss

  /** Dispatch one action. Whatever the action, the cache only grows; a fetch is issued
      only for a position not yet cached, and only that position can be added; the
      loading indicator is raised before any fetch and cleared after it. */
  function Step(s: State, cache: Cache, a: Action): (e: Effect)
    ensures Extends(cache, e.cache)
    ensures e.fetched == None ==> e.cache == cache
    ensures e.fetched.Some? ==> e.fetched.value !in cache
    ensures e.fetched.Some? ==> e.cache.Keys <= cache.Keys + {e.fetched.value}
    ensures e.fetched.Some? && !e.failed ==> e.fetched.value in e.cache
    ensures e.fetched.Some? ==> e.renders != [] && e.renders[0].isLoading && !e.Final(s).isLoading
  {
    match a
    case CrumbClick(index) => ClickCrumb(s, cache, index)
    case NodeClick(node, fetch) => ClickNode(s, cache, node, fetch)
    case BackClick => ClickBack(s, cache)
    case ImageDismiss => DismissImage(s, cache)
  }

  /** The session after one action has run to completion. */
  function Next(sess: Session, a: Action): Session {
    var e := Step(sess.state, sess.cache, a);
    Session(e.Final(sess.state), e.cache)
  }

}

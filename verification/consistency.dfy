/** Every handler keeps the session consistent with the cache: the breadcrumb and back
    handlers, which read the cache without a presence check, never read a missing key
    once start-up has cached the root. */
module Consistency {

  import opened Optional
  import opened Tree
  import opened Store
  import opened Controller

  /** A successful start-up leaves a consistent session. */
  lemma InitEstablishes(fetch: FetchOutcome)
    requires fetch.Ok?
    ensures Consistent(Init(fetch).Final(Initial), Init(fetch).cache)
  {
  }

  /** After a failed start-up the root is not cached, so the root crumb shows `undefined`. */
  lemma FailedInitLeavesRootUnknown(fetch: FetchOutcome)
    requires fetch.Err?
    ensures !Consistent(Init(fetch).Final(Initial), Init(fetch).cache)
    ensures ClickCrumb(Initial, Init(fetch).cache, None).Final(Initial).nodes == None
  {
  }

  /** Breadcrumb clicks read only cached listings and keep the session consistent. */
  lemma CrumbPreserves(s: State, cache: Cache, index: Option<nat>)
    requires Consistent(s, cache)
    ensures ClickCrumb(s, cache, index).Final(s).nodes.Some?
    ensures Consistent(ClickCrumb(s, cache, index).Final(s), cache)
  {
  }

  /** Node clicks keep the session consistent on every fetch outcome. */
  lemma NodePreserves(s: State, cache: Cache, node: Node, fetch: FetchOutcome)
    requires Consistent(s, cache)
    ensures Consistent(ClickNode(s, cache, node, fetch).Final(s), ClickNode(s, cache, node, fetch).cache)
  {
  }

  /** Back reads only a cached listing and keeps the session consistent. */
  lemma BackPreserves(s: State, cache: Cache)
    requires Consistent(s, cache)
    ensures ClickBack(s, cache).Final(s).nodes.Some?
    ensures Consistent(ClickBack(s, cache).Final(s), cache)
  {
  }

  /** Dismissing the preview keeps the session consistent. */
  lemma DismissPreserves(s: State, cache: Cache)
    requires Consistent(s, cache)
    ensures Consistent(DismissImage(s, cache).Final(s), cache)
  {
  }

  /** Any single action keeps a consistent session consistent. */
  lemma StepPreserves(sess: Session, a: Action)
    requires Consistent(sess.state, sess.cache)
    ensures Consistent(Next(sess, a).state, Next(sess, a).cache)
  {
    match a
    case CrumbClick(index) => CrumbPreserves(sess.state, sess.cache, index);
    case NodeClick(node, fetch) => NodePreserves(sess.state, sess.cache, node, fetch);
    case BackClick => BackPreserves(sess.state, sess.cache);
    case ImageDismiss => DismissPreserves(sess.state, sess.cache);
  }

}

/** Whole sessions: a sequence of actions run one after another, each to completion
    before the next begins. */
module History {

  import opened Optional
  import opened Tree
  import opened Store
  import opened Controller
  import opened Consistency

  /** The sessions a run of `actions` passes through, starting with `start`. */
  function Trace(start: Session, actions: seq<Action>): (t: seq<Session>)
    ensures |t| == |actions| + 1
    ensures t[0] == start
    ensures forall i :: 0 <= i < |actions| ==> t[i + 1] == Next(t[i], actions[i])
    decreases |actions|
  {
    if actions == [] then [start]
    else [start] + Trace(Next(start, actions[0]), actions[1..])
  }

  /** The session right after a successful start-up. */
  function Started(rootListing: seq<Node>): (sess: Session)
    ensures Consistent(sess.state, sess.cache)
  {
    var e := Init(Ok(rootListing));
    InitEstablishes(Ok(rootListing));
    Session(e.Final(Initial), e.cache)
  }

  /** Every session of a run from a consistent start is consistent. */
  lemma {:induction false} TraceConsistent(start: Session, actions: seq<Action>, i: nat)
    requires Consistent(start.state, start.cache)
    requires i <= |actions|
    ensures Consistent(Trace(start, actions)[i].state, Trace(start, actions)[i].cache)
  {
    if i > 0 {
      var t := Trace(start, actions);
      TraceConsistent(start, actions, i - 1);
      StepPreserves(t[i - 1], actions[i - 1]);
    }
  }

  /** After a successful start-up, whatever the user does, the root flag agrees with the
      breadcrumb stack and the listing shown is the cached listing of the current position. */
  lemma {:induction false} SessionConsistent(rootListing: seq<Node>, actions: seq<Action>, i: nat)
    requires i <= |actions|
    ensures var sess := Trace(Started(rootListing), actions)[i];
      && Root in sess.cache
      && (sess.state.isRoot <==> sess.state.depth == [])
      && PositionKey(sess.state.depth) in sess.cache
      && sess.state.nodes == Some(sess.cache[PositionKey(sess.state.depth)])
  {
    TraceConsistent(Started(rootListing), actions, i);
  }

  /** The cache is write-once along a run: a later cache keeps every listing of an earlier one. */
  lemma {:induction false} TraceCacheGrows(start: Session, actions: seq<Action>, i: nat, j: nat)
    requires i <= j <= |actions|
    ensures Extends(Trace(start, actions)[i].cache, Trace(start, actions)[j].cache)
  {
    var t := Trace(start, actions);
    if i < j {
      TraceCacheGrows(start, actions, i, j - 1);
      assert Extends(t[j - 1].cache, t[j].cache);
    }
  }

  /** Only start-up fetches the root: a node click fetches by directory id, and no other
      action fetches at all, so no action of any run fetches the root. */
  lemma NoRootRefetch(start: Session, actions: seq<Action>, i: nat)
    requires i < |actions|
    ensures EffectAt(start, actions, i).fetched != Some(Root)
  {
  }

  /** The effect of the `i`-th action of a run. */
  function EffectAt(start: Session, actions: seq<Action>, i: nat): Effect
    requires i < |actions|
  {
    var t := Trace(start, actions);
    Step(t[i].state, t[i].cache, actions[i])
  }

  /** Once a position has been fetched successfully, no later action fetches it again. */
  lemma NoRefetchAfterSuccess(start: Session, actions: seq<Action>, i: nat, j: nat)
    requires i < j < |actions|
    requires EffectAt(start, actions, i).fetched.Some?
    requires !EffectAt(start, actions, i).failed
    ensures EffectAt(start, actions, j).fetched != EffectAt(start, actions, i).fetched
  {
    var t := Trace(start, actions);
    var k := EffectAt(start, actions, i).fetched.value;
    assert k in t[i + 1].cache;
    TraceCacheGrows(start, actions, i + 1, j);
  }

  /** Clicking a directory with the same id again after its listing was fetched issues no fetch and shows
      the very listing the first fetch returned. */
  lemma {:induction false} RevisitShowsFirstListing(start: Session, actions: seq<Action>, i: nat, j: nat)
    requires i < j < |actions|
    requires actions[i].NodeClick? && actions[i].node.Directory? && actions[i].fetch.Ok?
    requires Dir(actions[i].node.id) !in Trace(start, actions)[i].cache
    requires actions[j].NodeClick? && actions[j].node.Directory? && actions[j].node.id == actions[i].node.id
    ensures EffectAt(start, actions, j).fetched == None
    ensures Trace(start, actions)[j + 1].state.nodes == Some(actions[i].fetch.listing)
  {
    var t := Trace(start, actions);
    var k := Dir(actions[i].node.id);
    assert t[i + 1].cache[k] == actions[i].fetch.listing;
    TraceCacheGrows(start, actions, i + 1, j);
  }

}

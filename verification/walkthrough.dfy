/** A worked session: a root holding one directory of pictures, one picture in it. */
module Walkthrough {

  import opened Optional
  import opened Tree
  import opened Store
  import opened Controller
  import opened History

  const Pics: Node := Directory("A", "Pics")
  const Picture: Node := File("f1", "x.png", "/x.png")

  /** Enter the uncached directory (one fetch, keyed by its id), preview the picture,
      dismiss it, and go back to the root without fetching. */
  lemma PicturesWalkthrough()
    ensures var start := Started([Pics]);
      // a file click never fetches, so the outcome given with it is ignored
      var actions := [NodeClick(Pics, Ok([Picture])), NodeClick(Picture, Ok([])), ImageDismiss, BackClick];
      var t := Trace(start, actions);
      && EffectAt(start, actions, 0).fetched == Some(Dir("A"))
      && t[1].state == State(false, Some([Picture]), [Pics], None, false)
      && t[2].state.selectedFilePath == Some("/x.png")
      && t[3].state == t[1].state
      && EffectAt(start, actions, 3).fetched == None
      && t[4].state == State(true, Some([Pics]), [], None, false)
  {
  }

}

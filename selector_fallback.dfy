/** Locating the repeating blocks of a page through an ordered list of candidate
    selectors: the first selector that matches anything supplies every block, and the
    selectors after it are never consulted. */
module SelectorFallback {
  import opened Dom

  /** The blocks the fallback chain settles on: the matches of the first selector
      that has any, or none at all. */
  function FirstMatching(d: Document, selectors: seq<Selector>): (r: seq<nat>)
    decreases |selectors|
    ensures forall b | b in r :: b < |d.elements|
    ensures forall i | 0 <= i < |r| :: r[i] < |d.elements|
  {
    if selectors == [] then []
    else
      var found := DocQueryAll(d, selectors[0]);
      if found != [] then
        assert forall i | 0 <= i < |found| :: found[i] in found;
        found
      else FirstMatching(d, selectors[1..])
  }

  /** The loop of the handler: try each selector in order and stop at the first
      one that matches at least one element. */
  method SelectBlocks(d: Document, selectors: seq<Selector>) returns (blocks: seq<nat>)
    ensures blocks == FirstMatching(d, selectors)
  {
    blocks := [];
    for i := 0 to |selectors|
      invariant blocks == []
      invariant FirstMatching(d, selectors) == FirstMatching(d, selectors[i..])
    {
      assert selectors[i..][1..] == selectors[i + 1..];
      var elements := DocQueryAll(d, selectors[i]);
      if |elements| > 0 {
        blocks := elements;
        break;
      }
    }
  }

  /** The chain yields nothing exactly when no candidate selector matches anything. */
  lemma {:induction false} EmptyIffNoSelectorMatches(d: Document, selectors: seq<Selector>)
    ensures FirstMatching(d, selectors) == [] <==> forall s | s in selectors :: DocQueryAll(d, s) == []
    decreases |selectors|
  {
    if selectors != [] {
      EmptyIffNoSelectorMatches(d, selectors[1..]);
      assert forall s | s in selectors :: s == selectors[0] || s in selectors[1..];
    }
  }

  /** First match wins and nothing is merged: a non-empty result is exactly the match
      list of one candidate, and every candidate before it matched nothing. */
  lemma {:induction false} FirstNonEmptyWins(d: Document, selectors: seq<Selector>)
    requires FirstMatching(d, selectors) != []
    ensures exists i :: (0 <= i < |selectors| &&
      FirstMatching(d, selectors) == DocQueryAll(d, selectors[i]) &&
      forall j | 0 <= j < i :: DocQueryAll(d, selectors[j]) == [])
    decreases |selectors|
  {
    if DocQueryAll(d, selectors[0]) == [] {
      FirstNonEmptyWins(d, selectors[1..]);
      var i :| 0 <= i < |selectors| - 1 &&
        FirstMatching(d, selectors[1..]) == DocQueryAll(d, selectors[1..][i]) &&
        forall j | 0 <= j < i :: DocQueryAll(d, selectors[1..][j]) == [];
      assert FirstMatching(d, selectors) == DocQueryAll(d, selectors[i + 1]);
      forall j | 0 <= j < i + 1 ensures DocQueryAll(d, selectors[j]) == [] {
        if j > 0 {
          assert selectors[j] == selectors[1..][j - 1];
        }
      }
    } else {
      assert FirstMatching(d, selectors) == DocQueryAll(d, selectors[0]);
    }
  }

  /** Selectors after the winning one cannot change the outcome. */
  lemma {:induction false} LaterSelectorsIgnored(d: Document, selectors: seq<Selector>, more: seq<Selector>)
    requires FirstMatching(d, selectors) != []
    ensures FirstMatching(d, selectors + more) == FirstMatching(d, selectors)
    decreases |selectors|
  {
    assert (selectors + more)[0] == selectors[0];
    if DocQueryAll(d, selectors[0]) == [] {
      assert (selectors + more)[1..] == selectors[1..] + more;
      LaterSelectorsIgnored(d, selectors[1..], more);
    }
  }
}

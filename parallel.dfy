// The batch evaluators of parallel.go. Go runs one goroutine per card set
// under a semaphore of `workers` slots; each goroutine writes only its own
// slot of the result buffer, so the outcome is that of evaluating the card
// sets one after another, which is what these methods do.
module Parallel {
  import opened Cards
  import opened Errors
  import opened Combinatorics
  import opened Hands
  import opened HandFacts
  import opened Showdown
  import opened Equity

  /**
   * EvaluateHandsBatch: NewHand on every card set, the hand in the set's slot
   * when it is valid and nil otherwise. `workers` only sizes the pool.
   */
  method EvaluateHandsBatch(cardSets: seq<seq<Card>>, workers: int) returns (results: seq<Option<Hand>>)
    ensures results == MadeHands(cardSets) && AllEvaluated(results)
  {
    ghost var hs := MadeHands(cardSets);
    results := seq(|cardSets|, _ => None);
    for i := 0 to |cardSets|
      invariant |results| == |cardSets|
      invariant forall k :: 0 <= k < i ==> results[k] == hs[k]
      invariant forall k :: i <= k < |cardSets| ==> results[k] == None
    {
      var hand := NewHand(cardSets[i]);
      if hand.Ok? {
        results := results[i := Some(hand.value)];
      }
    }
    assert forall k :: 0 <= k < |cardSets| ==> results[k] == hs[k];
    MadeHandsAllEvaluated(cardSets);
  }

  /** EvaluateAndCompareBatch: the batch's hands, then the winners loop over them (see BatchWinnersMeaning). */
  method EvaluateAndCompareBatch(cardSets: seq<seq<Card>>, workers: int) returns (bestIndices: seq<nat>, bestHand: Option<Hand>)
    ensures Standing(bestIndices, bestHand) == WinnersBy(MadeHands(cardSets), Compare)
  {
    var hands := EvaluateHandsBatch(cardSets, workers);
    bestIndices, bestHand := BatchWinners(hands);
  }

  /** EvaluateAndCompareBatch's winners loop over the batch's hands, skipping nil ones. */
  method BatchWinners(hands: seq<Option<Hand>>) returns (bestIndices: seq<nat>, bestHand: Option<Hand>)
    ensures Standing(bestIndices, bestHand) == WinnersBy(hands, Compare)
  {
    bestIndices := [];
    bestHand := None;
    for i := 0 to |hands|
      invariant Standing(bestIndices, bestHand) == WinnersBy(hands[..i], Compare)
    {
      assert hands[..i + 1][..i] == hands[..i];
      var hand := hands[i];
      if hand.None? {
        continue;
      }
      if bestHand.None? {
        bestIndices := [i];
        bestHand := hand;
        continue;
      }
      var cmp := Compare(hand.value, bestHand.value);
      if cmp > 0 {
        bestIndices := [i];
        bestHand := hand;
      } else if cmp == 0 {
        bestIndices := bestIndices + [i];
      }
    }
    assert hands[..|hands|] == hands;
  }

  /**
   * What EvaluateAndCompareBatch returns: the indices, in order, of the card
   * sets that make a valid hand no other valid hand of the batch beats, and
   * the hand at the first of them; nothing at all exactly when no card set
   * makes a valid hand.
   */
  lemma BatchWinnersMeaning(cardSets: seq<seq<Card>>)
    ensures var w := WinnersBy(MadeHands(cardSets), Compare);
      && (w.best.None? <==> forall i :: 0 <= i < |cardSets| ==> MakeHand(cardSets[i]).Err?)
      && (w.winners == [] <==> w.best.None?)
      && Increasing(w.winners)
      && (forall k :: 0 <= k < |w.winners| ==> w.winners[k] < |cardSets|)
      && (forall i :: 0 <= i < |cardSets| ==>
            (i in w.winners <==> MakeHand(cardSets[i]).Ok? && IsTop(MadeHands(cardSets), MakeHand(cardSets[i]).value)))
      && (w.winners != [] ==> w.best == Some(MakeHand(cardSets[w.winners[0]]).value))
      && (forall k :: 0 <= k < |w.winners| ==>
            w.best.Some? && Ties(MakeHand(cardSets[w.winners[k]]).value, w.best.value))
  {
    var hs := MadeHands(cardSets);
    MadeHandsAllEvaluated(cardSets);
    WinnersMeaning(hs);
    WinnersShape(hs, Compare);
  }
}

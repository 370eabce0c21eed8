// Equity by sampled and by enumerated board runouts (equity.go). The float
// Equity field is not modelled; the random shuffles of the sampling mode are an
// input, one permutation of the remaining cards per trial; the workers run one
// after another.
module Equity {
  import opened Cards
  import opened Errors
  import opened Combinatorics
  import opened Hands
  import opened HandFacts
  import opened Decks
  import opened Showdown
  import opened Runouts
  import opened Counters
  import opened Split

  /** The calculator holds only its worker count. */
  datatype EquityCalculator = EquityCalculator(workers: int)

  /** A positive count is kept; any other is replaced by the host's CPU count, itself positive. */
  function NewEquityCalculator(workers: int, numCPU: int): (ec: EquityCalculator)
    requires numCPU >= 1
    ensures ec.workers >= 1
    ensures workers > 0 ==> ec.workers == workers
    ensures workers <= 0 ==> ec.workers == numCPU
  {
    EquityCalculator(if workers <= 0 then numCPU else workers)
  }

  // ---------------------------------------------------------------------------
  // Best hands and winners.

  /** CardCombinations(cards, 5). */
  function FiveCardCombos(cards: seq<Card>): (r: seq<seq<Card>>)
    ensures |cards| < HandSize ==> r == []
  {
    if |cards| < HandSize then [] else Choose(cards, 0, HandSize)
  }

  /** NewHand on each combination, nil on error. */
  ghost function MadeHands(combos: seq<seq<Card>>): (hs: seq<Option<Hand>>)
    ensures |hs| == |combos|
    ensures forall i :: 0 <= i < |combos| ==> hs[i] == Made(MakeHand(combos[i]))
  {
    seq(|combos|, i requires 0 <= i < |combos| => Made(MakeHand(combos[i])))
  }

  /** Hands NewHand makes are evaluated. */
  lemma MadeHandsAllEvaluated(combos: seq<seq<Card>>)
    ensures AllEvaluated(MadeHands(combos))
  {
    forall i | Present(MadeHands(combos), i) ensures Evaluated(MadeHands(combos)[i].value) {
      MadeHandsEvaluated(combos[i]);
    }
  }

  /** findBestHand's result for the given cards. */
  ghost function BestHandOf(cards: seq<Card>): Option<Hand> {
    BestBy(MadeHands(FiveCardCombos(cards)), Compare)
  }

  /** findBestHand: NewHand on every 5-card combination, keeping a hand only if it beats the best so far. */
  method FindBestHand(cards: seq<Card>) returns (best: Option<Hand>)
    ensures best == BestHandOf(cards)
  {
    var combos := CardCombinations(cards, 5);
    assert combos == FiveCardCombos(cards);
    ghost var hs := MadeHands(combos);
    best := None;
    for i := 0 to |combos|
      invariant best == BestBy(hs[..i], Compare)
    {
      assert hs[..i + 1][..i] == hs[..i];
      var hand := NewHand(combos[i]);
      if hand.Err? {
        continue;
      }
      if best.None? || Beats(hand.value, best.value) {
        best := Some(hand.value);
      }
    }
    assert hs[..|combos|] == hs;
  }

  /**
   * findBestHand returns nil exactly when no 5-card combination is a valid
   * hand (in particular for fewer than 5 cards); otherwise the hand of some
   * combination that no combination's hand beats, and that beats the hands of
   * all earlier combinations, so the first of equal hands is kept.
   */
  lemma BestHandMeaning(cards: seq<Card>)
    ensures var combos := FiveCardCombos(cards);
      && (BestHandOf(cards).None? <==> forall i :: 0 <= i < |combos| ==> MakeHand(combos[i]).Err?)
      && (BestHandOf(cards).Some? ==>
            Evaluated(BestHandOf(cards).value)
            && exists k :: FirstTop(MadeHands(combos), k) && MakeHand(combos[k]) == Ok(BestHandOf(cards).value))
  {
    var combos := FiveCardCombos(cards);
    var hs := MadeHands(combos);
    MadeHandsAllEvaluated(combos);
    BestMeaning(hs);
    if BestHandOf(cards).Some? {
      var k :| FirstTop(hs, k) && hs[k] == BestHandOf(cards);
      assert Present(hs, k);
      assert MakeHand(combos[k]) == Ok(BestHandOf(cards).value);
    }
  }

  /** findWinnerIndices: the winners loop, skipping nil entries. */
  method FindWinnerIndices(hands: seq<Option<Hand>>) returns (winners: seq<nat>)
    ensures winners == WinnersBy(hands, Compare).winners
  {
    winners := [];
    var bestHand: Option<Hand> := None;
    for i := 0 to |hands|
      invariant Standing(winners, bestHand) == WinnersBy(hands[..i], Compare)
    {
      assert hands[..i + 1][..i] == hands[..i];
      var hand := hands[i];
      if hand.None? {
        continue;
      }
      if bestHand.None? {
        winners := [i];
        bestHand := hand;
        continue;
      }
      var cmp := Compare(hand.value, bestHand.value);
      if cmp > 0 {
        winners := [i];
        bestHand := hand;
      } else if cmp == 0 {
        winners := winners + [i];
      }
    }
    assert hands[..|hands|] == hands;
  }

  /** Every player's best hand on one full board. */
  ghost function BestHands(holeCards: seq<seq<Card>>, fullBoard: seq<Card>): (hs: seq<Option<Hand>>)
    ensures |hs| == |holeCards|
    ensures forall i :: 0 <= i < |holeCards| ==> hs[i] == BestHandOf(holeCards[i] + fullBoard)
  {
    seq(|holeCards|, i requires 0 <= i < |holeCards| => BestHandOf(holeCards[i] + fullBoard))
  }

  /** The winning indices of one trial on the given full board. */
  ghost function WinnersAt(holeCards: seq<seq<Card>>, fullBoard: seq<Card>): seq<nat> {
    WinnersBy(BestHands(holeCards, fullBoard), Compare).winners
  }

  /** The players' best hands on one full board, player by player. */
  method BestHandsOn(holeCards: seq<seq<Card>>, fullBoard: seq<Card>) returns (bestHands: seq<Option<Hand>>)
    ensures bestHands == BestHands(holeCards, fullBoard)
  {
    bestHands := [];
    for i := 0 to |holeCards|
      invariant bestHands == BestHands(holeCards[..i], fullBoard)
    {
      var best := FindBestHand(holeCards[i] + fullBoard);
      BestHandsStep(holeCards, fullBoard, i);
      bestHands := bestHands + [best];
    }
    assert holeCards[..|holeCards|] == holeCards;
  }

  /** One more player adds that player's best hand. */
  lemma BestHandsStep(holeCards: seq<seq<Card>>, fullBoard: seq<Card>, i: nat)
    requires i < |holeCards|
    ensures BestHands(holeCards[..i + 1], fullBoard)
         == BestHands(holeCards[..i], fullBoard) + [BestHandOf(holeCards[i] + fullBoard)]
  {
    assert holeCards[..i + 1][i] == holeCards[i];
    assert forall k :: 0 <= k < i ==> holeCards[..i + 1][k] == holeCards[..i][k];
  }

  /** One trial: each player's best hand over hole plus board cards, then the winners. */
  method PlayOut(holeCards: seq<seq<Card>>, fullBoard: seq<Card>) returns (winners: seq<nat>)
    ensures winners == WinnersAt(holeCards, fullBoard)
  {
    var bestHands := BestHandsOn(holeCards, fullBoard);
    winners := FindWinnerIndices(bestHands);
  }

  /**
   * A trial's winners are increasing player indices, each a player whose best
   * hand no other player's best hand beats, and every such player is listed.
   */
  lemma WinnersAtMeaning(holeCards: seq<seq<Card>>, fullBoard: seq<Card>)
    ensures var w, hs := WinnersAt(holeCards, fullBoard), BestHands(holeCards, fullBoard);
      && Increasing(w)
      && (forall k :: 0 <= k < |w| ==> w[k] < |holeCards|)
      && (forall i :: 0 <= i < |holeCards| ==> (i in w <==> hs[i].Some? && IsTop(hs, hs[i].value)))
  {
    var hs := BestHands(holeCards, fullBoard);
    forall i | Present(hs, i) ensures Evaluated(hs[i].value) {
      BestHandMeaning(holeCards[i] + fullBoard);
    }
    WinnersMeaning(hs);
  }

  /**
   * o lists, trial by trial, the winners on each full board. The winners of a
   * trial are read off only where that trial's WinnersAt is mentioned, so the
   * accounting of the counters never evaluates a showdown.
   */
  ghost predicate Judged(holeCards: seq<seq<Card>>, fullBoards: seq<seq<Card>>, o: seq<seq<nat>>) {
    && |o| == |fullBoards|
    && forall t {:trigger WinnersAt(holeCards, fullBoards[t])} ::
         0 <= t < |fullBoards| ==> o[t] == WinnersAt(holeCards, fullBoards[t])
  }

  /** The trials' winners are determined by the full boards. */
  lemma JudgedUnique(holeCards: seq<seq<Card>>, fullBoards: seq<seq<Card>>, o1: seq<seq<nat>>, o2: seq<seq<nat>>)
    requires Judged(holeCards, fullBoards, o1) && Judged(holeCards, fullBoards, o2)
    ensures o1 == o2
  {
    forall t | 0 <= t < |o1| ensures o1[t] == o2[t] {
      assert o1[t] == WinnersAt(holeCards, fullBoards[t]);
    }
  }

  lemma JudgedAppend(holeCards: seq<seq<Card>>, fullBoards: seq<seq<Card>>, o: seq<seq<nat>>,
                     fullBoard: seq<Card>, winners: seq<nat>)
    requires Judged(holeCards, fullBoards, o) && winners == WinnersAt(holeCards, fullBoard)
    ensures Judged(holeCards, fullBoards + [fullBoard], o + [winners])
  {
    var fbs, o' := fullBoards + [fullBoard], o + [winners];
    forall t | 0 <= t < |fbs| ensures o'[t] == WinnersAt(holeCards, fbs[t]) {
      if t < |fullBoards| {
        assert fbs[t] == fullBoards[t];
        assert o[t] == WinnersAt(holeCards, fullBoards[t]);
      }
    }
  }

  lemma JudgedConcat(holeCards: seq<seq<Card>>, fa: seq<seq<Card>>, oa: seq<seq<nat>>,
                     fb: seq<seq<Card>>, ob: seq<seq<nat>>)
    requires Judged(holeCards, fa, oa) && Judged(holeCards, fb, ob)
    ensures Judged(holeCards, fa + fb, oa + ob)
  {
    var fbs, o := fa + fb, oa + ob;
    forall t | 0 <= t < |fbs| ensures o[t] == WinnersAt(holeCards, fbs[t]) {
      if t < |fa| {
        assert fbs[t] == fa[t];
        assert oa[t] == WinnersAt(holeCards, fa[t]);
      } else {
        assert fbs[t] == fb[t - |fa|];
        assert ob[t - |fa|] == WinnersAt(holeCards, fb[t - |fa|]);
      }
    }
  }

  lemma JudgedExtend(holeCards: seq<seq<Card>>, fbs: seq<seq<Card>>, a: nat, b: nat, oa: seq<seq<nat>>, ob: seq<seq<nat>>)
    requires a <= b <= |fbs|
    requires Judged(holeCards, fbs[..a], oa) && Judged(holeCards, fbs[a..b], ob)
    ensures Judged(holeCards, fbs[..b], oa + ob)
  {
    PrefixSplit(fbs, a, b);
    JudgedConcat(holeCards, fbs[..a], oa, fbs[a..b], ob);
  }

  /** A worker's trials over its slice of the runouts continue the trials before it. */
  lemma JudgedWorker(holeCards: seq<seq<Card>>, board: seq<Card>, runouts: seq<seq<Card>>, n: int,
                     a: nat, b: nat, prior: seq<seq<nat>>, own: seq<seq<nat>>)
    requires a <= b <= |runouts|
    requires runouts != [] ==> n >= 0
    requires forall t :: 0 <= t < |runouts| ==> n <= |runouts[t]|
    requires Judged(holeCards, FullBoards(board, runouts, n)[..a], prior)
    requires Judged(holeCards, FullBoards(board, runouts[a..b], n), own)
    ensures Judged(holeCards, FullBoards(board, runouts, n)[..b], prior + own)
  {
    FullBoardsSlice(board, runouts, n, a, b);
    JudgedExtend(holeCards, FullBoards(board, runouts, n), a, b, prior, own);
  }

  /** Every trial lists its winners once each, so no player is credited twice in a trial. */
  lemma OutcomesBound(holeCards: seq<seq<Card>>, fullBoards: seq<seq<Card>>, o: seq<seq<nat>>, i: nat)
    requires Judged(holeCards, fullBoards, o)
    ensures WinTotal(o, i) + TieTotal(o, i) <= |fullBoards|
  {
    forall t | 0 <= t < |o| ensures Increasing(o[t]) {
      WinnersAtMeaning(holeCards, fullBoards[t]);
    }
    TotalsBound(o, i);
  }

  /** One trial's credits: the winners on the full board, then a win or ties for them. */
  method Trial(holeCards: seq<seq<Card>>, fullBoard: seq<Card>, wins: array<int>, ties: array<int>)
    returns (winners: seq<nat>)
    requires wins != ties && wins.Length == ties.Length == |holeCards|
    modifies wins, ties
    ensures winners == WinnersAt(holeCards, fullBoard)
    ensures forall i :: 0 <= i < wins.Length ==> wins[i] == old(wins[i]) + WinCredit(winners, i)
    ensures forall i :: 0 <= i < ties.Length ==> ties[i] == old(ties[i]) + TieCredit(winners, i)
  {
    winners := PlayOut(holeCards, fullBoard);
    WinnersAtMeaning(holeCards, fullBoard);
    Credit(winners, wins, ties);
  }

  // ---------------------------------------------------------------------------
  // The sampling mode.

  /**
   * runSimulations: numSims trials, trial t on the shuffled copy runouts[t] of
   * the deck, each adding its credits to the shared counters; o holds the
   * winners of every trial.
   */
  method RunSimulations(holeCards: seq<seq<Card>>, board: seq<Card>, deck: seq<Card>,
                        cardsNeeded: int, numSims: int, runouts: seq<seq<Card>>,
                        wins: array<int>, ties: array<int>) returns (ghost o: seq<seq<nat>>)
    requires wins != ties && wins.Length == ties.Length == |holeCards|
    requires numSims > 0 ==> |board| <= 5 && 0 <= cardsNeeded <= |deck|
    requires |runouts| == (if numSims > 0 then numSims else 0) && Shuffles(runouts, deck)
    modifies wins, ties
    ensures forall t :: 0 <= t < |runouts| ==> cardsNeeded <= |runouts[t]|
    ensures Judged(holeCards, FullBoards(board, runouts, cardsNeeded), o)
    ensures forall i :: 0 <= i < wins.Length ==>
      wins[i] == old(wins[i]) + WinTotal(o, i) && ties[i] == old(ties[i]) + TieTotal(o, i)
  {
    ShufflesLength(runouts, deck);
    ghost var fbs := FullBoards(board, runouts, cardsNeeded);
    o := [];
    for sim := 0 to |runouts|
      invariant Judged(holeCards, fbs[..sim], o)
      invariant forall i :: 0 <= i < wins.Length ==>
        wins[i] == old(wins[i]) + WinTotal(o, i) && ties[i] == old(ties[i]) + TieTotal(o, i)
    {
      var localDeck := runouts[sim];
      var fullBoard := board + localDeck[..cardsNeeded];
      assert fullBoard == fbs[sim];
      ghost var prior, priorTies := wins[..], ties[..];
      var winners := Trial(holeCards, fullBoard, wins, ties);
      CountersStep(wins[..], ties[..], old(wins[..]), old(ties[..]), o, winners, prior, priorTies);
      PrefixStep(fbs, sim);
      JudgedAppend(holeCards, fbs[..sim], o, fullBoard, winners);
      o := o + [winners];
    }
    assert fbs[..|runouts|] == fbs;
  }

  /**
   * Calculate: the used cards, the remaining deck, the split of the trials
   * over the workers, and one result per player with Total = simulations.
   * `runouts` holds the shuffled deck of every trial in turn; `outcomes` the
   * winners of every trial.
   */
  method Calculate(ec: EquityCalculator, holeCards: seq<seq<Card>>, board: seq<Card>,
                   simulations: int, runouts: seq<seq<Card>>)
    returns (results: seq<EquityResult>, ghost outcomes: seq<seq<nat>>)
    requires ec.workers > 0
    requires |runouts| == (if simulations > 0 then simulations else 0)
    requires Shuffles(runouts, Remaining(KeysOf(Flatten(holeCards) + board)))
    requires simulations > 0 ==> |board| <= 5 && 5 - |board| <= |Remaining(KeysOf(Flatten(holeCards) + board))|
    ensures forall t :: 0 <= t < |runouts| ==> 5 - |board| <= |runouts[t]|
    ensures Judged(holeCards, FullBoards(board, runouts, 5 - |board|), outcomes)
    ensures results == ResultsOf(outcomes, simulations, |holeCards|)
    ensures |results| == |holeCards|
    ensures forall i :: 0 <= i < |results| ==>
      results[i].wins + results[i].ties + results[i].losses == results[i].total == simulations
    ensures simulations >= 0 ==> forall i :: 0 <= i < |results| ==>
      0 <= results[i].wins && 0 <= results[i].ties && 0 <= results[i].losses
  {
    var numPlayers := |holeCards|;
    var wins := new int[numPlayers](_ => 0);
    var ties := new int[numPlayers](_ => 0);
    var remainingDeck := RemainingFor(holeCards, board);
    ShufflesLength(runouts, remainingDeck);
    outcomes := RunWorkers(ec.workers, holeCards, board, remainingDeck, 5 - |board|, simulations, runouts, wins, ties);
    assert Judged(holeCards, FullBoards(board, runouts, 5 - |board|), outcomes);
    results := Results(wins, ties, simulations, outcomes);
    forall i | 0 <= i < |results|
      ensures simulations >= 0 ==> 0 <= results[i].losses
    {
      OutcomesBound(holeCards, FullBoards(board, runouts, 5 - |board|), outcomes, i);
    }
  }

  /**
   * The worker loop of Calculate: worker w runs its share of the trials, on the
   * runouts that follow those of the workers before it.
   */
  method RunWorkers(workers: int, holeCards: seq<seq<Card>>, board: seq<Card>, deck: seq<Card>,
                    cardsNeeded: int, simulations: int, runouts: seq<seq<Card>>,
                    wins: array<int>, ties: array<int>) returns (ghost o: seq<seq<nat>>)
    requires workers > 0
    requires wins != ties && wins.Length == ties.Length == |holeCards|
    requires forall i :: 0 <= i < wins.Length ==> wins[i] == 0 && ties[i] == 0
    requires |runouts| == (if simulations > 0 then simulations else 0) && Shuffles(runouts, deck)
    requires simulations > 0 ==> |board| <= 5 && 0 <= cardsNeeded <= |deck|
    requires forall t :: 0 <= t < |runouts| ==> cardsNeeded <= |runouts[t]|
    modifies wins, ties
    ensures Judged(holeCards, FullBoards(board, runouts, cardsNeeded), o)
    ensures forall i :: 0 <= i < wins.Length ==> wins[i] == WinTotal(o, i) && ties[i] == TieTotal(o, i)
  {
    var simsPerWorker := GoDiv(simulations, workers);
    var remainder := GoMod(simulations, workers);
    ghost var fbs := FullBoards(board, runouts, cardsNeeded);
    o := [];
    var next := 0;
    for w := 0 to workers
      invariant next == TrialsBefore(simulations, workers, w) && next <= |runouts|
      invariant Judged(holeCards, fbs[..next], o)
      invariant forall i :: 0 <= i < wins.Length ==> wins[i] == WinTotal(o, i) && ties[i] == TieTotal(o, i)
    {
      var workerSims := simsPerWorker;
      if w < remainder {
        workerSims := workerSims + 1;
      }
      assert workerSims == WorkerSims(simulations, workers, w);
      var count := if workerSims > 0 then workerSims else 0;
      ShareFits(simulations, workers, w, |runouts|);
      var mine := runouts[next..next + count];
      ShufflesSlice(runouts, deck, next, next + count);
      ghost var prior := o;
      ghost var own := RunSimulations(holeCards, board, deck, cardsNeeded, workerSims, mine, wins, ties);
      JudgedWorker(holeCards, board, runouts, cardsNeeded, next, next + count, prior, own);
      o := prior + own;
      TotalsAppendAll(prior, own, wins.Length);
      next := next + count;
    }
    TrialSplit(simulations, workers);
    assert fbs[..next] == fbs;
  }

  /** Worker w's share of the trials ends within the runouts. */
  lemma ShareFits(simulations: int, workers: int, w: nat, total: nat)
    requires workers > 0 && w < workers && total == (if simulations > 0 then simulations else 0)
    ensures var c := WorkerSims(simulations, workers, w);
      && TrialsBefore(simulations, workers, w + 1) == TrialsBefore(simulations, workers, w) + (if c > 0 then c else 0)
      && TrialsBefore(simulations, workers, w + 1) <= total
  {
    TrialSplit(simulations, workers);
    TrialsBeforeMonotone(simulations, workers, w + 1, workers);
  }

  /**
   * Calculate's accounting: every player's Wins + Ties + Losses is Total =
   * simulations, and for a non-negative request no player is credited in more
   * trials than were run, so Losses >= 0.
   */
  lemma CalculateAccounting(holeCards: seq<seq<Card>>, board: seq<Card>, simulations: int,
                            runouts: seq<seq<Card>>, outcomes: seq<seq<nat>>, i: nat)
    requires runouts != [] ==> |board| <= 5
    requires forall t :: 0 <= t < |runouts| ==> 5 - |board| <= |runouts[t]|
    requires |runouts| == (if simulations > 0 then simulations else 0)
    requires Judged(holeCards, FullBoards(board, runouts, 5 - |board|), outcomes)
    ensures var r := ResultOf(WinTotal(outcomes, i), TieTotal(outcomes, i), simulations);
      && r.wins + r.ties + r.losses == r.total == simulations
      && (simulations >= 0 ==> 0 <= r.losses && r.wins <= simulations && r.ties <= simulations)
  {
    OutcomesBound(holeCards, FullBoards(board, runouts, 5 - |board|), outcomes, i);
  }

  // ---------------------------------------------------------------------------
  // The exact mode.

  /** One trial per enumerated combination, each adding its credits to the counters. */
  method RunCombinations(holeCards: seq<seq<Card>>, board: seq<Card>, combos: seq<seq<Card>>,
                         wins: array<int>, ties: array<int>) returns (ghost o: seq<seq<nat>>)
    requires wins != ties && wins.Length == ties.Length == |holeCards|
    modifies wins, ties
    ensures Judged(holeCards, ExactBoards(board, combos), o)
    ensures forall i :: 0 <= i < wins.Length ==>
      wins[i] == old(wins[i]) + WinTotal(o, i) && ties[i] == old(ties[i]) + TieTotal(o, i)
  {
    ghost var fbs := ExactBoards(board, combos);
    o := [];
    for t := 0 to |combos|
      invariant Judged(holeCards, fbs[..t], o)
      invariant forall i :: 0 <= i < wins.Length ==>
        wins[i] == old(wins[i]) + WinTotal(o, i) && ties[i] == old(ties[i]) + TieTotal(o, i)
    {
      var fullBoard := board + combos[t];
      assert fullBoard == fbs[t];
      ghost var prior, priorTies := wins[..], ties[..];
      var winners := Trial(holeCards, fullBoard, wins, ties);
      CountersStep(wins[..], ties[..], old(wins[..]), old(ties[..]), o, winners, prior, priorTies);
      PrefixStep(fbs, t);
      JudgedAppend(holeCards, fbs[..t], o, fullBoard, winners);
      o := o + [winners];
    }
    assert fbs[..|combos|] == fbs;
  }

  /**
   * CalculateExact: nil when there are more combinations than maxCombinations;
   * otherwise one trial per combination and Total = the number of combinations.
   */
  method CalculateExact(ec: EquityCalculator, holeCards: seq<seq<Card>>, board: seq<Card>,
                        maxCombinations: int) returns (r: Option<seq<EquityResult>>, ghost outcomes: seq<seq<nat>>)
    requires ec.workers > 0
    ensures r.None? <==> |ExactRunouts(holeCards, board)| > maxCombinations
    ensures r.Some? ==> |r.value| == |holeCards|
    ensures r.Some? ==> forall i :: 0 <= i < |r.value| ==>
      var e := r.value[i];
      && e.wins + e.ties + e.losses == e.total == |ExactRunouts(holeCards, board)|
      && 0 <= e.wins && 0 <= e.ties && 0 <= e.losses
    ensures r.Some? ==> var combos := ExactRunouts(holeCards, board);
      && Judged(holeCards, ExactBoards(board, combos), outcomes)
      && r.value == ResultsOf(outcomes, |combos|, |holeCards|)
  {
    var combos := RunoutsFor(holeCards, board);
    if |combos| > maxCombinations {
      return None, [];
    }
    var numPlayers := |holeCards|;
    var wins := new int[numPlayers](_ => 0);
    var ties := new int[numPlayers](_ => 0);
    var total := |combos|;
    outcomes := RunCombinations(holeCards, board, combos, wins, ties);
    var results := Results(wins, ties, total, outcomes);
    forall i | 0 <= i < |results|
      ensures 0 <= results[i].losses
    {
      OutcomesBound(holeCards, ExactBoards(board, combos), outcomes, i);
    }
    return Some(results), outcomes;
  }

  /** Exact mode's accounting: Wins + Ties + Losses = Total and Losses >= 0. */
  lemma ExactAccounting(holeCards: seq<seq<Card>>, board: seq<Card>, outcomes: seq<seq<nat>>, i: nat)
    requires Judged(holeCards, ExactBoards(board, ExactRunouts(holeCards, board)), outcomes)
    ensures var combos := ExactRunouts(holeCards, board);
      var r := ResultOf(WinTotal(outcomes, i), TieTotal(outcomes, i), |combos|);
      r.wins + r.ties + r.losses == r.total && 0 <= r.losses
  {
    OutcomesBound(holeCards, ExactBoards(board, ExactRunouts(holeCards, board)), outcomes, i);
  }
}

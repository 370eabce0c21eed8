// Each player's candidate and best hands, and the showdown that names the
// winners (GetCandidateHands, GetBestHand and GetWinners of game.go, and the
// winners loop GetWinnersParallel of parallel.go shares with GetWinners).
// The Game class in games.dfy runs these on its players and board.
module Table {
  import opened Cards
  import opened Errors
  import opened Combinatorics
  import opened Hands
  import opened HandFacts
  import opened Players
  import opened Boards
  import opened Showdown
  import opened Equity

  // ---------------------------------------------------------------------------
  // Candidate and best hands.

  /** NewHandWithPlayer on each combination in turn, keeping the hands it makes. */
  ghost function CandidatesOf(combos: seq<seq<Card>>, p: Player?): (hs: seq<Hand>)
    ensures |hs| <= |combos|
    ensures forall k :: 0 <= k < |hs| ==> hs[k].player == p
    decreases |combos|
  {
    if combos == [] then []
    else
      var rest := CandidatesOf(combos[..|combos| - 1], p);
      var r := MakeHand(combos[|combos| - 1]);
      if r.Ok? then rest + [r.value.(player := p)] else rest
  }

  /** GetCandidateHands: refused before the flop; else the hands of the 5-card combinations of hole and board cards. */
  ghost function CandidateHands(hole: seq<Card>, board: seq<Card>, p: Player?): (r: Result<seq<Hand>>)
    ensures r.Err? <==> |board| < 3
    ensures r.Err? ==> r.error == InvalidBoardState
  {
    if |board| < 3 then Err(InvalidBoardState) else Ok(CandidatesOf(FiveCardCombos(hole + board), p))
  }

  /**
   * GetBestHand's loop: start from the first hand; a later hand replaces the
   * best only if it compares above it (the game runs it with Hand.Compare).
   */
  function FirstBest(hs: seq<Hand>, cmp: Cmp): (b: Hand)
    requires hs != []
    decreases |hs|
  {
    if |hs| == 1 then hs[0]
    else
      var best := FirstBest(hs[..|hs| - 1], cmp);
      if cmp(hs[|hs| - 1], best) > 0 then hs[|hs| - 1] else best
  }

  /** One more combination for the candidate loop. */
  lemma CandidatesSnoc(combos: seq<seq<Card>>, i: nat, p: Player?)
    requires i < |combos|
    ensures var r := MakeHand(combos[i]);
      CandidatesOf(combos[..i + 1], p) ==
        if r.Ok? then CandidatesOf(combos[..i], p) + [r.value.(player := p)] else CandidatesOf(combos[..i], p)
  {
    assert combos[..i + 1][..i] == combos[..i];
  }

  /** One more candidate for the best-hand loop. */
  lemma FirstBestSnoc(hs: seq<Hand>, i: nat, cmp: Cmp)
    requires 0 < i < |hs|
    ensures var b := FirstBest(hs[..i], cmp);
      FirstBest(hs[..i + 1], cmp) == if cmp(hs[i], b) > 0 then hs[i] else b
  {
    assert hs[..i + 1][..i] == hs[..i];
  }

  /** GetBestHand: the candidates' error; no candidate is InvalidBoardState; else the best candidate. */
  ghost function BestHandFor(hole: seq<Card>, board: seq<Card>, p: Player?): Result<Hand> {
    var c := CandidateHands(hole, board, p);
    if c.Err? then Err(c.error)
    else if c.value == [] then Err(InvalidBoardState)
    else Ok(FirstBest(c.value, Compare))
  }

  /** The player a hand is attached to does not enter Hand.Compare. */
  lemma CompareIgnoresPlayer(h: Hand, g: Hand, p: Player?, q: Player?)
    ensures Compare(h.(player := p), g.(player := q)) == Compare(h, g)
  {
    var h', g' := h.(player := p), g.(player := q);
    assert h'.handRank == h.handRank && h'.isStraight == h.isStraight && h'.isWheel == h.isWheel && h'.cards == h.cards;
    assert g'.handRank == g.handRank && g'.isStraight == g.isStraight && g'.isWheel == g.isWheel && g'.cards == g.cards;
  }

  /**
   * The candidates are there exactly when some combination makes a hand, and
   * the best of them is findBestHand's hand for those combinations, attached
   * to the player.
   */
  lemma {:induction false} CandidatesBest(combos: seq<seq<Card>>, p: Player?)
    ensures CandidatesOf(combos, p) == [] <==> BestBy(MadeHands(combos), Compare).None?
    ensures CandidatesOf(combos, p) != [] ==>
              FirstBest(CandidatesOf(combos, p), Compare) == BestBy(MadeHands(combos), Compare).value.(player := p)
    decreases |combos|
  {
    if combos != [] {
      var n := |combos|;
      var front := combos[..n - 1];
      CandidatesBest(front, p);
      var hs := MadeHands(combos);
      assert hs[..n - 1] == MadeHands(front);
      var r := MakeHand(combos[n - 1]);
      assert BestBy(hs, Compare) == Keep(BestBy(MadeHands(front), Compare), Made(r), Compare);
      var best := BestBy(MadeHands(front), Compare);
      if r.Ok? && best.Some? {
        CompareIgnoresPlayer(r.value, best.value, p, p);
      }
      CandidatesStep(CandidatesOf(front, p), best, r, p, Compare);
    }
  }

  /** One more combination keeps the candidates and the best-hand loop in step. */
  lemma CandidatesStep(rest: seq<Hand>, best: Option<Hand>, r: Result<Hand>, p: Player?, cmp: Cmp)
    requires r.Ok? && best.Some? ==> cmp(r.value.(player := p), best.value.(player := p)) == cmp(r.value, best.value)
    requires rest == [] <==> best.None?
    requires rest != [] ==> FirstBest(rest, cmp) == best.value.(player := p)
    ensures var next := if r.Ok? then rest + [r.value.(player := p)] else rest;
            var kept := Keep(best, Made(r), cmp);
            && (next == [] <==> kept.None?)
            && (next != [] ==> FirstBest(next, cmp) == kept.value.(player := p))
  {
    if r.Ok? {
      var h := r.value.(player := p);
      var next := rest + [h];
      if best.None? {
        assert next == [h];
      } else {
        assert next[..|next| - 1] == rest;
        var b := FirstBest(rest, cmp);
        assert FirstBest(next, cmp) == if cmp(h, b) > 0 then h else b;
        assert Keep(best, Made(r), cmp) == if cmp(r.value, best.value) > 0 then Some(r.value) else best;
      }
    }
  }

  /**
   * GetBestHand is refused before the flop and when no 5-card combination of
   * the player's cards is a valid hand, always with InvalidBoardState;
   * otherwise it is findBestHand's hand for those cards with the player
   * attached, so no candidate beats it.
   */
  lemma BestHandForMeaning(hole: seq<Card>, board: seq<Card>, p: Player?)
    ensures var r := BestHandFor(hole, board, p);
      && (r.Err? <==> |board| < 3 || BestHandOf(hole + board).None?)
      && (r.Err? ==> r.error == InvalidBoardState)
      && (r.Ok? ==> BestHandOf(hole + board).Some? && r.value == BestHandOf(hole + board).value.(player := p))
  {
    if |board| >= 3 {
      CandidatesBest(FiveCardCombos(hole + board), p);
    }
  }

  /** Cards that are all different have no repeat among any five of them. */
  lemma CombosOfDistinct(cards: seq<Card>)
    requires !HasDuplicate(cards) && |cards| >= HandSize
    ensures forall c :: c in FiveCardCombos(cards) ==> MakeHand(c).Ok?
  {
    var m := |cards|;
    var ids := ChooseIndices(m, 0, HandSize);
    ChooseIsPick(cards, 0, HandSize);
    ChooseIndicesRange(m, 0, HandSize);
    PickAllLength(cards, ids);
    forall c | c in FiveCardCombos(cards) ensures |c| == HandSize && !HasDuplicate(c) {
      var k :| 0 <= k < |ids| && c == PickAll(cards, ids)[k];
      assert ids[k] in ids;
      PickedDistinct(cards, ids[k], m);
    }
  }

  /** Cards picked at increasing positions of cards that are all different are all different. */
  lemma PickedDistinct(cards: seq<Card>, idx: seq<nat>, m: nat)
    requires !HasDuplicate(cards) && m == |cards| && IncreasingWithin(idx, 0, m)
    ensures |Pick(cards, idx)| == |idx| && !HasDuplicate(Pick(cards, idx))
  {
    PickAt(cards, idx);
    var c := Pick(cards, idx);
    forall a, b | 0 <= a < b < |c| ensures c[a] != c[b] {
      assert c[a] == cards[idx[a]] && c[b] == cards[idx[b]];
    }
  }

  /** When every combination makes a hand, each gives one candidate. */
  lemma {:induction false} CandidatesAll(combos: seq<seq<Card>>, p: Player?)
    requires forall c :: c in combos ==> MakeHand(c).Ok?
    ensures |CandidatesOf(combos, p)| == |combos|
    decreases |combos|
  {
    if combos != [] {
      var front := combos[..|combos| - 1];
      assert forall c :: c in front ==> c in combos;
      assert combos[|combos| - 1] in combos;
      CandidatesAll(front, p);
    }
  }

  /** Two hole cards and five board cards, all different, give 21 candidate hands. */
  lemma TwentyOneCandidates(hole: seq<Card>, board: seq<Card>, p: Player?)
    requires |hole| == 2 && |board| == 5 && !HasDuplicate(hole + board)
    ensures CandidateHands(hole, board, p).Ok? && |CandidateHands(hole, board, p).value| == 21
  {
    var cards := hole + board;
    CombosOfDistinct(cards);
    CandidatesAll(FiveCardCombos(cards), p);
    ChooseCount(cards, 0, HandSize);
    KnownCounts();
  }

  // ---------------------------------------------------------------------------
  // The showdown.

  /** A player with the best hand found for them. */
  datatype PlayerHand = PlayerHand(player: Player, hand: Hand)

  /** One step of the winners loop: the first entry starts the list, a better hand restarts it, an equal one joins. */
  function Contend(winners: seq<PlayerHand>, ph: PlayerHand, cmp: Cmp): (r: seq<PlayerHand>) {
    if winners == [] then [ph]
    else
      var c := cmp(ph.hand, winners[0].hand);
      if c > 0 then [ph] else if c == 0 then winners + [ph] else winners
  }

  /** The winners loop over the entries in seat order. */
  function RunWinners(entries: seq<PlayerHand>, cmp: Cmp): seq<PlayerHand>
    decreases |entries|
  {
    if entries == [] then [] else Contend(RunWinners(entries[..|entries| - 1], cmp), entries[|entries| - 1], cmp)
  }

  /** The entries at the given indices. */
  function At(entries: seq<PlayerHand>, idx: seq<nat>): (r: seq<PlayerHand>)
    requires forall k :: 0 <= k < |idx| ==> idx[k] < |entries|
    ensures |r| == |idx| && forall k :: 0 <= k < |idx| ==> r[k] == entries[idx[k]]
  {
    seq(|idx|, k requires 0 <= k < |idx| => entries[idx[k]])
  }

  /** The players and the hands of a list of entries, as the two lists GetWinners returns. */
  function Split(entries: seq<PlayerHand>): (r: (seq<Player>, seq<Hand>))
    ensures |r.0| == |r.1| == |entries|
    ensures forall k :: 0 <= k < |entries| ==> r.0[k] == entries[k].player && r.1[k] == entries[k].hand
  {
    (seq(|entries|, k requires 0 <= k < |entries| => entries[k].player),
     seq(|entries|, k requires 0 <= k < |entries| => entries[k].hand))
  }

  /**
   * Entries whose hands are the hands hs, with players attached: Go's winners
   * loop over them picks exactly the entries at the indices of the index-based
   * winners loop over hs.
   */
  lemma {:induction false} RunWinnersAgrees(entries: seq<PlayerHand>, hs: seq<Option<Hand>>, cmp: Cmp)
    requires |entries| == |hs|
    requires forall k :: 0 <= k < |hs| ==> hs[k].Some? && entries[k].hand == hs[k].value.(player := entries[k].player)
    requires forall i, j :: 0 <= i < |hs| && 0 <= j < |hs| ==>
               cmp(entries[i].hand, entries[j].hand) == cmp(hs[i].value, hs[j].value)
    ensures var w := WinnersBy(hs, cmp).winners;
      && (forall k :: 0 <= k < |w| ==> w[k] < |entries|)
      && RunWinners(entries, cmp) == At(entries, w)
    decreases |hs|
  {
    WinnersShape(hs, cmp);
    forall k | 0 <= k < |WinnersBy(hs, cmp).winners| ensures WinnersBy(hs, cmp).winners[k] < |entries| {
      assert Present(hs, WinnersBy(hs, cmp).winners[k]);
    }
    if hs != [] {
      var n := |hs|;
      var ep, hp := entries[..n - 1], hs[..n - 1];
      RunWinnersAgrees(ep, hp, cmp);
      WinnersShape(hp, cmp);
      WinnersHead(hp, cmp);
      var st := WinnersBy(hp, cmp);
      forall k | 0 <= k < |st.winners| ensures st.winners[k] < n - 1 {
        assert Present(hp, st.winners[k]);
      }
      assert At(ep, st.winners) == At(entries, st.winners);
      assert RunWinners(entries, cmp) == Contend(At(entries, st.winners), entries[n - 1], cmp);
      ContendStep(entries, hs, st, cmp);
    }
  }

  /** Go's step and the index-based step pick the same entries. */
  lemma ContendStep(entries: seq<PlayerHand>, hs: seq<Option<Hand>>, st: Standing, cmp: Cmp)
    requires |entries| == |hs| > 0
    requires forall k :: 0 <= k < |hs| ==> hs[k].Some? && entries[k].hand == hs[k].value.(player := entries[k].player)
    requires forall i, j :: 0 <= i < |hs| && 0 <= j < |hs| ==>
               cmp(entries[i].hand, entries[j].hand) == cmp(hs[i].value, hs[j].value)
    requires forall k :: 0 <= k < |st.winners| ==> st.winners[k] < |hs| - 1
    requires st.best.Some? <==> st.winners != []
    requires st.winners != [] ==> st.best == hs[st.winners[0]]
    ensures var a := Admit(st, |hs| - 1, hs[|hs| - 1], cmp);
            && (forall k :: 0 <= k < |a.winners| ==> a.winners[k] < |hs|)
            && Contend(At(entries, st.winners), entries[|hs| - 1], cmp) == At(entries, a.winners)
  {
    var n := |hs|;
    var prior := At(entries, st.winners);
    var e := entries[n - 1];
    if st.winners != [] {
      var w0 := st.winners[0];
      assert cmp(e.hand, prior[0].hand) == cmp(hs[n - 1].value, st.best.value);
      assert prior + [e] == At(entries, st.winners + [n - 1]);
    }
  }

  /** The hole cards of the given seats. */
  function Holes(players: seq<Player>): (hs: seq<seq<Card>>)
    reads players
    ensures |hs| == |players| && forall i :: 0 <= i < |players| ==> hs[i] == players[i].holeCards
  {
    seq(|players|, i reads players requires 0 <= i < |players| => players[i].holeCards)
  }

  /** Every seat has a best hand on this board. */
  ghost predicate AllHaveHands(holes: seq<seq<Card>>, board: seq<Card>) {
    forall i :: 0 <= i < |holes| ==> BestHandOf(holes[i] + board).Some?
  }

  /** Each seat with its best hand, the player attached to the hand. */
  ghost function Entries(players: seq<Player>, holes: seq<seq<Card>>, board: seq<Card>): (es: seq<PlayerHand>)
    requires |players| == |holes| && AllHaveHands(holes, board)
    ensures |es| == |players|
    ensures forall i :: 0 <= i < |players| ==>
              es[i] == PlayerHand(players[i], BestHandOf(holes[i] + board).value.(player := players[i]))
  {
    seq(|players|, i requires 0 <= i < |players| =>
          PlayerHand(players[i], BestHandOf(holes[i] + board).value.(player := players[i])))
  }

  /**
   * GetWinners: refused unless the board is at the river or when some seat
   * has no valid hand; otherwise the seats the trial of equity.go names as
   * winners on this board, in seat order, each with their best hand.
   */
  ghost function ShowdownOf(players: seq<Player>, holes: seq<seq<Card>>, board: seq<Card>): (r: Result<(seq<Player>, seq<Hand>)>)
    requires |players| == |holes|
  {
    if StateOf(|board|) != River || !AllHaveHands(holes, board) then Err(InvalidBoardState)
    else
      var es := Entries(players, holes, board);
      var w := WinnersAt(holes, board);
      WinnersAtMeaning(holes, board);
      Ok(Split(At(es, w)))
  }

  /**
   * The showdown names, in seat order and each with their own best hand,
   * exactly the seats whose best hand no other seat's best hand beats; the
   * hands named all tie, and a table with players always has a winner.
   */
  lemma ShowdownMeaning(players: seq<Player>, holes: seq<seq<Card>>, board: seq<Card>)
    requires |players| == |holes|
    requires forall i, j :: 0 <= i < j < |players| ==> players[i] != players[j]
    ensures var r := ShowdownOf(players, holes, board);
      var bh := BestHands(holes, board);
      && (r.Err? <==> StateOf(|board|) != River || exists i :: 0 <= i < |holes| && BestHandOf(holes[i] + board).None?)
      && (r.Err? ==> r.error == InvalidBoardState)
      && (r.Ok? ==>
            && |r.value.0| == |r.value.1|
            && (|players| > 0 ==> |r.value.0| > 0)
            && (forall k :: 0 <= k < |r.value.1| ==> r.value.1[k].player == r.value.0[k])
            && (forall i :: 0 <= i < |players| ==> (players[i] in r.value.0 <==> IsTop(bh, bh[i].value)))
            && (forall a, b :: 0 <= a < |r.value.1| && 0 <= b < |r.value.1| ==> Ties(r.value.1[a], r.value.1[b]))
            && (forall a, b, i, j ::
                  (0 <= a < b < |r.value.0| && 0 <= i < |players| && 0 <= j < |players|
                   && r.value.0[a] == players[i] && r.value.0[b] == players[j]) ==> i < j))
  {
    var r := ShowdownOf(players, holes, board);
    if r.Ok? {
      ShowdownPicked(players, holes, board);
      var w := WinnersAt(holes, board);
      assert r.value == Split(At(Entries(players, holes, board), w));
      WinnersAtMeaning(holes, board);
      PickedInSeatOrder(players, Entries(players, holes, board), w);
    }
  }

  /** Entries picked at increasing seats list their distinct players in seat order. */
  lemma PickedInSeatOrder(players: seq<Player>, es: seq<PlayerHand>, w: seq<nat>)
    requires |es| == |players|
    requires forall i :: 0 <= i < |es| ==> es[i].player == players[i]
    requires forall i, j :: 0 <= i < j < |players| ==> players[i] != players[j]
    requires Increasing(w) && forall k :: 0 <= k < |w| ==> w[k] < |es|
    ensures var ps := Split(At(es, w)).0;
      forall a, b, i, j ::
        (0 <= a < b < |ps| && 0 <= i < |players| && 0 <= j < |players|
         && ps[a] == players[i] && ps[b] == players[j]) ==> i < j
  {
    var ps := Split(At(es, w)).0;
    forall a, b, i, j | 0 <= a < b < |ps| && 0 <= i < |players| && 0 <= j < |players|
        && ps[a] == players[i] && ps[b] == players[j]
      ensures i < j
    {
      assert ps[a] == players[w[a]] && ps[b] == players[w[b]];
      assert i == w[a] && j == w[b];
    }
  }

  /** The split of the winning entries, when every seat has a best hand. */
  lemma ShowdownPicked(players: seq<Player>, holes: seq<seq<Card>>, board: seq<Card>)
    requires |players| == |holes| && AllHaveHands(holes, board)
    requires forall i, j :: 0 <= i < j < |players| ==> players[i] != players[j]
    ensures var bh := BestHands(holes, board);
      var w := WinnersAt(holes, board);
      && (forall k :: 0 <= k < |w| ==> w[k] < |players|)
      && var r := Split(At(Entries(players, holes, board), w));
      && |r.0| == |r.1|
      && (|players| > 0 ==> |r.0| > 0)
      && (forall k :: 0 <= k < |r.1| ==> r.1[k].player == r.0[k])
      && (forall i :: 0 <= i < |players| ==> (players[i] in r.0 <==> IsTop(bh, bh[i].value)))
      && (forall a, b :: 0 <= a < |r.1| && 0 <= b < |r.1| ==> Ties(r.1[a], r.1[b]))
  {
    var bh := BestHands(holes, board);
    var w := WinnersAt(holes, board);
    var es := Entries(players, holes, board);
    SeatWinners(holes, board);
    SeatEntries(players, holes, board);
    PickedMeaning(players, bh, es, w);
  }

  /** With every seat holding a hand, the trial's winners are exactly the seats no other seat beats. */
  lemma SeatWinners(holes: seq<seq<Card>>, board: seq<Card>)
    requires AllHaveHands(holes, board)
    ensures var bh := BestHands(holes, board);
      var w := WinnersAt(holes, board);
      && (forall k :: 0 <= k < |w| ==> w[k] < |bh|)
      && (forall i :: 0 <= i < |bh| ==> (i in w <==> IsTop(bh, bh[i].value)))
      && (|bh| > 0 ==> w != [])
  {
    var bh := BestHands(holes, board);
    BestHandsEvaluated(holes, board);
    WinnersMeaning(bh);
    assert forall i :: 0 <= i < |bh| ==> bh[i].Some?;
    if |bh| > 0 {
      assert bh[0].Some?;
    }
  }

  /** Each entry is its seat's best hand with the seat's player attached. */
  lemma SeatEntries(players: seq<Player>, holes: seq<seq<Card>>, board: seq<Card>)
    requires |players| == |holes| && AllHaveHands(holes, board)
    ensures var bh := BestHands(holes, board);
      var es := Entries(players, holes, board);
      forall i :: 0 <= i < |bh| ==> bh[i].Some? && es[i] == PlayerHand(players[i], bh[i].value.(player := players[i]))
  {
    var bh := BestHands(holes, board);
    forall i | 0 <= i < |bh|
      ensures bh[i].Some? && Entries(players, holes, board)[i] == PlayerHand(players[i], bh[i].value.(player := players[i]))
    {
      assert bh[i] == BestHandOf(holes[i] + board);
    }
  }

  /** A seat without a best hand stops the showdown with that seat's error. */
  lemma FailedSeat(players: seq<Player>, holes: seq<seq<Card>>, board: seq<Card>, i: nat)
    requires |players| == |holes| && i < |holes| && BestHandFor(holes[i], board, players[i]).Err?
    ensures ShowdownOf(players, holes, board) == Err(BestHandFor(holes[i], board, players[i]).error)
  {
    BestHandForMeaning(holes[i], board, players[i]);
    if AllHaveHands(holes, board) {
      assert BestHandOf(holes[i] + board).Some?;
    }
  }

  /** Some seat without a best hand stops the showdown, with InvalidBoardState. */
  lemma SomeSeatFails(players: seq<Player>, holes: seq<seq<Card>>, board: seq<Card>)
    requires |players| == |holes|
    requires exists i :: 0 <= i < |holes| && BestHandFor(holes[i], board, players[i]).Err?
    ensures ShowdownOf(players, holes, board) == Err(InvalidBoardState)
  {
    var i :| 0 <= i < |holes| && BestHandFor(holes[i], board, players[i]).Err?;
    FailedSeat(players, holes, board, i);
    BestHandForMeaning(holes[i], board, players[i]);
  }

  /** Every seat's GetBestHand hand, with the seat's player, gives the showdown's entries. */
  lemma EntriesOfBest(players: seq<Player>, holes: seq<seq<Card>>, board: seq<Card>, es: seq<PlayerHand>)
    requires |players| == |holes| == |es|
    requires forall k :: 0 <= k < |es| ==>
               BestHandFor(holes[k], board, players[k]).Ok?
               && es[k] == PlayerHand(players[k], BestHandFor(holes[k], board, players[k]).value)
    ensures AllHaveHands(holes, board) && es == Entries(players, holes, board)
  {
    forall k | 0 <= k < |es|
      ensures BestHandOf(holes[k] + board).Some?
      ensures es[k] == PlayerHand(players[k], BestHandOf(holes[k] + board).value.(player := players[k]))
    {
      BestHandForMeaning(holes[k], board, players[k]);
    }
    var en := Entries(players, holes, board);
    assert forall k :: 0 <= k < |es| ==> es[k] == en[k];
  }

  /** The showdown on the entries the seats' GetBestHand hands make, at the river. */
  lemma SeatsShowdown(players: seq<Player>, holes: seq<seq<Card>>, board: seq<Card>, es: seq<PlayerHand>)
    requires |players| == |holes| == |es| && StateOf(|board|) == River
    requires forall k :: 0 <= k < |es| ==>
               BestHandFor(holes[k], board, players[k]).Ok?
               && es[k] == PlayerHand(players[k], BestHandFor(holes[k], board, players[k]).value)
    ensures ShowdownOf(players, holes, board) == Ok(Split(RunWinners(es, Compare)))
  {
    EntriesOfBest(players, holes, board, es);
    ShowdownAgrees(players, holes, board, es);
  }

  /** Every best hand findBestHand returns is evaluated. */
  lemma BestHandsEvaluated(holes: seq<seq<Card>>, board: seq<Card>)
    ensures AllEvaluated(BestHands(holes, board))
  {
    var bh := BestHands(holes, board);
    forall i | Present(bh, i) ensures Evaluated(bh[i].value) {
      BestHandMeaning(holes[i] + board);
    }
  }

  /** The entries picked at the winning indices, split into players and hands. */
  lemma PickedMeaning(players: seq<Player>, bh: seq<Option<Hand>>, es: seq<PlayerHand>, w: seq<nat>)
    requires |players| == |bh| == |es|
    requires forall i, j :: 0 <= i < j < |players| ==> players[i] != players[j]
    requires forall i :: 0 <= i < |bh| ==> bh[i].Some? && es[i] == PlayerHand(players[i], bh[i].value.(player := players[i]))
    requires forall k :: 0 <= k < |w| ==> w[k] < |bh|
    requires forall i :: 0 <= i < |bh| ==> (i in w <==> IsTop(bh, bh[i].value))
    requires |bh| > 0 ==> w != []
    ensures var r := Split(At(es, w));
      && |r.0| == |r.1|
      && (|players| > 0 ==> |r.0| > 0)
      && (forall k :: 0 <= k < |r.1| ==> r.1[k].player == r.0[k])
      && (forall i :: 0 <= i < |players| ==> (players[i] in r.0 <==> IsTop(bh, bh[i].value)))
      && (forall a, b :: 0 <= a < |r.1| && 0 <= b < |r.1| ==> Ties(r.1[a], r.1[b]))
  {
    var r := Split(At(es, w));
    forall i | 0 <= i < |players| && players[i] in r.0 ensures IsTop(bh, bh[i].value) {
      var k :| 0 <= k < |r.0| && r.0[k] == players[i];
      assert players[w[k]] == players[i];
      assert w[k] == i;
      assert w[k] in w;
    }
    forall i | 0 <= i < |players| && IsTop(bh, bh[i].value) ensures players[i] in r.0 {
      assert i in w;
      var k :| 0 <= k < |w| && w[k] == i;
      assert r.0[k] == players[i];
    }
    forall a, b | 0 <= a < |r.1| && 0 <= b < |r.1| ensures Ties(r.1[a], r.1[b]) {
      assert w[a] in w && w[b] in w;
      TopTie(bh, w[a], w[b], players[w[a]], players[w[b]]);
    }
  }

  /** Two hands of which neither beats the other tie, whoever they are attached to. */
  lemma TopTie(bh: seq<Option<Hand>>, i: nat, j: nat, p: Player?, q: Player?)
    requires i < |bh| && j < |bh| && bh[i].Some? && bh[j].Some?
    requires IsTop(bh, bh[i].value) && IsTop(bh, bh[j].value)
    ensures Ties(bh[i].value.(player := p), bh[j].value.(player := q))
  {
    assert !Beats(bh[i].value, bh[j].value) && !Beats(bh[j].value, bh[i].value);
    CompareAntisymmetric(bh[i].value, bh[j].value);
    CompareIgnoresPlayer(bh[i].value, bh[j].value, p, q);
  }

  /** The winners loop over the entries and the split of its result into players and hands. */
  method SelectWinners(entries: seq<PlayerHand>) returns (r: (seq<Player>, seq<Hand>))
    ensures r == Split(RunWinners(entries, Compare))
  {
    var winners: seq<PlayerHand> := [];
    for i := 0 to |entries|
      invariant winners == RunWinners(entries[..i], Compare)
    {
      assert entries[..i + 1][..i] == entries[..i];
      var ph := entries[i];
      if |winners| == 0 {
        winners := [ph];
        continue;
      }
      var cmp := Compare(ph.hand, winners[0].hand);
      if cmp > 0 {
        winners := [ph];
      } else if cmp == 0 {
        winners := winners + [ph];
      }
    }
    assert entries[..|entries|] == entries;
    r := SplitEntries(winners);
  }

  /** The copy of the winners into a list of players and a list of hands. */
  method SplitEntries(winners: seq<PlayerHand>) returns (r: (seq<Player>, seq<Hand>))
    ensures r == Split(winners)
  {
    var ps: seq<Player> := [];
    var hands: seq<Hand> := [];
    for i := 0 to |winners|
      invariant |ps| == |hands| == i
      invariant forall k :: 0 <= k < i ==> ps[k] == winners[k].player && hands[k] == winners[k].hand
    {
      ps := ps + [winners[i].player];
      hands := hands + [winners[i].hand];
    }
    assert ps == Split(winners).0 && hands == Split(winners).1;
    r := (ps, hands);
  }

  /** At the river with every seat holding a hand, the winners loop over the entries is the showdown. */
  lemma ShowdownAgrees(players: seq<Player>, holes: seq<seq<Card>>, board: seq<Card>, es: seq<PlayerHand>)
    requires |players| == |holes| && StateOf(|board|) == River && AllHaveHands(holes, board)
    requires es == Entries(players, holes, board)
    ensures ShowdownOf(players, holes, board) == Ok(Split(RunWinners(es, Compare)))
  {
    var bh := BestHands(holes, board);
    forall i, j | 0 <= i < |bh| && 0 <= j < |bh|
      ensures Compare(es[i].hand, es[j].hand) == Compare(bh[i].value, bh[j].value)
    {
      CompareIgnoresPlayer(bh[i].value, bh[j].value, players[i], players[j]);
    }
    RunWinnersAgrees(es, bh, Compare);
  }
}

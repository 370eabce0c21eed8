// The game table of game.go and parallel.go's GetWinnersParallel: a deck, a
// board and the seated players, with the dealing and showdown methods proved
// against the functions of Dealing and Table.
module Games {
  import opened Cards
  import opened Errors
  import opened Combinatorics
  import opened Hands
  import opened Decks
  import opened Boards
  import opened Players
  import opened Equity
  import opened Dealing
  import opened Table


  /** GetWinnersParallel's error check: the first failed seat's error, in seat order. */
  method FirstError(results: seq<Result<Hand>>) returns (e: Option<Error>)
    ensures e.None? <==> forall k :: 0 <= k < |results| ==> results[k].Ok?
    ensures e.Some? ==> exists k :: 0 <= k < |results| && results[k].Err? && e.value == results[k].error
                          && forall j :: 0 <= j < k ==> results[j].Ok?
  {
    for i := 0 to |results|
      invariant forall k :: 0 <= k < i ==> results[k].Ok?
    {
      if results[i].Err? {
        return Some(results[i].error);
      }
    }
    return None;
  }

  /** Each seat's player with the hand found for it. */
  method Pair(players: seq<Player>, results: seq<Result<Hand>>) returns (es: seq<PlayerHand>)
    requires |players| == |results| && forall k :: 0 <= k < |results| ==> results[k].Ok?
    ensures |es| == |players| && forall k :: 0 <= k < |es| ==> es[k] == PlayerHand(players[k], results[k].value)
  {
    es := [];
    for i := 0 to |results|
      invariant |es| == i
      invariant forall k :: 0 <= k < i ==> es[k] == PlayerHand(players[k], results[k].value)
    {
      es := es + [PlayerHand(players[i], results[i].value)];
    }
  }

  class Game {
    var deck: Deck
    var board: Board
    var players: seq<Player>

    /** No player sits at two seats (NewGame seats fresh players). */
    ghost predicate Seated()
      reads this
    {
      forall i, j :: 0 <= i < j < |players| ==> players[i] != players[j]
    }

    /**
     * NewGame: a shuffled new deck, an empty board and `numPlayers` fresh
     * players named by seat, then the hole cards; the deal's error is ignored,
     * so beyond 26 players the later seats keep no cards.
     */
    constructor (numPlayers: nat, pick: nat -> nat)
      ensures |players| == numPlayers && Seated() && board.cards == []
      ensures forall i :: 0 <= i < numPlayers ==> players[i].name == SeatName(i)
      ensures var d := Shuffled(StandardDeck(), pick);
        && deck.cards == (if 2 * numPlayers <= |d| then d[..|d| - 2 * numPlayers] else [])
        && (forall i :: 0 <= i < Served(numPlayers, |d|) ==> players[i].holeCards == HoleCardsAt(d, i))
        && (forall i :: Served(numPlayers, |d|) <= i < numPlayers ==> players[i].holeCards == [])
      ensures fresh(deck) && fresh(board) && forall i :: 0 <= i < numPlayers ==> fresh(players[i])
    {
      var d := new Deck(pick);
      var b := new Board();
      var ps: seq<Player> := [];
      for i := 0 to numPlayers
        invariant |ps| == i
        invariant d.cards == Shuffled(StandardDeck(), pick) && b.cards == []
        invariant forall j :: 0 <= j < i ==> fresh(ps[j]) && ps[j].name == SeatName(j) && ps[j].holeCards == []
        invariant forall j, k :: 0 <= j < k < i ==> ps[j] != ps[k]
      {
        var p := new Player(SeatName(i));
        ps := ps + [p];
      }
      deck, board, players := d, b, ps;
      new;
      var ignored := DealHoleCards();
    }

    /**
     * DealHoleCards: two cards from the top of the deck to each seat in turn.
     * When the deck runs out the deal stops with EmptyDeck: the seats served
     * keep their new cards, the rest keep their old ones, and the deck is empty.
     */
    method DealHoleCards() returns (err: Option<Error>)
      requires Seated()
      modifies deck, players
      ensures var d, n := old(deck.cards), |players|;
        && err == (if 2 * n <= |d| then None else Some(EmptyDeck))
        && deck.cards == (if err == None then d[..|d| - 2 * n] else [])
        && (forall i :: 0 <= i < Served(n, |d|) ==> players[i].holeCards == HoleCardsAt(d, i))
        && (forall i :: Served(n, |d|) <= i < n ==> players[i].holeCards == old(players[i].holeCards))
        && (forall i :: 0 <= i < n ==> players[i].name == old(players[i].name))
    {
      ghost var d := deck.cards;
      for i := 0 to |players|
        invariant 2 * i <= |d| && deck.cards == d[..|d| - 2 * i]
        invariant forall j :: 0 <= j < i ==> players[j].holeCards == HoleCardsAt(d, j)
        invariant forall j :: i <= j < |players| ==> players[j].holeCards == old(players[j].holeCards)
        invariant forall j :: 0 <= j < |players| ==> players[j].name == old(players[j].name)
      {
        HoleDraw(d, i);
        var cards := deck.DrawMany(2);
        if cards.Err? {
          return Some(cards.error);
        }
        var e := players[i].SetHoleCards(cards.value);
        if e.Some? {
          return e;
        }
      }
      return None;
    }

    /** DealFlop: see FlopDeal. */
    method DealFlop() returns (err: Option<Error>)
      modifies deck, board
      ensures Deal(err, deck.cards, board.cards) == FlopDeal(old(deck.cards), old(board.cards))
    {
      if board.State() != Preflop {
        return Some(InvalidBoardState);
      }
      var burn := deck.Burn();
      if burn.Some? {
        return burn;
      }
      var cards := deck.DrawMany(3);
      if cards.Err? {
        return Some(cards.error);
      }
      err := board.SetFlop(cards.value);
    }

    /** DealTurn: see CardDeal. */
    method DealTurn() returns (err: Option<Error>)
      modifies deck, board
      ensures Deal(err, deck.cards, board.cards) == CardDeal(old(deck.cards), old(board.cards), Flop, 3)
    {
      if board.State() != Flop {
        return Some(InvalidBoardState);
      }
      var burn := deck.Burn();
      if burn.Some? {
        return burn;
      }
      var card := deck.Draw();
      if card.Err? {
        return Some(card.error);
      }
      err := board.SetTurn(card.value);
    }

    /** DealRiver: see CardDeal. */
    method DealRiver() returns (err: Option<Error>)
      modifies deck, board
      ensures Deal(err, deck.cards, board.cards) == CardDeal(old(deck.cards), old(board.cards), Turn, 4)
    {
      if board.State() != Turn {
        return Some(InvalidBoardState);
      }
      var burn := deck.Burn();
      if burn.Some? {
        return burn;
      }
      var card := deck.Draw();
      if card.Err? {
        return Some(card.error);
      }
      err := board.SetRiver(card.value);
    }

    /** DealNextStreet: the deal for the board's street. */
    method DealNextStreet() returns (err: Option<Error>)
      modifies deck, board
      ensures Deal(err, deck.cards, board.cards) == NextStreetDeal(old(deck.cards), old(board.cards))
    {
      var s := board.State();
      if s == Preflop {
        err := DealFlop();
      } else if s == Flop {
        err := DealTurn();
      } else if s == Turn {
        err := DealRiver();
      } else {
        err := Some(InvalidBoardState);
      }
    }

    /** GetCandidateHands: see CandidateHands. */
    method GetCandidateHands(player: Player) returns (r: Result<seq<Hand>>)
      ensures r == CandidateHands(player.holeCards, board.cards, player)
    {
      if |board.cards| < 3 {
        return Err(InvalidBoardState);
      }
      var allCards := player.holeCards + board.cards;
      var combos := CardCombinations(allCards, 5);
      assert combos == FiveCardCombos(allCards);
      var hands: seq<Hand> := [];
      for i := 0 to |combos|
        invariant hands == CandidatesOf(combos[..i], player)
      {
        CandidatesSnoc(combos, i, player);
        var hand := NewHandWithPlayer(combos[i], player);
        if hand.Err? {
          continue;
        }
        hands := hands + [hand.value];
      }
      assert combos[..|combos|] == combos;
      return Ok(hands);
    }

    /** GetBestHand: see BestHandFor and BestHandForMeaning. */
    method GetBestHand(player: Player) returns (r: Result<Hand>)
      ensures r == BestHandFor(player.holeCards, board.cards, player)
    {
      var hands := GetCandidateHands(player);
      if hands.Err? {
        return Err(hands.error);
      }
      var hs := hands.value;
      if |hs| == 0 {
        return Err(InvalidBoardState);
      }
      var best := hs[0];
      for i := 1 to |hs|
        invariant best == FirstBest(hs[..i], Compare)
      {
        FirstBestSnoc(hs, i, Compare);
        if Beats(hs[i], best) {
          best := hs[i];
        }
      }
      assert hs[..|hs|] == hs;
      return Ok(best);
    }

    /**
     * GetWinners: at the river, each seat's best hand in turn (the first
     * error stops it), then the winners loop and the split into players and
     * hands; see ShowdownOf and ShowdownMeaning.
     */
    method GetWinners() returns (r: Result<(seq<Player>, seq<Hand>)>)
      ensures r == ShowdownOf(players, Holes(players), board.cards)
    {
      if board.State() != River {
        return Err(InvalidBoardState);
      }
      ghost var holes := Holes(players);
      var bestHands := CollectBestHands(holes);
      if bestHands.Err? {
        SomeSeatFails(players, holes, board.cards);
        return Err(bestHands.error);
      }
      var winners := SelectWinners(bestHands.value);
      SeatsShowdown(players, holes, board.cards, bestHands.value);
      return Ok(winners);
    }

    /**
     * GetWinners' first loop: each seat's best hand in turn, stopping at the
     * first error (always InvalidBoardState, see BestHandForMeaning).
     */
    method CollectBestHands(ghost holes: seq<seq<Card>>) returns (r: Result<seq<PlayerHand>>)
      requires holes == Holes(players)
      ensures r.Err? ==> r.error == InvalidBoardState
                         && exists i :: 0 <= i < |holes| && BestHandFor(holes[i], board.cards, players[i]).Err?
      ensures r.Ok? ==> |r.value| == |players| && forall k :: 0 <= k < |players| ==>
                BestHandFor(holes[k], board.cards, players[k]).Ok?
                && r.value[k] == PlayerHand(players[k], BestHandFor(holes[k], board.cards, players[k]).value)
    {
      var bestHands: seq<PlayerHand> := [];
      for i := 0 to |players|
        invariant |bestHands| == i
        invariant forall k :: 0 <= k < i ==>
                    BestHandFor(holes[k], board.cards, players[k]).Ok?
                    && bestHands[k] == PlayerHand(players[k], BestHandFor(holes[k], board.cards, players[k]).value)
      {
        var best := GetBestHand(players[i]);
        if best.Err? {
          BestHandForMeaning(holes[i], board.cards, players[i]);
          return Err(best.error);
        }
        bestHands := bestHands + [PlayerHand(players[i], best.value)];
      }
      return Ok(bestHands);
    }

    /**
     * GetWinnersParallel's fan-out: GetBestHand for every seat, each result
     * stored at the seat's index (one goroutine per seat, here in turn).
     */
    method SeatResults(ghost holes: seq<seq<Card>>) returns (results: seq<Result<Hand>>)
      requires holes == Holes(players)
      ensures |results| == |players|
      ensures forall k :: 0 <= k < |players| ==> results[k] == BestHandFor(holes[k], board.cards, players[k])
    {
      results := [];
      for i := 0 to |players|
        invariant |results| == i
        invariant forall k :: 0 <= k < i ==> results[k] == BestHandFor(holes[k], board.cards, players[k])
      {
        var best := GetBestHand(players[i]);
        results := results + [best];
      }
    }

    /**
     * GetWinnersParallel: every seat's best hand (one goroutine each, here in
     * turn), then the first error in seat order, then the same winners loop
     * as GetWinners; so both report the same outcome.
     */
    method GetWinnersParallel() returns (r: Result<(seq<Player>, seq<Hand>)>)
      ensures r == ShowdownOf(players, Holes(players), board.cards)
    {
      if board.State() != River {
        return Err(InvalidBoardState);
      }
      ghost var holes := Holes(players);
      var results := SeatResults(holes);
      var failed := FirstError(results);
      if failed.Some? {
        var k :| 0 <= k < |results| && results[k].Err? && failed.value == results[k].error;
        FailedSeat(players, holes, board.cards, k);
        return Err(failed.value);
      }
      var bestHands := Pair(players, results);
      var winners := SelectWinners(bestHands);
      SeatsShowdown(players, holes, board.cards, bestHands);
      return Ok(winners);
    }
  }
}

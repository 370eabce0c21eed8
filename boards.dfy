// The community cards and the street they stand at (board.go).
module Boards {
  import opened Cards
  import opened Errors

  /** A street; Go's BoardState is a plain int, so any int is a value of the type. */
  type BoardState = int

  const Preflop: BoardState := 1
  const Flop: BoardState := 2
  const Turn: BoardState := 3
  const River: BoardState := 4

  function BoardStateString(s: BoardState): (name: string)
    ensures !(Preflop <= s <= River) <==> name == "Unknown"
  {
    match s
    case 1 => "Preflop"
    case 2 => "Flop"
    case 3 => "Turn"
    case 4 => "River"
    case _ => "Unknown"
  }

  /** Each street has its own name. */
  lemma BoardStateStringInjective(a: BoardState, b: BoardState)
    requires Preflop <= a <= River && Preflop <= b <= River
    requires BoardStateString(a) == BoardStateString(b)
    ensures a == b
  {
  }

  /** The street a board of n cards stands at: 0, 3, 4 and 5 cards name one; any other count reads as preflop. */
  function StateOf(n: nat): (s: BoardState)
    ensures Preflop <= s <= River
    ensures s == Flop <==> n == 3
    ensures s == Turn <==> n == 4
    ensures s == River <==> n == 5
    ensures s == Preflop <==> n != 3 && n != 4 && n != 5
  {
    match n
    case 0 => Preflop
    case 3 => Flop
    case 4 => Turn
    case 5 => River
    case _ => Preflop
  }

  class Board {
    var cards: seq<Card>

    /** An empty board. */
    constructor ()
      ensures cards == []
    {
      cards := [];
    }

    /** The street, read off the card count. */
    function State(): BoardState
      reads this
    {
      StateOf(|cards|)
    }

    /** The first three cards once there are at least three; none before. */
    function FlopCards(): (r: Option<seq<Card>>)
      reads this
      ensures r.Some? <==> |cards| >= 3
      ensures r.Some? ==> |r.value| == 3 && r.value == cards[..3] && cards == r.value + cards[3..]
    {
      if |cards| >= 3 then Some(cards[..3]) else None
    }

    /** The fourth card once there are at least four. */
    function TurnCard(): (r: Option<Card>)
      reads this
      ensures r.Some? <==> |cards| >= 4
      ensures r.Some? ==> r.value == cards[3]
    {
      if |cards| >= 4 then Some(cards[3]) else None
    }

    /** The fifth card once there are five. */
    function RiverCard(): (r: Option<Card>)
      reads this
      ensures r.Some? <==> |cards| >= 5
      ensures r.Some? ==> r.value == cards[4]
    {
      if |cards| >= 5 then Some(cards[4]) else None
    }

    /** Three cards go onto an empty board; anything else is refused and nothing changes. */
    method SetFlop(flop: seq<Card>) returns (err: Option<Error>)
      modifies this
      ensures err == FlopError(flop, old(|cards|))
      ensures err == None ==> cards == old(cards) + flop
      ensures err != None ==> cards == old(cards)
    {
      if |flop| != 3 {
        return Some(InvalidBoardState);
      }
      if |cards| != 0 {
        return Some(InvalidBoardState);
      }
      cards := cards + flop;
      return None;
    }

    /** One card goes onto a board of exactly three. */
    method SetTurn(card: Card) returns (err: Option<Error>)
      modifies this
      ensures err == StreetError(old(|cards|), 3)
      ensures err == None ==> cards == old(cards) + [card]
      ensures err != None ==> cards == old(cards)
    {
      if |cards| != 3 {
        return Some(InvalidBoardState);
      }
      cards := cards + [card];
      return None;
    }

    /** One card goes onto a board of exactly four. */
    method SetRiver(card: Card) returns (err: Option<Error>)
      modifies this
      ensures err == StreetError(old(|cards|), 4)
      ensures err == None ==> cards == old(cards) + [card]
      ensures err != None ==> cards == old(cards)
    {
      if |cards| != 4 {
        return Some(InvalidBoardState);
      }
      cards := cards + [card];
      return None;
    }
  }

  /** SetFlop's outcome: accepted exactly for three cards onto an empty board. */
  function FlopError(flop: seq<Card>, have: nat): (err: Option<Error>)
    ensures err == None <==> |flop| == 3 && have == 0
    ensures err != None ==> err == Some(InvalidBoardState)
  {
    if |flop| != 3 || have != 0 then Some(InvalidBoardState) else None
  }

  /** SetTurn's and SetRiver's outcome: accepted exactly when the board holds `need` cards. */
  function StreetError(have: nat, need: nat): (err: Option<Error>)
    ensures err == None <==> have == need
    ensures err != None ==> err == Some(InvalidBoardState)
  {
    if have != need then Some(InvalidBoardState) else None
  }

  /**
   * Through the setters a board only ever holds 0, 3, 4 or 5 cards, and each
   * accepted setter moves it exactly one street on.
   */
  lemma SettersAdvanceStreets(have: nat, flop: seq<Card>)
    requires have == 0 || have == 3 || have == 4 || have == 5
    ensures FlopError(flop, have) == None ==> StateOf(have) == Preflop && StateOf(have + |flop|) == Flop
    ensures StreetError(have, 3) == None ==> StateOf(have) == Flop && StateOf(have + 1) == Turn
    ensures StreetError(have, 4) == None ==> StateOf(have) == Turn && StateOf(have + 1) == River
    ensures have == 5 ==> FlopError(flop, have) != None && StreetError(have, 3) != None && StreetError(have, 4) != None
  {
  }
}

// Dealing, as the game does it: seat names, two hole cards per seat from the
// top of the deck, and the flop, turn and river, each after a burn card
// (game.go). The deals are stated on the deck's and the board's cards; the
// Game class applies them.
module Dealing {
  import opened Cards
  import opened Errors
  import opened Hands
  import opened Decks
  import opened Boards

  // ---------------------------------------------------------------------------
  // Seat names.

  function DigitChar(d: nat): (c: char)
    requires d < 10
    ensures '0' <= c <= '9' && (c as int) - ('0' as int) == d
  {
    (('0' as int) + d) as char
  }

  /** The decimal digits of n, most significant first, with no leading zero. */
  function Decimal(n: nat): (s: string)
    ensures |s| >= 1 && (|s| > 1 ==> s[0] != '0')
    ensures forall i :: 0 <= i < |s| ==> '0' <= s[i] <= '9'
    decreases n
  {
    if n < 10 then [DigitChar(n)] else Decimal(n / 10) + [DigitChar(n % 10)]
  }

  /** The number a string of decimal digits denotes. */
  function DecimalValue(s: string): int
    decreases |s|
  {
    if s == [] then 0 else 10 * DecimalValue(s[..|s| - 1]) + ((s[|s| - 1] as int) - ('0' as int))
  }

  /** Reading the digits back gives the number. */
  lemma {:induction false} DecimalRoundTrip(n: nat)
    ensures DecimalValue(Decimal(n)) == n
    decreases n
  {
    if n >= 10 {
      DecimalRoundTrip(n / 10);
      var s := Decimal(n);
      assert s[..|s| - 1] == Decimal(n / 10);
    }
  }

  /** The name NewGame gives seat i: "Player " and the seat's number counted from 1. */
  function SeatName(i: nat): string {
    "Player " + Decimal(i + 1)
  }

  /** A seat's name after the "Player " prefix is its number. */
  lemma SeatNameNumber(i: nat)
    ensures |SeatName(i)| > 7 && SeatName(i)[7..] == Decimal(i + 1)
  {
    assert |"Player "| == 7;
  }

  /** No two seats share a name. */
  lemma SeatNamesDistinct(i: nat, j: nat)
    requires i != j
    ensures SeatName(i) != SeatName(j)
  {
    SeatNameNumber(i);
    SeatNameNumber(j);
    DecimalRoundTrip(i + 1);
    DecimalRoundTrip(j + 1);
  }

  // ---------------------------------------------------------------------------
  // Dealing.

  /** The seats served before the deck runs out, two cards each. */
  function Served(seats: nat, deckSize: nat): (k: nat)
    ensures k <= seats && 2 * k <= deckSize
    ensures k == seats <==> 2 * seats <= deckSize
    ensures k < seats ==> deckSize < 2 * k + 2
  {
    if 2 * seats <= deckSize then seats else deckSize / 2
  }

  /** The two cards seat i receives when the deck d is dealt from the top, two per seat in turn. */
  function HoleCardsAt(d: seq<Card>, i: nat): (h: seq<Card>)
    requires 2 * i + 2 <= |d|
    ensures h == [d[|d| - 1 - 2 * i], d[|d| - 2 - 2 * i]]
  {
    Drawn(d[..|d| - 2 * i], 2)
  }

  /** Drawing two cards for seat i once the seats before it are served. */
  lemma HoleDraw(d: seq<Card>, i: nat)
    requires 2 * i <= |d|
    ensures var o := DrawManyOutcome(d[..|d| - 2 * i], 2);
      && (2 * i + 2 <= |d| ==> o == (Ok(HoleCardsAt(d, i)), d[..|d| - 2 * (i + 1)]))
      && (|d| < 2 * i + 2 ==> o == (Err(EmptyDeck), []))
  {
    if 2 * i + 2 <= |d| {
      assert d[..|d| - 2 * i][..|d| - 2 * i - 2] == d[..|d| - 2 * (i + 1)];
    }
  }

  /** What a dealing step leaves: the error it reports, the deck and the board. */
  datatype Deal = Deal(err: Option<Error>, deck: seq<Card>, board: seq<Card>)

  /**
   * DealFlop: only on a preflop board; burn one card, draw three, lay them
   * down. The board takes them only when it was empty, so a board of one or
   * two cards (which also reads as preflop) costs the deck four cards and is
   * refused.
   */
  function FlopDeal(deck: seq<Card>, board: seq<Card>): (o: Deal)
    ensures o.err == None <==> |board| == 0 && |deck| >= 4
    ensures o.err == None ==> o.board == [deck[|deck| - 2], deck[|deck| - 3], deck[|deck| - 4]]
                              && o.deck == deck[..|deck| - 4]
    ensures o.err != None ==> o.board == board
    ensures StateOf(|board|) != Preflop ==> o == Deal(Some(InvalidBoardState), deck, board)
    ensures StateOf(|board|) == Preflop && |deck| < 4 ==> o == Deal(Some(EmptyDeck), [], board)
    ensures StateOf(|board|) == Preflop && |board| != 0 && |deck| >= 4
            ==> o == Deal(Some(InvalidBoardState), deck[..|deck| - 4], board)
  {
    if StateOf(|board|) != Preflop then Deal(Some(InvalidBoardState), deck, board)
    else if deck == [] then Deal(Some(EmptyDeck), [], board)
    else
      var burnt := deck[..|deck| - 1];
      var drawn := DrawManyOutcome(burnt, 3);
      if drawn.0.Err? then Deal(Some(drawn.0.error), drawn.1, board)
      else
        assert burnt[..|burnt| - 3] == deck[..|deck| - 4];
        var e := FlopError(drawn.0.value, |board|);
        Deal(e, drawn.1, if e == None then board + drawn.0.value else board)
  }

  /**
   * DealTurn and DealRiver: only at the given street; burn one card, draw one,
   * lay it down on a board of `need` cards.
   */
  function CardDeal(deck: seq<Card>, board: seq<Card>, street: BoardState, need: nat): (o: Deal)
    requires StateOf(need) == street && (need == 3 || need == 4)
    ensures o.err == None <==> |board| == need && |deck| >= 2
    ensures o.err == None ==> o.board == board + [deck[|deck| - 2]] && o.deck == deck[..|deck| - 2]
    ensures o.err != None ==> o.board == board
    ensures |board| != need ==> o == Deal(Some(InvalidBoardState), deck, board)
    ensures |board| == need && |deck| < 2 ==> o == Deal(Some(EmptyDeck), [], board)
  {
    if StateOf(|board|) != street then Deal(Some(InvalidBoardState), deck, board)
    else if deck == [] then Deal(Some(EmptyDeck), [], board)
    else
      var burnt := deck[..|deck| - 1];
      if burnt == [] then Deal(Some(EmptyDeck), [], board)
      else
        var e := StreetError(|board|, need);
        Deal(e, burnt[..|burnt| - 1], if e == None then board + [burnt[|burnt| - 1]] else board)
  }

  /** DealNextStreet: the deal the board's street calls for; a river board takes no more. */
  function NextStreetDeal(deck: seq<Card>, board: seq<Card>): (o: Deal) {
    var s := StateOf(|board|);
    if s == Preflop then FlopDeal(deck, board)
    else if s == Flop then CardDeal(deck, board, Flop, 3)
    else if s == Turn then CardDeal(deck, board, Turn, 4)
    else Deal(Some(InvalidBoardState), deck, board)
  }

  /**
   * From a board the setters can produce, the next street is dealt exactly
   * when the board is short of the river and the deck holds the burn card and
   * the cards drawn; it moves the board one street on and loses no card: the
   * burn card, the cards drawn and the deck left make up the deck. A refused
   * deal leaves the board as it was, and at the river nothing changes.
   */
  lemma NextStreetMeaning(deck: seq<Card>, board: seq<Card>)
    requires |board| == 0 || |board| == 3 || |board| == 4 || |board| == 5
    ensures var o := NextStreetDeal(deck, board);
      && (o.err == None <==> |board| < 5 && |deck| >= (if |board| == 0 then 4 else 2))
      && (o.err == None ==> StateOf(|o.board|) == StateOf(|board|) + 1 && o.board[..|board|] == board
                            && multiset(o.deck) + multiset(o.board[|board|..]) + multiset{deck[|deck| - 1]}
                               == multiset(deck))
      && (o.err != None ==> o.board == board)
      && (|board| == 5 ==> o == Deal(Some(InvalidBoardState), deck, board))
  {
    var o := NextStreetDeal(deck, board);
    if o.err == None {
      if |board| == 0 {
        FlopConserves(deck);
      } else {
        CardConserves(deck, board, o);
      }
    }
  }

  /** An accepted flop takes the burn card and the three drawn from the deck. */
  lemma FlopConserves(deck: seq<Card>)
    requires |deck| >= 4
    ensures var o := FlopDeal(deck, []);
            multiset(o.deck) + multiset(o.board) + multiset{deck[|deck| - 1]} == multiset(deck)
  {
    var k := |deck| - 4;
    var o := FlopDeal(deck, []);
    var top := deck[k..];
    assert o.board == [top[2], top[1], top[0]] && o.deck == deck[..k];
    assert deck == deck[..k] + top;
    TopFour(top, o.board);
  }

  lemma TopFour(top: seq<Card>, b: seq<Card>)
    requires |top| == 4 && b == [top[2], top[1], top[0]]
    ensures multiset(top) == multiset(b) + multiset{top[3]}
  {
    assert top == [top[0]] + [top[1]] + [top[2]] + [top[3]];
  }

  /** An accepted turn or river takes the burn card and the one drawn from the deck. */
  lemma CardConserves(deck: seq<Card>, board: seq<Card>, o: Deal)
    requires |deck| >= 2 && o.deck == deck[..|deck| - 2] && o.board == board + [deck[|deck| - 2]]
    ensures multiset(o.deck) + multiset(o.board[|board|..]) + multiset{deck[|deck| - 1]} == multiset(deck)
  {
    var k := |deck| - 2;
    assert o.board[|board|..] == [deck[k]];
    assert deck == deck[..k] + [deck[k], deck[k + 1]];
  }

  /**
   * Dealing the streets from an empty board and a deck of at least eight
   * cards: the flop, the turn and the river all go through, each after its
   * burn card, and a fourth deal is refused with nothing changed.
   */
  lemma DealToRiver(deck: seq<Card>)
    requires |deck| >= 8
    ensures var L := |deck|;
      var f := NextStreetDeal(deck, []);
      var t := NextStreetDeal(f.deck, f.board);
      var r := NextStreetDeal(t.deck, t.board);
      && f.err == None && t.err == None && r.err == None
      && r.board == [deck[L - 2], deck[L - 3], deck[L - 4], deck[L - 6], deck[L - 8]]
      && r.deck == deck[..L - 8]
      && StateOf(|r.board|) == River
      && NextStreetDeal(r.deck, r.board) == Deal(Some(InvalidBoardState), r.deck, r.board)
  {
    var L := |deck|;
    var f := NextStreetDeal(deck, []);
    assert f.deck == deck[..L - 4];
    var t := NextStreetDeal(f.deck, f.board);
    assert t.deck == deck[..L - 6];
    var r := NextStreetDeal(t.deck, t.board);
    assert r.deck == deck[..L - 8];
  }

  /**
   * A deck with no card twice, dealt to n seats and then to the river, hands
   * out no card twice: two seats share no hole card, and no hole card is on
   * the board.
   */
  lemma DealtCardsDistinct(d: seq<Card>, n: nat)
    requires !HasDuplicate(d) && 2 * n + 8 <= |d|
    ensures var rest := d[..|d| - 2 * n];
      var f := NextStreetDeal(rest, []);
      var t := NextStreetDeal(f.deck, f.board);
      var r := NextStreetDeal(t.deck, t.board);
      && !HasDuplicate(r.board)
      && (forall i, j, c :: 0 <= i < j < n && c in HoleCardsAt(d, i) ==> c !in HoleCardsAt(d, j))
      && (forall i, c :: 0 <= i < n && c in HoleCardsAt(d, i) ==> c !in r.board)
  {
    var L := |d|;
    var rest := d[..L - 2 * n];
    DealToRiver(rest);
    var M := |rest|;
    var f := NextStreetDeal(rest, []);
    var t := NextStreetDeal(f.deck, f.board);
    var r := NextStreetDeal(t.deck, t.board);
    assert r.board == [d[M - 2], d[M - 3], d[M - 4], d[M - 6], d[M - 8]];
    BoardDistinct(d, M, r.board);
    HolesDisjoint(d, n);
    HolesOffBoard(d, n, r.board);
  }

  lemma BoardDistinct(d: seq<Card>, M: nat, b: seq<Card>)
    requires !HasDuplicate(d) && 8 <= M <= |d|
    requires b == [d[M - 2], d[M - 3], d[M - 4], d[M - 6], d[M - 8]]
    ensures !HasDuplicate(b)
  {
    var pos := [M - 2, M - 3, M - 4, M - 6, M - 8];
    forall x, y | 0 <= x < y < |b| ensures b[x] != b[y] {
      assert b[x] == d[pos[x]] && b[y] == d[pos[y]];
    }
  }

  lemma HolesDisjoint(d: seq<Card>, n: nat)
    requires !HasDuplicate(d) && 2 * n <= |d|
    ensures forall i, j, c :: 0 <= i < j < n && c in HoleCardsAt(d, i) ==> c !in HoleCardsAt(d, j)
  {
    var L := |d|;
    forall i, j, c | 0 <= i < j < n && c in HoleCardsAt(d, i) ensures c !in HoleCardsAt(d, j) {
      assert c == d[L - 1 - 2 * i] || c == d[L - 2 - 2 * i];
    }
  }

  lemma HolesOffBoard(d: seq<Card>, n: nat, b: seq<Card>)
    requires !HasDuplicate(d) && 2 * n + 8 <= |d|
    requires var M := |d| - 2 * n; b == [d[M - 2], d[M - 3], d[M - 4], d[M - 6], d[M - 8]]
    ensures forall i, c :: 0 <= i < n && c in HoleCardsAt(d, i) ==> c !in b
  {
    var L := |d|;
    forall i, c | 0 <= i < n && c in HoleCardsAt(d, i) ensures c !in b {
      assert c == d[L - 1 - 2 * i] || c == d[L - 2 - 2 * i];
    }
  }

  /** A sequence holding each card at most once has no card twice. */
  lemma OnceEachNoDuplicate(d: seq<Card>)
    requires forall c: Card :: multiset(d)[c] <= 1
    ensures !HasDuplicate(d)
  {
    forall i, j | 0 <= i < j < |d| ensures d[i] != d[j] {
      assert d == d[..j] + [d[j]] + d[j + 1..];
      assert multiset(d)[d[j]] == multiset(d[..j])[d[j]] + 1 + multiset(d[j + 1..])[d[j]];
      assert d[j] !in d[..j];
      assert d[i] in d[..j];
    }
  }

  /**
   * In a new game of up to 22 players the hole cards and all three streets can
   * be dealt from the shuffled deck without running out, and no card is dealt
   * twice, whatever the shuffle.
   */
  lemma NewGameDealsDistinct(pick: nat -> nat, n: nat)
    requires n <= 22
    ensures var d := Shuffled(StandardDeck(), pick);
      var rest := d[..|d| - 2 * n];
      var f := NextStreetDeal(rest, []);
      var t := NextStreetDeal(f.deck, f.board);
      var r := NextStreetDeal(t.deck, t.board);
      && |d| == 52 && Served(n, |d|) == n
      && f.err == None && t.err == None && r.err == None
      && !HasDuplicate(r.board)
      && (forall i, j, c :: 0 <= i < j < n && c in HoleCardsAt(d, i) ==> c !in HoleCardsAt(d, j))
      && (forall i, c :: 0 <= i < n && c in HoleCardsAt(d, i) ==> c !in r.board)
  {
    var d := Shuffled(StandardDeck(), pick);
    ShufflePermutes(StandardDeck(), pick);
    NewDeckHoldsEveryCardOnce(d);
    OnceEachNoDuplicate(d);
    DealToRiver(d[..|d| - 2 * n]);
    DealtCardsDistinct(d, n);
  }

}

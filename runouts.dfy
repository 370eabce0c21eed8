// Card keys, the used-card set, the remaining deck and the enumerated runouts
// of the equity calculator (equity.go).
module Runouts {
  import opened Cards
  import opened Combinatorics
  import opened Decks

  /** The key of a card: the rune of its rank followed by the rune of its suit. */
  function CardKey(c: Card): (k: string)
    ensures |k| == 2 && k[0] as int == c.rank && k[1] as int == SuitCode(c.suit)
  {
    [c.rank as char, SuitCode(c.suit) as char]
  }

  /** Two cards share a key exactly when they are the same card. */
  lemma CardKeyInjective(a: Card, b: Card)
    ensures CardKey(a) == CardKey(b) <==> a == b
  {
    if CardKey(a) == CardKey(b) {
      assert CardKey(a)[1] == CardKey(b)[1];
      SuitCodeInjective(a.suit, b.suit);
    }
  }

  /** The players' hole cards one after another. */
  function Flatten(hs: seq<seq<Card>>): (r: seq<Card>)
    decreases |hs|
  {
    if hs == [] then [] else Flatten(hs[..|hs| - 1]) + hs[|hs| - 1]
  }

  /** The keys of the given cards. */
  function KeysOf(cards: seq<Card>): set<string> {
    set c | c in cards :: CardKey(c)
  }

  lemma KeysOfAppend(s: seq<Card>, c: Card)
    ensures KeysOf(s + [c]) == KeysOf(s) + {CardKey(c)}
  {
    assert forall d :: d in s + [c] <==> d in s || d == c;
  }

  /** A key is used exactly when its card is among the given ones. */
  lemma KeysOfMeaning(cards: seq<Card>, c: Card)
    ensures CardKey(c) in KeysOf(cards) <==> c in cards
  {
    if CardKey(c) in KeysOf(cards) {
      var d :| d in cards && CardKey(d) == CardKey(c);
      CardKeyInjective(c, d);
    }
  }

  /** The used-card set the two modes build: every hole card, then every board card. */
  method UsedKeys(holeCards: seq<seq<Card>>, board: seq<Card>) returns (used: set<string>)
    ensures used == KeysOf(Flatten(holeCards) + board)
  {
    used := {};
    for i := 0 to |holeCards|
      invariant used == KeysOf(Flatten(holeCards[..i]))
    {
      var hole := holeCards[i];
      for j := 0 to |hole|
        invariant used == KeysOf(Flatten(holeCards[..i]) + hole[..j])
      {
        KeysOfAppend(Flatten(holeCards[..i]) + hole[..j], hole[j]);
        assert Flatten(holeCards[..i]) + hole[..j + 1] == Flatten(holeCards[..i]) + hole[..j] + [hole[j]];
        used := used + {CardKey(hole[j])};
      }
      assert holeCards[..i + 1][..i] == holeCards[..i];
      assert hole[..|hole|] == hole;
    }
    assert holeCards[..|holeCards|] == holeCards;
    for j := 0 to |board|
      invariant used == KeysOf(Flatten(holeCards) + board[..j])
    {
      KeysOfAppend(Flatten(holeCards) + board[..j], board[j]);
      assert Flatten(holeCards) + board[..j + 1] == Flatten(holeCards) + board[..j] + [board[j]];
      used := used + {CardKey(board[j])};
    }
    assert board[..|board|] == board;
  }

  /** The cards of s, in order, whose keys are not used. */
  function Unused(s: seq<Card>, used: set<string>): (r: seq<Card>)
    decreases |s|
  {
    if s == [] then []
    else Unused(s[..|s| - 1], used) + (if CardKey(s[|s| - 1]) in used then [] else [s[|s| - 1]])
  }

  /** One more card is kept exactly when its key is not used. */
  lemma UnusedStep(s: seq<Card>, c: Card, used: set<string>)
    ensures Unused(s + [c], used) == Unused(s, used) + (if CardKey(c) in used then [] else [c])
  {
    assert (s + [c])[..|s|] == s;
  }

  /** The standard deck without the used cards, in suit-then-rank order. */
  function Remaining(used: set<string>): seq<Card> {
    Unused(StandardDeck(), used)
  }

  /** buildRemainingDeck: suit by suit, rank by rank, every card whose key is not used. */
  method BuildRemainingDeck(used: set<string>) returns (deck: seq<Card>)
    ensures deck == Remaining(used)
  {
    deck := [];
    var suits, ranks := AllSuits(), AllRanks();
    for si := 0 to 4
      invariant deck == Unused(StandardDeck()[..13 * si], used)
    {
      for ri := 0 to 13
        invariant deck == Unused(StandardDeck()[..13 * si + ri], used)
      {
        var c := NewCard(ranks[ri], suits[si]);
        DeckStep(si, ri);
        UnusedStep(StandardDeck()[..13 * si + ri], c, used);
        if CardKey(c) !in used {
          deck := deck + [c];
        }
      }
    }
    assert StandardDeck()[..52] == StandardDeck();
  }

  /** The cards of s with no two positions equal. */
  predicate Distinct(s: seq<Card>) {
    forall i, j :: 0 <= i < j < |s| ==> s[i] != s[j]
  }

  lemma {:induction false} UnusedMembers(s: seq<Card>, used: set<string>)
    ensures forall c :: c in Unused(s, used) <==> c in s && CardKey(c) !in used
    decreases |s|
  {
    if s != [] {
      var p, e := s[..|s| - 1], s[|s| - 1];
      assert s == p + [e];
      UnusedMembers(p, used);
    }
  }

  lemma {:induction false} UnusedDistinct(s: seq<Card>, used: set<string>)
    requires Distinct(s)
    ensures Distinct(Unused(s, used))
    decreases |s|
  {
    if s != [] {
      var p, e := s[..|s| - 1], s[|s| - 1];
      assert Distinct(p);
      UnusedDistinct(p, used);
      UnusedMembers(p, used);
      var r := Unused(p, used);
      if CardKey(e) !in used {
        assert e !in p;
        assert e !in r;
        forall i, j | 0 <= i < j < |r + [e]| ensures (r + [e])[i] != (r + [e])[j] {
          if j == |r| { assert (r + [e])[i] == r[i]; }
        }
      }
    }
  }

  /** A new card adds its key to the used keys it meets exactly when that key is used. */
  lemma UsedKeysStep(p: seq<Card>, e: Card, used: set<string>)
    requires e !in p
    ensures |used * KeysOf(p + [e])| == |used * KeysOf(p)| + (if CardKey(e) in used then 1 else 0)
  {
    KeysOfAppend(p, e);
    KeysOfMeaning(p, e);
    if CardKey(e) in used {
      assert used * KeysOf(p + [e]) == (used * KeysOf(p)) + {CardKey(e)};
    } else {
      assert used * KeysOf(p + [e]) == used * KeysOf(p);
    }
  }

  lemma {:induction false} UnusedCount(s: seq<Card>, used: set<string>)
    requires Distinct(s)
    ensures |Unused(s, used)| == |s| - |used * KeysOf(s)|
    decreases |s|
  {
    if s != [] {
      var p, e := s[..|s| - 1], s[|s| - 1];
      assert s == p + [e];
      assert Distinct(p);
      UnusedCount(p, used);
      assert e !in p;
      UsedKeysStep(p, e, used);
    }
  }

  /**
   * buildRemainingDeck returns, without duplicates, exactly the cards whose key
   * is not used.
   */
  lemma RemainingMeaning(used: set<string>)
    ensures forall c :: c in Remaining(used) <==> CardKey(c) !in used
    ensures Distinct(Remaining(used))
  {
    StandardDeckComplete();
    UnusedMembers(StandardDeck(), used);
    UnusedDistinct(StandardDeck(), used);
  }

  /** The used keys of the players' and the board's cards leave 52 - |used| cards. */
  lemma RemainingCount(cards: seq<Card>)
    ensures |Remaining(KeysOf(cards))| == 52 - |KeysOf(cards)|
  {
    var used := KeysOf(cards);
    StandardDeckComplete();
    UnusedCount(StandardDeck(), used);
    KeysAreDeckKeys(cards);
    assert used * KeysOf(StandardDeck()) == used;
  }

  /** Every key of a card is the key of a card of the standard deck. */
  lemma KeysAreDeckKeys(cards: seq<Card>)
    ensures KeysOf(cards) <= KeysOf(StandardDeck())
  {
    StandardDeckComplete();
  }

  // ---------------------------------------------------------------------------
  // The runouts of the exact mode.

  /** Combinations(remaining, cardsNeeded): nil when nothing or too much is needed. */
  function ExactCombos(remaining: seq<Card>, cardsNeeded: int): (r: seq<seq<Card>>)
    ensures cardsNeeded <= 0 || cardsNeeded > |remaining| ==> r == []
    ensures forall t :: 0 <= t < |r| ==> |r[t]| == cardsNeeded
  {
    ChooseLength(remaining, 0, if cardsNeeded < 0 then 0 else cardsNeeded);
    if cardsNeeded <= 0 || cardsNeeded > |remaining| then [] else Choose(remaining, 0, cardsNeeded)
  }

  /** The enumerated runouts of CalculateExact for the given hole cards and board. */
  function ExactRunouts(holeCards: seq<seq<Card>>, board: seq<Card>): seq<seq<Card>> {
    ExactCombos(Remaining(KeysOf(Flatten(holeCards) + board)), 5 - |board|)
  }

  /** The used cards of the players and the board, then the deck without them. */
  method RemainingFor(holeCards: seq<seq<Card>>, board: seq<Card>) returns (deck: seq<Card>)
    ensures deck == Remaining(KeysOf(Flatten(holeCards) + board))
  {
    var usedCards := UsedKeys(holeCards, board);
    deck := BuildRemainingDeck(usedCards);
  }

  /** CalculateExact's combinations: the remaining deck, then every choice of 5 - |board| of its cards. */
  method RunoutsFor(holeCards: seq<seq<Card>>, board: seq<Card>) returns (combos: seq<seq<Card>>)
    ensures combos == ExactRunouts(holeCards, board)
  {
    var remainingDeck := RemainingFor(holeCards, board);
    var cardsNeeded := 5 - |board|;
    assert ExactRunouts(holeCards, board) == ExactCombos(remainingDeck, cardsNeeded);
    combos := CardCombinations(remainingDeck, cardsNeeded);
  }

  /**
   * The exact total: C(|remaining|, 5 - |board|) combinations when one to all
   * of the remaining cards are needed; with a complete board no card is needed,
   * the generator yields nothing, and Total is 0.
   */
  lemma ExactTotal(holeCards: seq<seq<Card>>, board: seq<Card>)
    ensures var remaining := Remaining(KeysOf(Flatten(holeCards) + board));
      && (0 < 5 - |board| <= |remaining| ==> |ExactRunouts(holeCards, board)| == Binomial(|remaining|, 5 - |board|))
      && (|board| >= 5 ==> ExactRunouts(holeCards, board) == [])
  {
    var used := KeysOf(Flatten(holeCards) + board);
    var remaining, n := Remaining(used), 5 - |board|;
    assert ExactRunouts(holeCards, board) == ExactCombos(remaining, n);
    ExactCount(remaining, n);
  }

  /** The generator yields C(|remaining|, n) combinations when 0 < n <= |remaining|. */
  lemma ExactCount(remaining: seq<Card>, n: int)
    ensures 0 < n <= |remaining| ==> |ExactCombos(remaining, n)| == Binomial(|remaining|, n)
  {
    if 0 < n <= |remaining| {
      assert ExactCombos(remaining, n) == Choose(remaining, 0, n);
      ChooseCount(remaining, 0, n);
    }
  }

  /** Two players and a four-card board, all eight cards different: 44 runouts. */
  lemma RiverEnumeration(holeCards: seq<seq<Card>>, board: seq<Card>)
    requires |board| == 4 && |KeysOf(Flatten(holeCards) + board)| == 8
    ensures |ExactRunouts(holeCards, board)| == 44
  {
    RemainingCount(Flatten(holeCards) + board);
    ExactTotal(holeCards, board);
    BinomialOne(44);
  }

  // ---------------------------------------------------------------------------
  // The full boards of the trials.

  /** The runouts of a trial stand for shuffled copies of the remaining deck. */
  ghost predicate Shuffles(runouts: seq<seq<Card>>, deck: seq<Card>) {
    forall t {:trigger multiset(runouts[t])} :: 0 <= t < |runouts| ==> multiset(runouts[t]) == multiset(deck)
  }

  /** A slice of shuffled copies holds shuffled copies. */
  lemma ShufflesSlice(runouts: seq<seq<Card>>, deck: seq<Card>, a: nat, b: nat)
    requires a <= b <= |runouts| && Shuffles(runouts, deck)
    ensures Shuffles(runouts[a..b], deck)
  {
    var mine := runouts[a..b];
    forall t | 0 <= t < |mine| ensures multiset(mine[t]) == multiset(deck) {
      assert mine[t] == runouts[a + t];
    }
  }

  /** A shuffled copy has the deck's length. */
  lemma ShufflesLength(runouts: seq<seq<Card>>, deck: seq<Card>)
    requires Shuffles(runouts, deck)
    ensures forall t :: 0 <= t < |runouts| ==> |runouts[t]| == |deck|
  {
    forall t | 0 <= t < |runouts| ensures |runouts[t]| == |deck| {
      assert |runouts[t]| == |multiset(runouts[t])| == |multiset(deck)| == |deck|;
    }
  }

  /** One trial's full board per runout: the known board, then the first cards of the runout. */
  function FullBoards(board: seq<Card>, runouts: seq<seq<Card>>, cardsNeeded: int): (b: seq<seq<Card>>)
    requires runouts != [] ==> cardsNeeded >= 0
    requires forall t :: 0 <= t < |runouts| ==> cardsNeeded <= |runouts[t]|
    ensures |b| == |runouts|
    ensures forall t {:trigger b[t]} :: 0 <= t < |runouts| ==> b[t] == board + runouts[t][..cardsNeeded]
  {
    seq(|runouts|, t requires 0 <= t < |runouts| => board + runouts[t][..cardsNeeded])
  }

  /** The full boards of a slice of the runouts are the slice of the full boards. */
  lemma FullBoardsSlice(board: seq<Card>, runouts: seq<seq<Card>>, n: int, a: nat, b: nat)
    requires a <= b <= |runouts|
    requires runouts != [] ==> n >= 0
    requires forall t :: 0 <= t < |runouts| ==> n <= |runouts[t]|
    ensures a < b ==> n >= 0
    ensures forall t :: 0 <= t < b - a ==> n <= |runouts[a..b][t]|
    ensures FullBoards(board, runouts[a..b], n) == FullBoards(board, runouts, n)[a..b]
  {
    assert forall t :: 0 <= t < b - a ==> runouts[a..b][t] == runouts[a + t];
  }

  /** Each enumerated combination completes the board. */
  function ExactBoards(board: seq<Card>, combos: seq<seq<Card>>): (b: seq<seq<Card>>)
    ensures |b| == |combos|
    ensures forall t {:trigger b[t]} :: 0 <= t < |combos| ==> b[t] == board + combos[t]
  {
    seq(|combos|, t requires 0 <= t < |combos| => board + combos[t])
  }

  /** s[..k + 1] is s[..k] followed by s[k]. */
  lemma PrefixStep<T>(s: seq<T>, k: nat)
    requires k < |s|
    ensures s[..k + 1] == s[..k] + [s[k]]
  {
  }

  /** s[..b] is s[..a] followed by s[a..b]. */
  lemma PrefixSplit<T>(s: seq<T>, a: nat, b: nat)
    requires a <= b <= |s|
    ensures s[..b] == s[..a] + s[a..b]
  {
  }
}

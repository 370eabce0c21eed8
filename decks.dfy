// The deck: a stack of cards drawn from the end (deck.go).
module Decks {
  import opened Cards
  import opened Errors

  /** The 52 cards in construction order: suit by suit, each suit from Two to Ace. */
  function StandardDeck(): (d: seq<Card>)
    ensures |d| == 52
  {
    seq(52, i requires 0 <= i < 52 => Card(AllRanks()[i % 13], AllSuits()[i / 13]))
  }

  /** Where each card sits in the standard deck. */
  lemma StandardDeckIndex(c: Card)
    ensures 0 <= 13 * SuitCode(c.suit) + c.rank - 2 < 52
    ensures StandardDeck()[13 * SuitCode(c.suit) + c.rank - 2] == c
  {
    var i := 13 * SuitCode(c.suit) + c.rank - 2;
    Position(SuitCode(c.suit), c.rank - 2);
    assert AllRanks()[c.rank - 2] == c.rank;
    assert AllSuits()[SuitCode(c.suit)] == c.suit;
  }

  /** Position 13 * suit + rank index splits back into its two parts. */
  lemma Position(si: nat, ri: nat)
    requires ri < 13
    ensures (13 * si + ri) % 13 == ri && (13 * si + ri) / 13 == si
  {
  }

  /** Every card is in the standard deck exactly once. */
  lemma StandardDeckComplete()
    ensures forall c: Card :: c in StandardDeck()
    ensures forall i, j :: 0 <= i < j < 52 ==> StandardDeck()[i] != StandardDeck()[j]
  {
    forall c: Card ensures c in StandardDeck() {
      StandardDeckIndex(c);
    }
    forall i, j | 0 <= i < j < 52 ensures StandardDeck()[i] != StandardDeck()[j] {
      var ranks, suits := AllRanks(), AllSuits();
      assert StandardDeck()[i] == Card(ranks[i % 13], suits[i / 13]);
      assert StandardDeck()[j] == Card(ranks[j % 13], suits[j / 13]);
      if i / 13 == j / 13 {
        assert i % 13 != j % 13;
        assert ranks[i % 13] != ranks[j % 13];
      } else {
        assert suits[i / 13] != suits[j / 13];
      }
    }
  }

  /** The cards with positions i and j exchanged. */
  function Swap(s: seq<Card>, i: nat, j: nat): (r: seq<Card>)
    requires i < |s| && j < |s|
    ensures |r| == |s|
  {
    seq(|s|, k requires 0 <= k < |s| => if k == i then s[j] else if k == j then s[i] else s[k])
  }

  /**
   * The first k steps of the Fisher-Yates shuffle that rand.Shuffle performs:
   * step t swaps position i = |s|-1-t with pick(i) mod (i+1). The random
   * source is the parameter `pick`.
   */
  function ShuffleSteps(s: seq<Card>, pick: nat -> nat, k: nat): (r: seq<Card>)
    requires k < |s| || (k == 0 && s == [])
    ensures |r| == |s|
  {
    if k == 0 then s
    else
      var i := |s| - k;
      Swap(ShuffleSteps(s, pick, k - 1), i, pick(i) % (i + 1))
  }

  lemma ShuffleStepsNext(s: seq<Card>, pick: nat -> nat, k: nat, i: nat, j: nat)
    requires k + 1 < |s| && i == |s| - 1 - k && j == pick(i) % (i + 1)
    ensures ShuffleSteps(s, pick, k + 1) == Swap(ShuffleSteps(s, pick, k), i, j)
  {
  }

  /** The whole shuffle: every position from the last down to 1. */
  function Shuffled(s: seq<Card>, pick: nat -> nat): (r: seq<Card>)
    ensures |r| == |s|
  {
    if s == [] then s else ShuffleSteps(s, pick, |s| - 1)
  }

  /** A swap only reorders the cards. */
  lemma SwapPermutes(s: seq<Card>, i: nat, j: nat)
    requires i < |s| && j < |s|
    ensures multiset(Swap(s, i, j)) == multiset(s)
  {
    assert Swap(s, i, j) == s[i := s[j]][j := s[i]];
  }

  /** One step of the shuffle swaps two cards and so keeps the multiset of cards. */
  lemma ShuffleStepPermutes(s: seq<Card>, pick: nat -> nat, k: nat)
    requires 0 < k < |s|
    ensures multiset(ShuffleSteps(s, pick, k)) == multiset(ShuffleSteps(s, pick, k - 1))
  {
    var i := |s| - k;
    SwapPermutes(ShuffleSteps(s, pick, k - 1), i, pick(i) % (i + 1));
  }

  lemma {:induction false} ShuffleStepsPermute(s: seq<Card>, pick: nat -> nat, k: nat)
    requires k < |s| || (k == 0 && s == [])
    ensures multiset(ShuffleSteps(s, pick, k)) == multiset(s)
  {
    if k > 0 {
      ShuffleStepsPermute(s, pick, k - 1);
      ShuffleStepPermutes(s, pick, k);
    }
  }

  /** Whatever the random source, a shuffle is a permutation. */
  lemma ShufflePermutes(s: seq<Card>, pick: nat -> nat)
    ensures multiset(Shuffled(s, pick)) == multiset(s)
  {
    if s != [] {
      ShuffleStepsPermute(s, pick, |s| - 1);
    }
  }

  /** The n cards Draw would return in turn: the last card first. */
  function Drawn(s: seq<Card>, n: nat): (r: seq<Card>)
    requires n <= |s|
    ensures |r| == n
    ensures forall i :: 0 <= i < n ==> r[i] == s[|s| - 1 - i]
  {
    seq(n, i requires 0 <= i < n => s[|s| - 1 - i])
  }

  /** Drawing loses no card: what is drawn and what is left make up the deck. */
  lemma {:induction false} DrawnConserves(s: seq<Card>, n: nat)
    requires n <= |s|
    ensures multiset(Drawn(s, n)) + multiset(s[..|s| - n]) == multiset(s)
  {
    if n == 0 {
      assert s[..|s|] == s;
    } else {
      DrawnConserves(s, n - 1);
      var k := |s| - n;
      assert Drawn(s, n) == Drawn(s, n - 1) + [s[k]];
      assert s[..k + 1] == s[..k] + [s[k]];
      calc {
        multiset(Drawn(s, n)) + multiset(s[..k]);
        multiset(Drawn(s, n - 1)) + multiset{s[k]} + multiset(s[..k]);
        multiset(Drawn(s, n - 1)) + (multiset(s[..k]) + multiset{s[k]});
        multiset(Drawn(s, n - 1)) + multiset(s[..k + 1]);
        multiset(s);
      }
    }
  }

  /** DrawMany's result and the cards left: all n on success; otherwise the deck runs out. */
  function DrawManyOutcome(s: seq<Card>, n: nat): (o: (Result<seq<Card>>, seq<Card>))
    ensures o.0.Ok? <==> n <= |s|
    ensures o.0.Err? ==> o.0.error == EmptyDeck && o.1 == []
    ensures o.0.Ok? ==> |o.0.value| == n && multiset(o.0.value) + multiset(o.1) == multiset(s)
  {
    if n <= |s| then
      DrawnConserves(s, n);
      (Ok(Drawn(s, n)), s[..|s| - n])
    else (Err(EmptyDeck), [])
  }

  /** One step of NewDeck's nested loops appends the next card of the standard deck. */
  lemma DeckStep(si: nat, ri: nat)
    requires si < 4 && ri < 13
    ensures StandardDeck()[..13 * si + ri + 1] == StandardDeck()[..13 * si + ri] + [NewCard(AllRanks()[ri], AllSuits()[si])]
  {
    var k := 13 * si + ri;
    Position(si, ri);
    assert StandardDeck()[k] == NewCard(AllRanks()[ri], AllSuits()[si]);
    assert StandardDeck()[..k + 1] == StandardDeck()[..k] + [StandardDeck()[k]];
  }

  class Deck {
    var cards: seq<Card>

    /** NewDeck: the standard deck, shuffled with the random source `pick`. */
    constructor (pick: nat -> nat)
      ensures cards == Shuffled(StandardDeck(), pick)
      ensures |cards| == 52 && multiset(cards) == multiset(StandardDeck())
    {
      var d: seq<Card> := [];
      var suits, ranks := AllSuits(), AllRanks();
      for si := 0 to 4
        invariant d == StandardDeck()[..13 * si]
      {
        for ri := 0 to 13
          invariant d == StandardDeck()[..13 * si + ri]
        {
          DeckStep(si, ri);
          d := d + [NewCard(ranks[ri], suits[si])];
        }
      }
      assert d == StandardDeck();
      cards := d;
      new;
      Shuffle(pick);
      ShufflePermutes(StandardDeck(), pick);
    }

    /** rand.Shuffle with the random source `pick`: a permutation of the cards. */
    method Shuffle(pick: nat -> nat)
      modifies this
      ensures cards == Shuffled(old(cards), pick)
    {
      if |cards| == 0 {
        return;
      }
      var start, c := cards, cards;
      var k := 0;
      while k < |start| - 1
        invariant 0 <= k < |start| && c == ShuffleSteps(start, pick, k)
      {
        var i := |start| - 1 - k;
        var j := pick(i) % (i + 1);
        ShuffleStepsNext(start, pick, k, i, j);
        c := Swap(c, i, j);
        k := k + 1;
      }
      cards := c;
    }

    function Len(): (n: nat)
      reads this
      ensures n == |cards|
    {
      |cards|
    }

    /** Take the last card; an empty deck reports EmptyDeck and stays empty. */
    method Draw() returns (r: Result<Card>)
      modifies this
      ensures old(cards) == [] ==> r == Err(EmptyDeck) && cards == []
      ensures old(cards) != [] ==> r == Ok(old(cards)[|old(cards)| - 1]) && cards == old(cards)[..|old(cards)| - 1]
    {
      if |cards| == 0 {
        return Err(EmptyDeck);
      }
      var card := cards[|cards| - 1];
      cards := cards[..|cards| - 1];
      return Ok(card);
    }

    /** Draw n times; on the first failed draw stop with its error (Go panics for negative n). */
    method DrawMany(n: int) returns (r: Result<seq<Card>>)
      requires n >= 0
      modifies this
      ensures (r, cards) == DrawManyOutcome(old(cards), n)
    {
      ghost var start := cards;
      var drawn: seq<Card> := [];
      for i := 0 to n
        invariant i <= |start| && drawn == Drawn(start, i) && cards == start[..|start| - i]
      {
        var card := Draw();
        if card.Err? {
          return Err(card.error);
        }
        drawn := drawn + [card.value];
      }
      return Ok(drawn);
    }

    /** Discard the last card; the error is Draw's. */
    method Burn() returns (err: Option<Error>)
      modifies this
      ensures old(cards) == [] ==> err == Some(EmptyDeck) && cards == []
      ensures old(cards) != [] ==> err == None && cards == old(cards)[..|old(cards)| - 1]
    {
      var r := Draw();
      if r.Err? {
        return Some(r.error);
      }
      return None;
    }

    /** A copy of the cards left. */
    method Remaining() returns (r: seq<Card>)
      ensures r == cards
    {
      r := cards;
    }
  }

  /** A new deck holds each of the 52 cards exactly once, in some order. */
  lemma NewDeckHoldsEveryCardOnce(d: seq<Card>)
    requires multiset(d) == multiset(StandardDeck())
    ensures |d| == 52
    ensures forall c: Card :: multiset(d)[c] == 1
  {
    StandardDeckComplete();
    assert |d| == |multiset(d)| == 52;
    forall c: Card ensures multiset(StandardDeck())[c] == 1 {
      StandardDeckIndex(c);
      var k := 13 * SuitCode(c.suit) + c.rank - 2;
      var sd := StandardDeck();
      assert sd == sd[..k] + [c] + sd[k + 1..];
      assert c !in sd[..k] by {
        forall i | 0 <= i < k ensures sd[..k][i] != c { }
      }
      assert c !in sd[k + 1..] by {
        forall i | k + 1 <= i < 52 ensures sd[i] != c { }
      }
    }
  }
}

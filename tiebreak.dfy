// What the tie-break score and Compare see of a hand: the number of cards of
// each rank, and whether the hand is a flush. Suits enter nowhere else, so
// hands with the same ranks in other suits tie (hand.go, TiebreakScore and
// Compare).
module Tiebreaks {
  import opened Cards
  import opened HandRanks
  import opened Hands
  import opened HandFacts

  // ---------------------------------------------------------------------------
  // Rank counts.

  /** The number of cards of rank r is the number of copies of the four cards of that rank. */
  lemma {:induction false} CountBySuits(cards: seq<Card>, r: Rank)
    ensures Count(cards, r) == multiset(cards)[Card(r, Clubs)] + multiset(cards)[Card(r, Diamonds)]
                             + multiset(cards)[Card(r, Hearts)] + multiset(cards)[Card(r, Spades)]
  {
    if cards != [] {
      var front, c := cards[..|cards| - 1], cards[|cards| - 1];
      assert cards == front + [c];
      assert multiset(cards) == multiset(front) + multiset{c};
      CountBySuits(front, r);
      CountLast(cards, r);
      if c.rank == r {
        match c.suit
        case Clubs => assert c == Card(r, Clubs);
        case Diamonds => assert c == Card(r, Diamonds);
        case Hearts => assert c == Card(r, Hearts);
        case Spades => assert c == Card(r, Spades);
      }
    }
  }

  /** Reordering the cards keeps every rank's count. */
  lemma CountsOfPermutation(a: seq<Card>, b: seq<Card>)
    requires multiset(a) == multiset(b)
    ensures forall r: Rank :: Count(a, r) == Count(b, r)
  {
    forall r: Rank ensures Count(a, r) == Count(b, r) {
      CountBySuits(a, r);
      CountBySuits(b, r);
    }
  }

  // ---------------------------------------------------------------------------
  // The sort keys of the counted cards.

  /** The key the sort orders an entry by: its count, then its rank. */
  function KeyOf(x: CardWithCount): (int, int) {
    (x.count, x.card.rank)
  }

  /** The keys of the entries, in order. */
  function Keys(s: seq<CardWithCount>): (k: seq<(int, int)>)
    ensures |k| == |s| && forall i :: 0 <= i < |s| ==> k[i] == KeyOf(s[i])
  {
    seq(|s|, i requires 0 <= i < |s| => KeyOf(s[i]))
  }

  /** The sort's less function read on keys. */
  predicate KeyBefore(a: (int, int), b: (int, int)) {
    a.0 > b.0 || (a.0 == b.0 && a.1 > b.1)
  }

  ghost predicate KeysSorted(k: seq<(int, int)>) {
    forall i, j :: 0 <= i < j < |k| ==> !KeyBefore(k[j], k[i])
  }

  /** How often a key occurs among the counted cards: as often as its rank, if its count is that rank's count. */
  lemma {:induction false} KeysOfCounts(cards: seq<Card>, all: seq<Card>, p: (int, int))
    ensures multiset(Keys(WithCounts(cards, all)))[p]
         == if 2 <= p.1 <= 14 && p.0 == Count(all, p.1) then Count(cards, p.1) else 0
  {
    if cards != [] {
      var front, c := cards[..|cards| - 1], cards[|cards| - 1];
      var w := WithCounts(front, all);
      var x := CardWithCount(c, Count(all, c.rank));
      assert WithCounts(cards, all) == w + [x];
      assert Keys(w + [x]) == Keys(w) + [KeyOf(x)];
      KeysOfCounts(front, all, p);
      if 2 <= p.1 <= 14 {
        CountLast(cards, p.1);
      }
    }
  }

  /** Cards with the same rank counts give the same keys, in some order. */
  lemma SameCountsSameKeys(a: seq<Card>, b: seq<Card>)
    requires forall r: Rank :: Count(a, r) == Count(b, r)
    ensures multiset(Keys(WithCounts(a, a))) == multiset(Keys(WithCounts(b, b)))
  {
    forall p: (int, int) ensures multiset(Keys(WithCounts(a, a)))[p] == multiset(Keys(WithCounts(b, b)))[p] {
      KeysOfCounts(a, a, p);
      KeysOfCounts(b, b, p);
    }
  }

  // ---------------------------------------------------------------------------
  // The sort on keys.

  /** InsertByCount on keys. */
  function InsertKey(x: (int, int), k: seq<(int, int)>): (r: seq<(int, int)>)
    ensures multiset(r) == multiset(k) + multiset{x}
  {
    if k == [] then [x]
    else if !KeyBefore(k[0], x) then [x] + k
    else
      assert k == [k[0]] + k[1..];
      [k[0]] + InsertKey(x, k[1..])
  }

  /** SortByCount on keys. */
  function SortKeys(k: seq<(int, int)>): (r: seq<(int, int)>)
    ensures multiset(r) == multiset(k)
  {
    if k == [] then []
    else
      assert k == [k[0]] + k[1..];
      InsertKey(k[0], SortKeys(k[1..]))
  }

  /** InsertByCount and InsertKey take the same steps: the keys of the inserted entries are the inserted keys. */
  lemma {:induction false} InsertKeys(x: CardWithCount, s: seq<CardWithCount>)
    ensures Keys(InsertByCount(x, s)) == InsertKey(KeyOf(x), Keys(s))
  {
    if s == [] {
      assert Keys([x]) == [KeyOf(x)];
    } else if Before(s[0], x) {
      InsertKeys(x, s[1..]);
      InsertKeysPast(x, s);
    } else {
      InsertKeysFront(x, s);
    }
  }

  lemma {:induction false} InsertKeysFront(x: CardWithCount, s: seq<CardWithCount>)
    requires s != [] && !Before(s[0], x)
    ensures Keys(InsertByCount(x, s)) == InsertKey(KeyOf(x), Keys(s))
  {
    KeysCons(x, s);
    KeysTail(s);
  }

  lemma {:induction false} InsertKeysPast(x: CardWithCount, s: seq<CardWithCount>)
    requires s != [] && Before(s[0], x)
    requires Keys(InsertByCount(x, s[1..])) == InsertKey(KeyOf(x), Keys(s[1..]))
    ensures Keys(InsertByCount(x, s)) == InsertKey(KeyOf(x), Keys(s))
  {
    KeysCons(s[0], InsertByCount(x, s[1..]));
    KeysTail(s);
  }

  /** The keys of an entry followed by more entries. */
  lemma KeysCons(c: CardWithCount, rest: seq<CardWithCount>)
    ensures Keys([c] + rest) == [KeyOf(c)] + Keys(rest)
  {
  }

  /** The keys of a non-empty sequence: its first entry's key, then the keys of the rest. */
  lemma KeysTail(s: seq<CardWithCount>)
    requires s != []
    ensures Keys(s) == [KeyOf(s[0])] + Keys(s[1..])
  {
  }

  /** The keys of the sorted entries are the sorted keys. */
  lemma {:induction false} SortKeysOf(s: seq<CardWithCount>)
    ensures Keys(SortByCount(s)) == SortKeys(Keys(s))
  {
    if s != [] {
      var rest := SortByCount(s[1..]);
      assert SortByCount(s) == InsertByCount(s[0], rest);
      SortKeysOf(s[1..]);
      InsertKeys(s[0], rest);
      KeysTail(s);
    }
  }

  /** Sorted entries have sorted keys. */
  lemma SortedKeysOf(s: seq<CardWithCount>)
    requires SortedByCount(s)
    ensures KeysSorted(Keys(s))
  {
  }

  /** The first of two sorted key sequences with the same keys is the same key. */
  lemma SortedHeads(p: seq<(int, int)>, q: seq<(int, int)>)
    requires p != [] && q != []
    requires KeysSorted(p) && KeysSorted(q) && multiset(p) == multiset(q)
    ensures p[0] == q[0]
  {
    assert p[0] in multiset(q) && q[0] in multiset(p);
    var i :| 0 <= i < |q| && q[i] == p[0];
    var j :| 0 <= j < |p| && p[j] == q[0];
    assert !KeyBefore(p[0], q[0]) by {
      if i > 0 { assert !KeyBefore(q[i], q[0]); }
    }
    assert !KeyBefore(q[0], p[0]) by {
      if j > 0 { assert !KeyBefore(p[j], p[0]); }
    }
  }

  /** Dropping the first key keeps the rest sorted and removes one copy of it. */
  lemma SortedTail(p: seq<(int, int)>)
    requires p != [] && KeysSorted(p)
    ensures KeysSorted(p[1..])
    ensures multiset(p[1..]) == multiset(p) - multiset{p[0]}
  {
    assert p == [p[0]] + p[1..];
    assert multiset(p) == multiset{p[0]} + multiset(p[1..]);
  }

  /**
   * Two sorted key sequences with the same keys are equal: keys that neither
   * precedes the other are the same key, so the sort leaves no choice.
   */
  lemma {:induction false} SortedUnique(p: seq<(int, int)>, q: seq<(int, int)>)
    requires KeysSorted(p) && KeysSorted(q) && multiset(p) == multiset(q)
    ensures p == q
    decreases |p|
  {
    assert |p| == |multiset(p)| == |q|;
    if p != [] {
      SortedHeads(p, q);
      SortedTail(p);
      SortedTail(q);
      SortedUnique(p[1..], q[1..]);
      assert p == [p[0]] + p[1..] && q == [q[0]] + q[1..];
    }
  }

  // ---------------------------------------------------------------------------
  // The score.

  /** The packed score reads only the ranks of the sorted entries. */
  lemma {:induction false} PackPrefixByRanks(s: seq<CardWithCount>, t: seq<CardWithCount>, n: nat)
    requires n <= |s| == |t|
    requires forall i :: 0 <= i < |s| ==> s[i].card.rank == t[i].card.rank
    ensures PackPrefix(s, n) == PackPrefix(t, n)
  {
    if n > 0 {
      PackPrefixByRanks(s, t, n - 1);
    }
  }

  /**
   * The tie-break score depends only on how many cards of each rank there
   * are: reordering the cards or changing their suits leaves the score alone.
   */
  lemma ScoreByRankCounts(a: seq<Card>, b: seq<Card>)
    requires forall r: Rank :: Count(a, r) == Count(b, r)
    ensures KeyRanks(a) == KeyRanks(b)
    ensures Score(a) == Score(b)
  {
    var sa, sb := KeyOrder(a), KeyOrder(b);
    SortKeysOf(WithCounts(a, a));
    SortKeysOf(WithCounts(b, b));
    SortedKeysOf(sa);
    SortedKeysOf(sb);
    SameCountsSameKeys(a, b);
    SortedUnique(Keys(sa), Keys(sb));
    assert forall i :: 0 <= i < |sa| ==> sa[i].card.rank == Keys(sa)[i].1 == Keys(sb)[i].1 == sb[i].card.rank;
    PackPrefixByRanks(sa, sb, |sa|);
  }

  // ---------------------------------------------------------------------------
  // Compare.

  /** Cards with the same rank counts hold the same ranks, so they have the same rank mask. */
  lemma SameCountsSameMask(a: seq<Card>, b: seq<Card>)
    requires forall r: Rank :: Count(a, r) == Count(b, r)
    ensures CardValuesOf(a) == CardValuesOf(b)
  {
    forall r: Rank ensures HasRank(CardValuesOf(a), r) == HasRank(CardValuesOf(b), r) {
      assert Count(a, r) > 0 <==> HoldsRank(a, r);
      assert Count(b, r) > 0 <==> HoldsRank(b, r);
    }
    SameRanksSameMask(CardValuesOf(a), CardValuesOf(b));
  }

  /**
   * Two evaluated hands with the same number of cards of each rank, both
   * flushes or both not, have the same category and the same score, so they
   * tie: the suits matter only through the flush test.
   */
  lemma SameRanksTie(h: Hand, o: Hand)
    requires Evaluated(h) && Evaluated(o)
    requires forall r: Rank :: Count(h.cards, r) == Count(o.cards, r)
    requires h.isFlush == o.isFlush
    ensures h.handRank == o.handRank && h.isStraight == o.isStraight && h.isWheel == o.isWheel
    ensures Score(h.cards) == Score(o.cards)
    ensures Ties(h, o) && Ties(o, h)
  {
    SameCountsSameMask(h.cards, o.cards);
    assert RanksWithCount(h.cards, 2) == RanksWithCount(o.cards, 2);
    assert RanksWithCount(h.cards, 3) == RanksWithCount(o.cards, 3);
    assert RanksWithCount(h.cards, 4) == RanksWithCount(o.cards, 4);
    ScoreByRankCounts(h.cards, o.cards);
  }

  /**
   * NewHand on two sets of cards that hold the same ranks, the same number
   * of times each, gives hands that tie, unless exactly one of them is a flush.
   */
  lemma SameRanksOtherSuitsTie(a: seq<Card>, b: seq<Card>)
    requires MakeHand(a).Ok? && MakeHand(b).Ok?
    requires forall r: Rank :: Count(a, r) == Count(b, r)
    requires MakeHand(a).value.isFlush == MakeHand(b).value.isFlush
    ensures Ties(MakeHand(a).value, MakeHand(b).value)
  {
    var h, o := MakeHand(a).value, MakeHand(b).value;
    MadeHandsEvaluated(a);
    MadeHandsEvaluated(b);
    CountsOfPermutation(h.cards, a);
    CountsOfPermutation(o.cards, b);
    SameRanksTie(h, o);
  }
}

// What the evaluator and the comparison of hand.go compute, stated against
// the rules of poker.
module HandFacts {
  import opened Cards
  import opened Combinatorics
  import opened HandRanks
  import opened Hands

  // ---------------------------------------------------------------------------
  // Counting facts about at most five cards.

  /** The ranks held at least once, by some card. */
  ghost function HeldRanks(cards: seq<Card>): set<Rank> {
    set r: Rank | 2 <= r <= 14 && Count(cards, r) > 0
  }

  /** Sum over multiplicities 1..5 of multiplicity times the number of ranks with it. */
  ghost function WeightedTally(cards: seq<Card>): int {
    Tally(cards, 1) + 2 * Tally(cards, 2) + 3 * Tally(cards, 3) + 4 * Tally(cards, 4) + 5 * Tally(cards, 5)
  }

  /** Number of ranks with some multiplicity in 1..5. */
  ghost function PlainTally(cards: seq<Card>): int {
    Tally(cards, 1) + Tally(cards, 2) + Tally(cards, 3) + Tally(cards, 4) + Tally(cards, 5)
  }

  lemma TallyStep(cards: seq<Card>, c: int)
    requires cards != [] && c >= 1
    ensures var front := cards[..|cards| - 1];
            var x := cards[|cards| - 1].rank;
            var k := Count(front, x);
            Tally(cards, c) == Tally(front, c) - (if c == k then 1 else 0) + (if c == k + 1 then 1 else 0)
  {
    var front := cards[..|cards| - 1];
    var x := cards[|cards| - 1].rank;
    var k := Count(front, x);
    forall r: Rank ensures Count(cards, r) == Count(front, r) + (if r == x then 1 else 0) {
      CountLast(cards, r);
    }
    var now, before := RanksWithCount(cards, c), RanksWithCount(front, c);
    var others := before - {x};
    assert now - {x} == others by {
      forall r: Rank | r != x ensures r in now <==> r in before { }
    }
    if c == k {
      assert x in before && x !in now;
      assert before == others + {x} && now == others;
    } else if c == k + 1 {
      assert x !in before && x in now;
      assert before == others && now == others + {x};
    } else {
      assert x !in before && x !in now;
      assert before == others && now == others;
    }
  }

  lemma HeldStep(cards: seq<Card>)
    requires cards != []
    ensures var front := cards[..|cards| - 1];
            var x := cards[|cards| - 1].rank;
            |HeldRanks(cards)| == |HeldRanks(front)| + (if Count(front, x) == 0 then 1 else 0)
  {
    var front := cards[..|cards| - 1];
    var x := cards[|cards| - 1].rank;
    forall r: Rank ensures Count(cards, r) == Count(front, r) + (if r == x then 1 else 0) {
      CountLast(cards, r);
    }
    if Count(front, x) == 0 {
      assert HeldRanks(cards) == HeldRanks(front) + {x};
    } else {
      assert HeldRanks(cards) == HeldRanks(front);
    }
  }

  /**
   * For at most five cards: the multiplicities add up to the number of cards,
   * and the number of ranks held is the number of ranks with some multiplicity.
   */
  lemma {:induction false} TallyIdentities(cards: seq<Card>)
    requires |cards| <= 5
    ensures WeightedTally(cards) == |cards|
    ensures PlainTally(cards) == |HeldRanks(cards)|
  {
    if cards == [] {
      forall c | 1 <= c <= 5 ensures Tally(cards, c) == 0 {
        assert RanksWithCount(cards, c) == {};
      }
      assert HeldRanks(cards) == {};
    } else {
      var front := cards[..|cards| - 1];
      TallyIdentities(front);
      TallyStep(cards, 1); TallyStep(cards, 2); TallyStep(cards, 3); TallyStep(cards, 4); TallyStep(cards, 5);
      HeldStep(cards);
      var k := Count(front, cards[|cards| - 1].rank);
      assert k <= 4;
      if k >= 1 {
        assert RanksWithCount(front, k) != {} by {
          assert cards[|cards| - 1].rank in RanksWithCount(front, k);
        }
      }
    }
  }

  // ---------------------------------------------------------------------------
  // The categories as the rules of poker define them.

  /** Some rank appears on exactly n cards. */
  ghost predicate HasGroupOf(cards: seq<Card>, n: int) {
    exists r: Rank :: Count(cards, r) == n
  }

  /** Two different ranks appear on exactly two cards each. */
  ghost predicate HasTwoPairs(cards: seq<Card>) {
    exists r: Rank, q: Rank :: r != q && Count(cards, r) == 2 && Count(cards, q) == 2
  }

  /** The ranks held are exactly lo, lo+1, ..., lo+4. */
  ghost predicate RanksFrom(cards: seq<Card>, lo: int) {
    forall r: Rank :: HoldsRank(cards, r) <==> lo <= r <= lo + 4
  }

  /** The ranks held are five in a row. */
  ghost predicate FiveInARow(cards: seq<Card>) {
    exists lo :: Two <= lo <= Ten && RanksFrom(cards, lo)
  }

  /** The ranks held are A, 5, 4, 3, 2 (the ace playing low). */
  ghost predicate AceToFive(cards: seq<Card>) {
    forall r: Rank :: HoldsRank(cards, r) <==> r == Ace || r <= Five
  }

  /** The ranks held are A, K, Q, J, 10. */
  ghost predicate TenToAce(cards: seq<Card>) {
    forall r: Rank :: HoldsRank(cards, r) <==> Ten <= r
  }

  ghost predicate IsStraightHand(cards: seq<Card>) {
    FiveInARow(cards) || AceToFive(cards)
  }

  /** The category of a five-card hand under the usual ranking of poker hands. */
  ghost function PokerCategory(cards: seq<Card>): HandRank {
    if IsFlushOf(cards) && TenToAce(cards) then RoyalFlush
    else if IsFlushOf(cards) && IsStraightHand(cards) then StraightFlush
    else if HasGroupOf(cards, 4) then FourOfAKind
    else if HasGroupOf(cards, 3) && HasGroupOf(cards, 2) then FullHouse
    else if IsFlushOf(cards) then Flush
    else if IsStraightHand(cards) then Straight
    else if HasGroupOf(cards, 3) then ThreeOfAKind
    else if HasTwoPairs(cards) then TwoPair
    else if HasGroupOf(cards, 2) then Pair
    else HighCard
  }

  /** What the rank mask's tests say about the cards. */
  lemma MaskMeaning(cards: seq<Card>)
    ensures IsWheelRanks(CardValuesOf(cards)) <==> AceToFive(cards)
    ensures IsRunOfRanks(CardValuesOf(cards)) <==> FiveInARow(cards)
    ensures CardValuesOf(cards) == RoyalFlushValue <==> TenToAce(cards)
  {
    var m := CardValuesOf(cards);
    RoyalIsAceToTen();
    if TenToAce(cards) {
      SameRanksSameMask(m, RoyalFlushValue);
    }
    if IsRunOfRanks(m) {
      var lo :| Two <= lo <= Ten && RunFrom(m, lo);
      assert RanksFrom(cards, lo);
    }
    if FiveInARow(cards) {
      var lo :| Two <= lo <= Ten && RanksFrom(cards, lo);
      assert RunFrom(m, lo);
    }
  }

  /** A tally of at least one (two) means some (two different) ranks have that multiplicity. */
  lemma TallyMeaning(cards: seq<Card>, c: int)
    ensures Tally(cards, c) >= 1 <==> HasGroupOf(cards, c)
    ensures c == 2 ==> (Tally(cards, c) >= 2 <==> HasTwoPairs(cards))
  {
    GroupTally(cards, c);
    if c == 2 && Tally(cards, c) >= 2 {
      TwoPairsFromTally(cards);
    }
    if c == 2 && HasTwoPairs(cards) {
      TallyFromTwoPairs(cards);
    }
  }

  lemma GroupTally(cards: seq<Card>, c: int)
    ensures Tally(cards, c) >= 1 <==> HasGroupOf(cards, c)
  {
    var s := RanksWithCount(cards, c);
    if |s| >= 1 {
      var r :| r in s;
      assert Count(cards, r) == c;
    }
    if HasGroupOf(cards, c) {
      var r: Rank :| Count(cards, r) == c;
      assert r in s;
    }
  }

  lemma TwoPairsFromTally(cards: seq<Card>)
    requires Tally(cards, 2) >= 2
    ensures HasTwoPairs(cards)
  {
    var s := RanksWithCount(cards, 2);
    var r :| r in s;
    assert |s - {r}| == |s| - 1;
    var q :| q in s - {r};
    assert r != q && Count(cards, r) == 2 && Count(cards, q) == 2;
  }

  lemma TallyFromTwoPairs(cards: seq<Card>)
    requires HasTwoPairs(cards)
    ensures Tally(cards, 2) >= 2
  {
    var s := RanksWithCount(cards, 2);
    var r: Rank, q: Rank :| r != q && Count(cards, r) == 2 && Count(cards, q) == 2;
    var pair := {r, q};
    assert pair <= s;
    assert |pair| == 2;
    assert s == pair + (s - pair);
    assert |s| == |pair| + |s - pair|;
  }

  /** Five different cards of one suit have five different ranks. */
  lemma {:induction false} FlushRanksDistinct(cards: seq<Card>)
    requires IsFlushOf(cards) && !HasDuplicate(cards)
    ensures forall r: Rank :: Count(cards, r) <= 1
  {
    if |cards| > 1 {
      var front := cards[..|cards| - 1];
      var x := cards[|cards| - 1];
      assert IsFlushOf(front) by {
        forall i | 0 <= i < |front| ensures front[i].suit == front[0].suit {
          assert front[i] == cards[i];
        }
      }
      assert !HasDuplicate(front) by {
        forall i, j | 0 <= i < j < |front| ensures front[i] != front[j] {
          assert front[i] == cards[i] && front[j] == cards[j];
        }
      }
      FlushRanksDistinct(front);
      forall r: Rank ensures Count(cards, r) <= 1 {
        CountLast(cards, r);
      }
    } else if |cards| == 1 {
      forall r: Rank ensures Count(cards, r) <= 1 {
      }
    }
  }

  /** With multiplicities at most one there are no groups of two, three or four. */
  lemma SinglesOnly(cards: seq<Card>)
    requires forall r: Rank :: Count(cards, r) <= 1
    ensures Tally(cards, 2) == 0 && Tally(cards, 3) == 0 && Tally(cards, 4) == 0
  {
    assert RanksWithCount(cards, 2) == {};
    assert RanksWithCount(cards, 3) == {};
    assert RanksWithCount(cards, 4) == {};
  }

  /** A straight holds five different ranks. */
  lemma StraightHoldsFive(cards: seq<Card>)
    requires IsStraightHand(cards)
    ensures |HeldRanks(cards)| == 5
  {
    if FiveInARow(cards) {
      var lo :| Two <= lo <= Ten && RanksFrom(cards, lo);
      HeldRun(cards, lo);
      RunOfFive(lo);
    } else {
      HeldWheel(cards);
    }
  }

  lemma HeldRun(cards: seq<Card>, lo: int)
    requires Two <= lo <= Ten && RanksFrom(cards, lo)
    ensures HeldRanks(cards) == {lo, lo + 1, lo + 2, lo + 3, lo + 4}
  {
    var held := HeldRanks(cards);
    forall r: Rank ensures r in held <==> lo <= r <= lo + 4 {
      assert r in held <==> HoldsRank(cards, r);
    }
  }

  lemma RunOfFive(lo: int)
    ensures |{lo, lo + 1, lo + 2, lo + 3, lo + 4}| == 5
  {
    var a := {lo, lo + 1, lo + 2, lo + 3};
    assert |{lo, lo + 1}| == 2;
    assert |{lo, lo + 1, lo + 2}| == 3;
    assert |a| == 4;
    assert lo + 4 !in a;
  }

  lemma HeldWheel(cards: seq<Card>)
    requires AceToFive(cards)
    ensures |HeldRanks(cards)| == 5
  {
    var held := HeldRanks(cards);
    assert held == {Ace, Two, Three, Four, Five} by {
      forall r: Rank ensures r in held <==> r == Ace || r <= Five {
        assert r in held <==> HoldsRank(cards, r);
      }
    }
  }

  /** A straight's five ranks use all five cards, so no rank repeats. */
  lemma StraightRanksDistinct(cards: seq<Card>)
    requires |cards| == 5 && IsStraightHand(cards)
    ensures Tally(cards, 2) == 0 && Tally(cards, 3) == 0 && Tally(cards, 4) == 0
  {
    TallyIdentities(cards);
    StraightHoldsFive(cards);
    var t1, t2, t3, t4, t5 := Tally(cards, 1), Tally(cards, 2), Tally(cards, 3), Tally(cards, 4), Tally(cards, 5);
    assert t1 + 2 * t2 + 3 * t3 + 4 * t4 + 5 * t5 == 5;
    assert t1 + t2 + t3 + t4 + t5 == 5;
  }

  /**
   * The evaluator is correct: for five different cards, the category that
   * evaluate caches is the poker category of the cards.
   */
  lemma EvaluateIsPokerCategory(cards: seq<Card>)
    requires |cards| == HandSize && !HasDuplicate(cards)
    ensures Evaluate(Unevaluated(cards)).handRank == PokerCategory(cards)
  {
    var m := CardValuesOf(cards);
    var flush := IsFlushOf(cards);
    var st := StraightOf(m);
    StraightOfMeaning(m);
    MaskMeaning(cards);
    assert st.0 <==> IsStraightHand(cards);
    TallyIdentities(cards);
    TallyMeaning(cards, 2);
    TallyMeaning(cards, 3);
    TallyMeaning(cards, 4);
    if flush {
      FlushRanksDistinct(cards);
      SinglesOnly(cards);
    } else if st.0 {
      StraightRanksDistinct(cards);
    }
  }

  // ---------------------------------------------------------------------------
  // The tie-break score orders five-card hands lexicographically by the ranks
  // of their key order (counted ranks first, then kickers, each rank packed
  // into its own four-bit field).

  /** The ranks of the key order, most significant first. */
  function KeyRanks(cards: seq<Card>): (r: seq<nat>)
    ensures |r| == |cards|
  {
    var s := KeyOrder(cards);
    seq(|s|, i requires 0 <= i < |s| => s[i].card.rank as nat)
  }

  /** The powers of two behind the five shifts. */
  lemma ShiftUnits()
    ensures Pow2(0) == 1 && Pow2(4) == 16 && Pow2(8) == 256
    ensures Pow2(12) == 4096 && Pow2(16) == 65536 && Pow2(20) == 0x10_0000
  {
    assert Pow2(4) == 16;
    Pow2Add(4, 4);
    Pow2Add(8, 4);
    Pow2Add(8, 8);
    Pow2Add(16, 4);
  }

  /** Or-ing a value below 2^k into a multiple of 2^k adds it: the bits do not overlap. */
  lemma {:induction false} OrDisjoint(m: nat, b: nat, k: nat)
    requires b < Pow2(k)
    ensures BitOr(m * Pow2(k), b) == m * Pow2(k) + b
    decreases k
  {
    if k > 0 && m > 0 && b > 0 {
      var half := Pow2(k - 1);
      var a := m * Pow2(k);
      assert a == 2 * (m * half);
      assert a / 2 == m * half && a % 2 == 0;
      OrDisjoint(m, b / 2, k - 1);
      assert BitOr(a, b) == 2 * BitOr(a / 2, b / 2) + b % 2;
    }
  }

  /** The first n key-order ranks read as base-16 digits, highest first. */
  function Digits(s: seq<CardWithCount>, n: nat): nat
    requires n <= |s|
  {
    if n == 0 then 0 else 16 * Digits(s, n - 1) + s[n - 1].card.rank
  }

  /** One packing step: the next rank goes into the field just below the digits so far. */
  lemma PackStep(d: nat, r: Rank, unit: nat)
    requires unit == 1 || unit == 16 || unit == 256 || unit == 4096
    ensures unit * 16 == Pow2(if unit == 1 then 4 else if unit == 16 then 8 else if unit == 256 then 12 else 16)
    ensures BitOr(d * (unit * 16), r * unit) == (16 * d + r) * unit
  {
    ShiftUnits();
    if unit == 1 {
      OrDisjoint(d, r, 4);
      assert d * (unit * 16) == d * 16;
    } else if unit == 16 {
      OrDisjoint(d, r * 16, 8);
      assert d * (unit * 16) == d * 256;
    } else if unit == 256 {
      OrDisjoint(d, r * 256, 12);
      assert d * (unit * 16) == d * 4096;
    } else {
      OrDisjoint(d, r * 4096, 16);
      assert d * (unit * 16) == d * 65536;
    }
  }

  /** After n <= 5 entries the score is the n digits, shifted to the top of the five fields. */
  lemma {:induction false} PackPrefixDigits(s: seq<CardWithCount>, n: nat)
    requires 1 <= n <= |TiebreakerShifts| && n <= |s|
    ensures PackPrefix(s, n) == Digits(s, n) * Pow2(TiebreakerShifts[n - 1])
  {
    if n == 1 {
      ShiftUnits();
      assert PackPrefix(s, 1) == BitOr(0, ShiftedRank(s[0].card.rank, 0));
    } else {
      PackPrefixDigits(s, n - 1);
      PackPrefixNext(s, n);
    }
  }

  /** One more entry packed below the digits so far. */
  lemma PackPrefixNext(s: seq<CardWithCount>, n: nat)
    requires 2 <= n <= |TiebreakerShifts| && n <= |s|
    requires PackPrefix(s, n - 1) == Digits(s, n - 1) * Pow2(TiebreakerShifts[n - 2])
    ensures PackPrefix(s, n) == Digits(s, n) * Pow2(TiebreakerShifts[n - 1])
  {
    ShiftUnits();
    var r := s[n - 1].card.rank;
    var d := Digits(s, n - 1);
    assert PackPrefix(s, n) == BitOr(PackPrefix(s, n - 1), ShiftedRank(r, n - 1));
    assert Digits(s, n) == 16 * d + r;
    if n == 2 {
      PackStep(d, r, 4096);
    } else if n == 3 {
      PackStep(d, r, 256);
    } else if n == 4 {
      PackStep(d, r, 16);
    } else {
      PackStep(d, r, 1);
    }
  }

  /** Entries after the fifth add nothing to the score. */
  lemma {:induction false} PackPrefixStable(s: seq<CardWithCount>, n: nat)
    requires |TiebreakerShifts| <= n <= |s|
    ensures PackPrefix(s, n) == PackPrefix(s, |TiebreakerShifts|)
  {
    if n > |TiebreakerShifts| {
      PackPrefixStable(s, n - 1);
    }
  }

  lemma PackFive(s: seq<CardWithCount>)
    requires |s| == 5
    ensures PackPrefix(s, 5) == s[0].card.rank * 65536 + s[1].card.rank * 4096 + s[2].card.rank * 256
                                + s[3].card.rank * 16 + s[4].card.rank
  {
    PackPrefixDigits(s, 5);
    assert Pow2(TiebreakerShifts[4]) == 1;
    DigitsFive(s);
  }

  /** The five digits of a five-entry list, written out. */
  lemma DigitsFive(s: seq<CardWithCount>)
    requires |s| == 5
    ensures Digits(s, 5) == s[0].card.rank * 65536 + s[1].card.rank * 4096 + s[2].card.rank * 256
                            + s[3].card.rank * 16 + s[4].card.rank
  {
    var a: int, b: int, c: int, d: int, e: int := s[0].card.rank, s[1].card.rank, s[2].card.rank, s[3].card.rank, s[4].card.rank;
    assert Digits(s, 1) == a;
    assert Digits(s, 2) == 16 * a + b;
    assert Digits(s, 3) == 256 * a + 16 * b + c;
    assert Digits(s, 4) == 4096 * a + 256 * b + 16 * c + d;
  }

  /**
   * The score of five cards is their key-order ranks k0..k4 in five four-bit
   * fields, k0 highest: k0*2^16 + k1*2^12 + k2*2^8 + k3*2^4 + k4, below 2^20.
   */
  lemma ScoreFive(cards: seq<Card>)
    requires |cards| == HandSize
    ensures var k := KeyRanks(cards);
            Score(cards) == k[0] * 65536 + k[1] * 4096 + k[2] * 256 + k[3] * 16 + k[4]
    ensures Score(cards) < 0x10_0000
  {
    var s := KeyOrder(cards);
    PackFive(s);
    var k := KeyRanks(cards);
    assert k[0] == s[0].card.rank && k[1] == s[1].card.rank && k[2] == s[2].card.rank;
    assert k[3] == s[3].card.rank && k[4] == s[4].card.rank;
  }

  /** LexLess on five-element sequences, written out. */
  lemma LexLessFive(p: seq<nat>, q: seq<nat>)
    requires |p| == 5 && |q| == 5
    ensures LexLess(p, q) <==>
      p[0] < q[0] || (p[0] == q[0] && (p[1] < q[1] || (p[1] == q[1] && (p[2] < q[2] || (p[2] == q[2] &&
      (p[3] < q[3] || (p[3] == q[3] && p[4] < q[4])))))))
  {
    var p1, q1 := p[1..], q[1..];
    var p2, q2 := p1[1..], q1[1..];
    var p3, q3 := p2[1..], q2[1..];
    var p4, q4 := p3[1..], q3[1..];
    assert !LexLess(p4[1..], q4[1..]);
    assert LexLess(p4, q4) <==> p[4] < q[4];
    assert LexLess(p3, q3) <==> p[3] < q[3] || (p[3] == q[3] && LexLess(p4, q4));
    assert LexLess(p2, q2) <==> p[2] < q[2] || (p[2] == q[2] && LexLess(p3, q3));
    assert LexLess(p1, q1) <==> p[1] < q[1] || (p[1] == q[1] && LexLess(p2, q2));
  }

  /** Base-16 numbers with five digits compare as their digit sequences do. */
  lemma DigitsOrder(a0: nat, a1: nat, a2: nat, a3: nat, a4: nat, b0: nat, b1: nat, b2: nat, b3: nat, b4: nat)
    requires a0 < 16 && a1 < 16 && a2 < 16 && a3 < 16 && a4 < 16
    requires b0 < 16 && b1 < 16 && b2 < 16 && b3 < 16 && b4 < 16
    ensures a0 * 65536 + a1 * 4096 + a2 * 256 + a3 * 16 + a4 < b0 * 65536 + b1 * 4096 + b2 * 256 + b3 * 16 + b4 <==>
      a0 < b0 || (a0 == b0 && (a1 < b1 || (a1 == b1 && (a2 < b2 || (a2 == b2 && (a3 < b3 || (a3 == b3 && a4 < b4)))))))
  {
  }

  /** Key ranks are ranks, so they fit in a four-bit field. */
  lemma KeyRanksBound(cards: seq<Card>)
    ensures forall i :: 0 <= i < |cards| ==> 2 <= KeyRanks(cards)[i] <= 14
  {
  }

  /**
   * Between five-card hands the higher tie-break score is exactly the
   * lexicographically higher key order: the most frequent ranks first, then
   * the kickers from high to low. Equal scores mean equal key orders.
   */
  lemma ScoreOrder(a: seq<Card>, b: seq<Card>)
    requires |a| == HandSize && |b| == HandSize
    ensures Score(a) < Score(b) <==> LexLess(KeyRanks(a), KeyRanks(b))
    ensures Score(a) == Score(b) <==> KeyRanks(a) == KeyRanks(b)
  {
    var p, q := KeyRanks(a), KeyRanks(b);
    ScoreFive(a);
    ScoreFive(b);
    KeyRanksBound(a);
    KeyRanksBound(b);
    LexLessFive(p, q);
    DigitsOrder(p[0], p[1], p[2], p[3], p[4], q[0], q[1], q[2], q[3], q[4]);
    DigitsOrder(q[0], q[1], q[2], q[3], q[4], p[0], p[1], p[2], p[3], p[4]);
    if p != q {
      assert p[0] != q[0] || p[1] != q[1] || p[2] != q[2] || p[3] != q[3] || p[4] != q[4];
    }
  }

  // ---------------------------------------------------------------------------
  // Comparison of hands.

  /** A hand whose cache holds what evaluate computes from its cards (every built hand). */
  ghost predicate Evaluated(h: Hand) {
    h == Evaluate(h.(evaluated := false))
  }

  /** NewHand's hands are evaluated. */
  lemma MadeHandsEvaluated(cards: seq<Card>)
    requires MakeHand(cards).Ok?
    ensures Evaluated(MakeHand(cards).value)
    ensures |MakeHand(cards).value.cards| == HandSize
  {
    EvaluateEvaluated(Unevaluated(SortByRank(cards)));
  }

  /** Evaluating fills the cache once and for all. */
  lemma EvaluateEvaluated(u: Hand)
    requires !u.evaluated
    ensures Evaluated(Evaluate(u))
  {
    var h := Evaluate(u);
    assert h.(evaluated := false).cards == u.cards;
  }

  /** The cached mask answers Contains. */
  lemma ContainsByMask(h: Hand, r: Rank)
    requires Evaluated(h)
    ensures HoldsRank(h.cards, r) <==> HasRank(h.cardValues, r)
  {
  }

  /** In an evaluated hand isStraight marks exactly the three straight categories, and a wheel is a straight. */
  lemma StraightCategories(h: Hand)
    requires Evaluated(h)
    ensures IsCategory(h.handRank)
    ensures h.isStraight <==> h.handRank == Straight || h.handRank == StraightFlush || h.handRank == RoyalFlush
    ensures h.isWheel ==> h.isStraight
  {
    RoyalIsAceToTen();
    assert StraightOf(RoyalFlushValue).0;
  }

  function Sign(x: int): (s: int)
    ensures s == -1 || s == 0 || s == 1
    ensures s > 0 <==> x > 0
    ensures s < 0 <==> x < 0
  {
    if x > 0 then 1 else if x < 0 then -1 else 0
  }

  /** 1 for a straight that is not the wheel. */
  function Bonus(h: Hand): int {
    if h.isStraight && !h.isWheel then 1 else 0
  }

  /**
   * Between evaluated hands Compare is the lexicographic order of
   * (category, straight-above-the-wheel, tie-break score).
   */
  lemma CompareByKey(h: Hand, o: Hand)
    requires Evaluated(h) && Evaluated(o)
    ensures Compare(h, o) ==
      if h.handRank != o.handRank then Sign(h.handRank - o.handRank)
      else if Bonus(h) != Bonus(o) then Sign(Bonus(h) - Bonus(o))
      else Sign(Score(h.cards) - Score(o.cards))
  {
    StraightCategories(h);
    StraightCategories(o);
  }

  /** Compare is antisymmetric and a hand ties itself. */
  lemma CompareAntisymmetric(h: Hand, o: Hand)
    ensures Compare(h, o) == -Compare(o, h)
    ensures Compare(h, h) == 0
  {
  }

  /** Exactly one of: h beats o, they tie, o beats h. */
  lemma CompareTotal(h: Hand, o: Hand)
    ensures Beats(h, o) || Ties(h, o) || Beats(o, h)
    ensures !(Beats(h, o) && Beats(o, h)) && !(Beats(h, o) && Ties(h, o))
    ensures Ties(h, o) <==> Ties(o, h)
  {
    CompareAntisymmetric(h, o);
  }

  /** Beating is transitive on evaluated hands, and so is tying. */
  lemma CompareTransitive(a: Hand, b: Hand, c: Hand)
    requires Evaluated(a) && Evaluated(b) && Evaluated(c)
    ensures Beats(a, b) && Beats(b, c) ==> Beats(a, c)
    ensures Ties(a, b) && Ties(b, c) ==> Ties(a, c)
    ensures Beats(a, b) && Ties(b, c) ==> Beats(a, c)
    ensures Ties(a, b) && Beats(b, c) ==> Beats(a, c)
  {
    CompareByKey(a, b);
    CompareByKey(b, c);
    CompareByKey(a, c);
  }

  /**
   * Two evaluated five-card hands of one category that are not a wheel against
   * another straight are ordered by their key ranks: the one whose most
   * frequent ranks, then kickers, are lexicographically higher wins, and they
   * tie exactly when the key ranks are the same.
   */
  lemma SameCategoryOrder(h: Hand, o: Hand)
    requires Evaluated(h) && Evaluated(o) && |h.cards| == HandSize && |o.cards| == HandSize
    requires h.handRank == o.handRank && Bonus(h) == Bonus(o)
    ensures Beats(h, o) <==> LexLess(KeyRanks(o.cards), KeyRanks(h.cards))
    ensures Ties(h, o) <==> KeyRanks(h.cards) == KeyRanks(o.cards)
  {
    CompareByKey(h, o);
    ScoreOrder(o.cards, h.cards);
  }

  /** Among straights of one category, the wheel loses to every other straight. */
  lemma WheelLoses(h: Hand, o: Hand)
    requires Evaluated(h) && Evaluated(o) && h.handRank == o.handRank
    requires h.isWheel && o.isStraight && !o.isWheel
    ensures Beats(o, h)
  {
    StraightCategories(h);
  }
}

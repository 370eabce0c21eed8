// Five-card hands: validation, the cached bit-mask evaluation, the tiebreak
// score and the comparison of hands (hand.go).
module Hands {
  import opened Cards
  import opened Combinatorics
  import opened Errors
  import opened HandRanks
  import opened Players

  const HandSize: nat := 5

  /**
   * A hand: its cards (highest rank first once built), the player it belongs
   * to (null when none) and the evaluation cache. `evaluated` tells whether
   * the cache has been filled.
   */
  datatype Hand = Hand(cards: seq<Card>, player: Player?, cardValues: bv16, isFlush: bool,
                       isStraight: bool, isWheel: bool, handRank: HandRank, evaluated: bool)

  // ---------------------------------------------------------------------------
  // Ranks held and their multiplicities.

  /** Some card has rank r. */
  ghost predicate HoldsRank(cards: seq<Card>, r: Rank) {
    exists i :: 0 <= i < |cards| && cards[i].rank == r
  }

  /** A rank is held by a non-empty hand iff it is held by all but the last card or by the last. */
  lemma HoldsRankLast(cards: seq<Card>)
    requires cards != []
    ensures forall r: Rank :: HoldsRank(cards, r) <==>
              HoldsRank(cards[..|cards| - 1], r) || cards[|cards| - 1].rank == r
  {
    var front := cards[..|cards| - 1];
    forall r: Rank ensures HoldsRank(cards, r) <==> HoldsRank(front, r) || cards[|cards| - 1].rank == r {
      if HoldsRank(front, r) {
        var i :| 0 <= i < |front| && front[i].rank == r;
        assert cards[i] == front[i];
      }
      if HoldsRank(cards, r) && cards[|cards| - 1].rank != r {
        var i :| 0 <= i < |cards| && cards[i].rank == r;
        assert front[i] == cards[i];
      }
    }
  }

  /** The number of cards of rank r. */
  function Count(cards: seq<Card>, r: Rank): (n: nat)
    ensures n <= |cards|
    ensures n > 0 <==> HoldsRank(cards, r)
  {
    if cards == [] then 0
    else
      var rest := Count(cards[..|cards| - 1], r);
      assert forall i :: 0 <= i < |cards| - 1 ==> cards[..|cards| - 1][i] == cards[i];
      rest + (if cards[|cards| - 1].rank == r then 1 else 0)
  }

  /** Contains: whether some card has the given rank (first match ends the scan). */
  method Contains(h: Hand, rank: Rank) returns (found: bool)
    ensures found <==> HoldsRank(h.cards, rank)
  {
    for i := 0 to |h.cards|
      invariant forall j :: 0 <= j < i ==> h.cards[j].rank != rank
    {
      if h.cards[i].rank == rank {
        return true;
      }
    }
    return false;
  }

  // ---------------------------------------------------------------------------
  // The rank mask.

  /** OR-ing one more rank's bit adds exactly that rank to the mask. */
  lemma AddRankBit(m: bv16, x: Rank)
    requires RankBitsOnly(m)
    ensures RankBitsOnly(m | RankBit(x))
    ensures forall r: Rank :: HasRank(m | RankBit(x), r) <==> HasRank(m, r) || r == x
  {
    OrKeepsRankBits(m, RankBit(x));
    forall r: Rank ensures HasRank(m | RankBit(x), r) <==> HasRank(m, r) || r == x {
      AddRankBitAt(m, x, r);
    }
  }

  lemma AddRankBitAt(m: bv16, x: Rank, r: Rank)
    ensures HasRank(m | RankBit(x), r) <==> HasRank(m, r) || r == x
  {
    OrRankBit(m, x, r);
  }

  lemma OrRankBit(m: bv16, x: Rank, r: Rank)
    ensures ((m | RankBit(x)) & RankBit(r) != 0) == ((m & RankBit(r) != 0) || x == r)
  {
    RankBitsDisjoint(x, r);
    OrBit(m, RankBit(x), RankBit(r), x == r);
  }

  /** Distinct ranks have disjoint bits. */
  lemma RankBitsDisjoint(x: Rank, r: Rank)
    ensures RankBit(x) & RankBit(r) != 0 <==> x == r
  {
  }

  lemma OrBit(m: bv16, b: bv16, c: bv16, same: bool)
    requires (b & c != 0) == same
    ensures ((m | b) & c != 0) == ((m & c != 0) || same)
  {
  }

  lemma OrKeepsRankBits(a: bv16, b: bv16)
    requires a & 0x8003 == 0 && b & 0x8003 == 0
    ensures (a | b) & 0x8003 == 0
  {
  }

  /** The mask with bit r set for each rank r held by some card. */
  function CardValuesOf(cards: seq<Card>): (m: bv16)
    ensures RankBitsOnly(m)
    ensures forall r: Rank :: HasRank(m, r) <==> HoldsRank(cards, r)
  {
    if cards == [] then 0
    else
      var m := CardValuesOf(cards[..|cards| - 1]);
      var x := cards[|cards| - 1].rank;
      CardValuesStep(cards, m, x);
      m | RankBit(x)
  }

  lemma CardValuesStep(cards: seq<Card>, m: bv16, x: Rank)
    requires cards != [] && x == cards[|cards| - 1].rank && RankBitsOnly(m)
    requires forall r: Rank :: HasRank(m, r) <==> HoldsRank(cards[..|cards| - 1], r)
    ensures RankBitsOnly(m | RankBit(x))
    ensures forall r: Rank :: HasRank(m | RankBit(x), r) <==> HoldsRank(cards, r)
  {
    AddRankBit(m, x);
    HoldsRankLast(cards);
    forall r: Rank ensures HasRank(m | RankBit(x), r) <==> HoldsRank(cards, r) {
      AddRankBitAt(m, x, r);
      assert HoldsRank(cards, r) <==> HoldsRank(cards[..|cards| - 1], r) || x == r;
    }
  }

  /** computeCardValues: OR together 1 << rank over the cards. */
  method ComputeCardValues(cards: seq<Card>) returns (values: bv16)
    ensures values == CardValuesOf(cards)
  {
    values := 0;
    for i := 0 to |cards|
      invariant values == CardValuesOf(cards[..i])
    {
      assert cards[..i + 1][..i] == cards[..i];
      values := values | RankBit(cards[i].rank);
    }
    assert cards[..|cards|] == cards;
  }

  // ---------------------------------------------------------------------------
  // Flush and straight tests.

  /** All cards share the first card's suit; an empty hand is no flush. */
  predicate IsFlushOf(cards: seq<Card>) {
    |cards| > 0 && forall i :: 0 <= i < |cards| ==> cards[i].suit == cards[0].suit
  }

  /** computeIsFlush: compare every later card's suit with the first card's. */
  method ComputeIsFlush(cards: seq<Card>) returns (flush: bool)
    ensures flush == IsFlushOf(cards)
    ensures flush ==> forall i, j :: 0 <= i < |cards| && 0 <= j < |cards| ==> cards[i].suit == cards[j].suit
  {
    if |cards| == 0 {
      return false;
    }
    var suit := cards[0].suit;
    for i := 1 to |cards|
      invariant forall j :: 0 <= j < i ==> cards[j].suit == suit
    {
      if cards[i].suit != suit {
        return false;
      }
    }
    return true;
  }

  /**
   * computeIsStraight on a mask: the wheel constant first, then the empty
   * mask, then the division test m / lsb(m) == 31. Returns (isStraight, isWheel).
   */
  function StraightOf(m: bv16): (r: (bool, bool))
    ensures r.1 ==> r.0
  {
    if m == WheelStraightValue then (true, true)
    else if m == 0 then (false, false)
    else
      LsbNonZero(m);
      (m / Lsb(m) == StraightValue, false)
  }

  /** The ranks held are A-5-4-3-2. */
  ghost predicate IsWheelRanks(m: bv16) {
    forall r: Rank :: HasRank(m, r) <==> r == Ace || r <= Five
  }

  /** The ranks held are five consecutive ranks, the wheel not included. */
  ghost predicate IsRunOfRanks(m: bv16) {
    exists lo :: Two <= lo <= Ten && RunFrom(m, lo)
  }

  /**
   * For a mask of ranks, the straight test reports a straight exactly when the
   * ranks held are five consecutive ranks or A-5-4-3-2, and a wheel exactly in
   * the latter case.
   */
  lemma StraightOfMeaning(m: bv16)
    requires RankBitsOnly(m)
    ensures StraightOf(m).1 <==> IsWheelRanks(m)
    ensures StraightOf(m).0 <==> IsWheelRanks(m) || IsRunOfRanks(m)
  {
    WheelIsAceToFive();
    if m == WheelStraightValue {
      assert HasRank(m, Ace) && HasRank(m, Two);
    } else {
      NotWheelRanks(m);
      if m == 0 {
        assert !HasRank(m, Ace);
        forall lo | Two <= lo <= Ten ensures !RunFrom(m, lo) {
          assert !HasRank(m, lo);
        }
      } else {
        StraightTestMeaning(m);
      }
    }
  }

  lemma NotWheelRanks(m: bv16)
    requires RankBitsOnly(m) && m != WheelStraightValue
    ensures !IsWheelRanks(m)
  {
    WheelIsAceToFive();
    if IsWheelRanks(m) {
      SameRanksSameMask(m, WheelStraightValue);
    }
  }


  // ---------------------------------------------------------------------------
  // Rank multiplicities and the category.

  lemma CountLast(cards: seq<Card>, r: Rank)
    requires cards != []
    ensures Count(cards, r) == Count(cards[..|cards| - 1], r) + (if cards[|cards| - 1].rank == r then 1 else 0)
  {
  }

  /** getRankCounts: a map from each rank held to its number of cards. */
  method GetRankCounts(cards: seq<Card>) returns (counts: map<Rank, int>)
    ensures forall r: Rank :: r in counts <==> HoldsRank(cards, r)
    ensures forall r :: r in counts ==> counts[r] == Count(cards, r)
  {
    counts := map[];
    for i := 0 to |cards|
      invariant forall r: Rank :: r in counts <==> HoldsRank(cards[..i], r)
      invariant forall r :: r in counts ==> counts[r] == Count(cards[..i], r)
    {
      var r := cards[i].rank;
      assert cards[..i + 1][..i] == cards[..i];
      HoldsRankLast(cards[..i + 1]);
      forall q: Rank ensures Count(cards[..i + 1], q) == Count(cards[..i], q) + (if r == q then 1 else 0) {
        CountLast(cards[..i + 1], q);
      }
      // counts[r]++ reads a missing key as 0
      var before := if r in counts then counts[r] else 0;
      counts := counts[r := before + 1];
    }
    assert cards[..|cards|] == cards;
  }

  /** The ranks held exactly c times. */
  ghost function RanksWithCount(cards: seq<Card>, c: int): set<Rank> {
    set r: Rank | 2 <= r <= 14 && Count(cards, r) == c
  }

  /** The number of ranks held exactly c times. */
  ghost function Tally(cards: seq<Card>, c: int): nat {
    |RanksWithCount(cards, c)|
  }

  /** The keys of S whose count is c. */
  ghost function KeysWith(counts: map<Rank, int>, s: set<Rank>, c: int): set<Rank> {
    set r | r in s && r in counts && counts[r] == c
  }

  lemma KeysWithAdd(counts: map<Rank, int>, s: set<Rank>, r: Rank, c: int)
    requires r !in s && r in counts
    ensures |KeysWith(counts, s + {r}, c)| == |KeysWith(counts, s, c)| + (if counts[r] == c then 1 else 0)
  {
    if counts[r] == c {
      assert KeysWith(counts, s + {r}, c) == KeysWith(counts, s, c) + {r};
    } else {
      assert KeysWith(counts, s + {r}, c) == KeysWith(counts, s, c);
    }
  }

  /** One key moves from the keys still to scan to those scanned. */
  lemma KeysWithStep(counts: map<Rank, int>, rest: set<Rank>, r: Rank)
    requires rest <= counts.Keys && r in rest
    ensures forall c :: |KeysWith(counts, counts.Keys - (rest - {r}), c)|
                        == |KeysWith(counts, counts.Keys - rest, c)| + (if counts[r] == c then 1 else 0)
  {
    var done := counts.Keys - rest;
    assert counts.Keys - (rest - {r}) == done + {r};
    forall c ensures |KeysWith(counts, done + {r}, c)| == |KeysWith(counts, done, c)| + (if counts[r] == c then 1 else 0) {
      KeysWithAdd(counts, done, r, c);
    }
  }

  /** Scanning all keys of the rank counts finds exactly the ranks held c times. */
  lemma KeysWithAreTallies(cards: seq<Card>, counts: map<Rank, int>)
    requires forall r: Rank :: r in counts <==> HoldsRank(cards, r)
    requires forall r :: r in counts ==> counts[r] == Count(cards, r)
    ensures forall c :: c > 0 ==> KeysWith(counts, counts.Keys, c) == RanksWithCount(cards, c)
  {
    forall c | c > 0 ensures KeysWith(counts, counts.Keys, c) == RanksWithCount(cards, c) {
    }
  }

  /** The pair/trips/quads decision of computeHandRank once flush and straight are ruled out. */
  function CountCategory(pairs: int, trips: int, quads: int): (h: HandRank)
    ensures IsCategory(h) && h != Straight && h != Flush && h != StraightFlush && h != RoyalFlush
  {
    if quads == 1 then FourOfAKind
    else if trips == 1 && pairs == 1 then FullHouse
    else if trips == 1 then ThreeOfAKind
    else if pairs == 2 then TwoPair
    else if pairs == 1 then Pair
    else HighCard
  }

  /** computeHandRank on the cached mask and flags: flush kinds, then straight, then counts. */
  ghost function CategoryOf(cards: seq<Card>, m: bv16, isFlush: bool, isStraight: bool): (h: HandRank)
    ensures IsCategory(h)
  {
    if isFlush then
      (if m == RoyalFlushValue then RoyalFlush else if isStraight then StraightFlush else Flush)
    else if isStraight then Straight
    else CountCategory(Tally(cards, 2), Tally(cards, 3), Tally(cards, 4))
  }

  /** computeHandRank: a loop over the rank-count map, in whatever order the map yields. */
  method ComputeHandRank(cards: seq<Card>, m: bv16, isFlush: bool, isStraight: bool) returns (h: HandRank)
    ensures h == CategoryOf(cards, m, isFlush, isStraight)
  {
    if isFlush {
      if m == RoyalFlushValue {
        return RoyalFlush;
      }
      if isStraight {
        return StraightFlush;
      }
      return Flush;
    }
    if isStraight {
      return Straight;
    }
    var counts := GetRankCounts(cards);
    var pairs, trips, quads := 0, 0, 0;
    var rest := counts.Keys;
    while rest != {}
      invariant rest <= counts.Keys
      invariant pairs == |KeysWith(counts, counts.Keys - rest, 2)|
      invariant trips == |KeysWith(counts, counts.Keys - rest, 3)|
      invariant quads == |KeysWith(counts, counts.Keys - rest, 4)|
      decreases |rest|
    {
      var r :| r in rest;
      KeysWithStep(counts, rest, r);
      var count := counts[r];
      if count == 2 {
        pairs := pairs + 1;
      } else if count == 3 {
        trips := trips + 1;
      } else if count == 4 {
        quads := quads + 1;
      }
      rest := rest - {r};
    }
    assert counts.Keys - rest == counts.Keys;
    KeysWithAreTallies(cards, counts);
    if quads == 1 {
      return FourOfAKind;
    }
    if trips == 1 && pairs == 1 {
      return FullHouse;
    }
    if trips == 1 {
      return ThreeOfAKind;
    }
    if pairs == 2 {
      return TwoPair;
    }
    if pairs == 1 {
      return Pair;
    }
    return HighCard;
  }

  // ---------------------------------------------------------------------------
  // The write-once evaluation.

  /**
   * evaluate: a hand already evaluated is returned unchanged; otherwise the
   * mask, the flush and straight flags and the category are filled in from
   * the cards, in that order, and the hand is marked evaluated.
   */
  ghost function Evaluate(h: Hand): (e: Hand)
    ensures e.evaluated && e.cards == h.cards && e.player == h.player
    ensures h.evaluated ==> e == h
  {
    if h.evaluated then h
    else
      var m := CardValuesOf(h.cards);
      var flush := IsFlushOf(h.cards);
      var st := StraightOf(m);
      h.(cardValues := m, isFlush := flush, isStraight := st.0, isWheel := st.1,
         handRank := CategoryOf(h.cards, m, flush, st.0), evaluated := true)
  }

  /** The evaluate method, built from the computeX helpers. */
  method EvaluateHand(h: Hand) returns (e: Hand)
    ensures e == Evaluate(h)
  {
    if h.evaluated {
      return h;
    }
    var values := ComputeCardValues(h.cards);
    var flush := ComputeIsFlush(h.cards);
    var st := StraightOf(values);
    var rank := ComputeHandRank(h.cards, values, flush, st.0);
    e := h.(cardValues := values, isFlush := flush, isStraight := st.0, isWheel := st.1,
            handRank := rank, evaluated := true);
  }

  // ---------------------------------------------------------------------------
  // Construction.

  /** Highest rank first. Cards of equal rank may come in either order. */
  ghost predicate DescendingByRank(cards: seq<Card>) {
    forall i, j :: 0 <= i < j < |cards| ==> cards[i].rank >= cards[j].rank
  }

  /** Insert c in front of the first card of strictly lower rank. */
  function InsertByRank(c: Card, s: seq<Card>): (r: seq<Card>)
    ensures multiset(r) == multiset(s) + multiset{c}
    ensures |r| == |s| + 1
    ensures forall x :: x in r <==> x == c || x in s
  {
    if s == [] then [c]
    else if c.rank >= s[0].rank then [c] + s
    else
      assert s == [s[0]] + s[1..];
      [s[0]] + InsertByRank(c, s[1..])
  }

  lemma {:induction false} InsertByRankSorted(c: Card, s: seq<Card>)
    requires DescendingByRank(s)
    ensures DescendingByRank(InsertByRank(c, s))
    ensures |s| > 0 ==> InsertByRank(c, s)[0].rank == (if c.rank >= s[0].rank then c.rank else s[0].rank)
  {
    if s != [] && c.rank < s[0].rank {
      var tail := s[1..];
      assert DescendingByRank(tail) by {
        forall i, j | 0 <= i < j < |tail| ensures tail[i].rank >= tail[j].rank {
          assert tail[i] == s[i + 1] && tail[j] == s[j + 1];
        }
      }
      InsertByRankSorted(c, tail);
      forall i | 0 <= i < |tail| ensures tail[i].rank <= s[0].rank {
        assert tail[i] == s[i + 1];
      }
      InsertRankBounded(c, tail, s[0].rank);
      DescendingCons(s[0], InsertByRank(c, tail));
    } else if s != [] {
      DescendingCons(c, s);
    }
  }

  /** Inserting a card no higher than a bound keeps every rank at most that bound. */
  lemma InsertRankBounded(c: Card, s: seq<Card>, bound: int)
    requires c.rank <= bound
    requires forall i :: 0 <= i < |s| ==> s[i].rank <= bound
    ensures forall i :: 0 <= i < |InsertByRank(c, s)| ==> InsertByRank(c, s)[i].rank <= bound
  {
    var r := InsertByRank(c, s);
    forall i | 0 <= i < |r| ensures r[i].rank <= bound {
      var x := r[i];
      assert x in r;
      if x != c {
        var k :| 0 <= k < |s| && s[k] == x;
      }
    }
  }

  /** A card at least as high as every card of a descending sequence can go in front. */
  lemma DescendingCons(h: Card, t: seq<Card>)
    requires DescendingByRank(t)
    requires forall i :: 0 <= i < |t| ==> t[i].rank <= h.rank
    ensures DescendingByRank([h] + t)
  {
    var r := [h] + t;
    forall i, j | 0 <= i < j < |r| ensures r[i].rank >= r[j].rank {
      if i == 0 {
        assert r[j] == t[j - 1];
      } else {
        assert r[i] == t[i - 1] && r[j] == t[j - 1];
      }
    }
  }

  /**
   * The sort.Slice call: the cards rearranged, highest rank first. The
   * library's sort is not stable, so among equal ranks the model fixes one
   * order (that of an insertion sort).
   */
  function SortByRank(cards: seq<Card>): (s: seq<Card>)
    ensures multiset(s) == multiset(cards) && |s| == |cards|
    ensures DescendingByRank(s)
  {
    if cards == [] then []
    else
      assert cards == [cards[0]] + cards[1..];
      var rest := SortByRank(cards[1..]);
      InsertByRankSorted(cards[0], rest);
      InsertByRank(cards[0], rest)
  }

  /** Two positions hold the same card (rank and suit). */
  ghost predicate HasDuplicate(cards: seq<Card>) {
    exists i, j :: 0 <= i < j < |cards| && cards[i] == cards[j]
  }

  /** A hand built from cards but not yet evaluated: every cached field at its zero value. */
  function Unevaluated(cards: seq<Card>): (h: Hand)
    ensures h.cards == cards && !h.evaluated && h.player == null
  {
    Hand(cards, null, 0, false, false, false, 0, false)
  }

  /**
   * NewHand's outcome: exactly five cards, else InvalidHandSize; no card twice,
   * else DuplicateCards; then the sorted, evaluated hand.
   */
  ghost function MakeHand(cards: seq<Card>): (r: Result<Hand>)
    ensures r.Err? <==> |cards| != HandSize || HasDuplicate(cards)
    ensures |cards| != HandSize ==> r == Err(InvalidHandSize)
    ensures |cards| == HandSize && HasDuplicate(cards) ==> r == Err(DuplicateCards)
    ensures r.Ok? ==> r.value.evaluated && r.value.player == null
                      && multiset(r.value.cards) == multiset(cards) && DescendingByRank(r.value.cards)
  {
    if |cards| != HandSize then Err(InvalidHandSize)
    else if HasDuplicate(cards) then Err(DuplicateCards)
    else Ok(Evaluate(Unevaluated(SortByRank(cards))))
  }

  /** NewHand: size check, a seen-set scan for duplicates, sort, evaluate. */
  method NewHand(cards: seq<Card>) returns (r: Result<Hand>)
    ensures r == MakeHand(cards)
  {
    if |cards| != HandSize {
      return Err(InvalidHandSize);
    }
    // The source keys the seen-set by the text "rank-suit", which is
    // one-to-one on cards, so the card itself serves as the key here.
    var seen: set<Card> := {};
    for i := 0 to |cards|
      invariant seen == set j | 0 <= j < i :: cards[j]
      invariant !HasDuplicate(cards[..i])
    {
      if cards[i] in seen {
        var j :| 0 <= j < i && cards[j] == cards[i];
        assert cards[j] == cards[i];
        return Err(DuplicateCards);
      }
      forall a | 0 <= a < i ensures cards[a] != cards[i] {
        assert cards[a] in seen;
      }
      assert cards[..i + 1] == cards[..i] + [cards[i]];
      seen := seen + {cards[i]};
    }
    assert cards[..|cards|] == cards;
    var sorted := SortByRank(cards);
    var h := EvaluateHand(Unevaluated(sorted));
    return Ok(h);
  }

  /** NewHandWithPlayer: NewHand, then the player is attached. */
  method NewHandWithPlayer(cards: seq<Card>, player: Player?) returns (r: Result<Hand>)
    ensures MakeHand(cards).Err? ==> r == MakeHand(cards)
    ensures MakeHand(cards).Ok? ==> r == Ok(MakeHand(cards).value.(player := player))
  {
    r := NewHand(cards);
    if r.Err? {
      return r;
    }
    return Ok(r.value.(player := player));
  }

  // ---------------------------------------------------------------------------
  // Accessors.

  function Rank(h: Hand): HandRank { h.handRank }
  function IsFlush(h: Hand): bool { h.isFlush }
  function IsStraight(h: Hand): bool { h.isStraight }
  function IsWheel(h: Hand): bool { h.isWheel }

  // ---------------------------------------------------------------------------
  // Tiebreak score.

  /** A card with the number of cards of its rank in the hand (cardWithCount). */
  datatype CardWithCount = CardWithCount(card: Card, count: int)

  /** Every card of `cards`, in order, paired with its rank's count in `all`. */
  function WithCounts(cards: seq<Card>, all: seq<Card>): (r: seq<CardWithCount>)
    ensures |r| == |cards|
  {
    if cards == [] then []
    else WithCounts(cards[..|cards| - 1], all) + [CardWithCount(cards[|cards| - 1], Count(all, cards[|cards| - 1].rank))]
  }

  /** The sort's less function: larger count first, then higher rank. */
  predicate Before(a: CardWithCount, b: CardWithCount) {
    a.count > b.count || (a.count == b.count && a.card.rank > b.card.rank)
  }

  /** Sorted for Before: no element is strictly before an earlier one. */
  ghost predicate SortedByCount(s: seq<CardWithCount>) {
    forall i, j :: 0 <= i < j < |s| ==> !Before(s[j], s[i])
  }

  /** Insert x in front of the first element that is not strictly before it. */
  function InsertByCount(x: CardWithCount, s: seq<CardWithCount>): (r: seq<CardWithCount>)
    ensures multiset(r) == multiset(s) + multiset{x}
    ensures |r| == |s| + 1
    ensures forall y :: y in r <==> y == x || y in s
  {
    if s == [] then [x]
    else if !Before(s[0], x) then [x] + s
    else
      assert s == [s[0]] + s[1..];
      [s[0]] + InsertByCount(x, s[1..])
  }

  lemma {:induction false} InsertByCountSorted(x: CardWithCount, s: seq<CardWithCount>)
    requires SortedByCount(s)
    ensures SortedByCount(InsertByCount(x, s))
  {
    if s != [] && Before(s[0], x) {
      InsertByCountSorted(x, s[1..]);
      var t := InsertByCount(x, s[1..]);
      forall y | y in t ensures !Before(y, s[0]) {
        if y != x {
          var k :| 0 <= k < |s[1..]| && s[1..][k] == y;
          assert s[k + 1] == y;
        }
      }
      var r := [s[0]] + t;
      forall i, j | 0 <= i < j < |r| ensures !Before(r[j], r[i]) {
        if i == 0 {
          assert r[j] == t[j - 1] && t[j - 1] in t;
        } else {
          assert r[i] == t[i - 1] && r[j] == t[j - 1];
        }
      }
    }
  }

  /** The sort.Slice call on the counted cards (one fixed order among equal keys). */
  function SortByCount(s: seq<CardWithCount>): (r: seq<CardWithCount>)
    ensures multiset(r) == multiset(s) && |r| == |s|
    ensures SortedByCount(r)
  {
    if s == [] then []
    else
      assert s == [s[0]] + s[1..];
      var rest := SortByCount(s[1..]);
      InsertByCountSorted(s[0], rest);
      InsertByCount(s[0], rest)
  }

  // Go's `<<` and `|` on the score, a non-negative int.

  /** `x << k` on a non-negative int: multiplication by 2^k. */
  function ShiftLeft(x: nat, k: nat): nat {
    x * Pow2(k)
  }

  /** `a | b` on non-negative ints, one bit at a time from the lowest. */
  function BitOr(a: nat, b: nat): nat
    decreases a + b
  {
    if a == 0 then b
    else if b == 0 then a
    else 2 * BitOr(a / 2, b / 2) + (if a % 2 == 1 || b % 2 == 1 then 1 else 0)
  }

  /** `rank << tiebreakerShifts[i]`. */
  function ShiftedRank(r: Rank, i: nat): nat
    requires i < |TiebreakerShifts|
  {
    ShiftLeft(r, TiebreakerShifts[i])
  }

  /** The score after the first n sorted entries: OR of rank << shift, for positions below five. */
  function PackPrefix(s: seq<CardWithCount>, n: nat): nat
    requires n <= |s|
  {
    if n == 0 then 0
    else BitOr(PackPrefix(s, n - 1), if n - 1 < |TiebreakerShifts| then ShiftedRank(s[n - 1].card.rank, n - 1) else 0)
  }

  /** The entries in score order: counted, then sorted by count and rank. */
  function KeyOrder(cards: seq<Card>): (s: seq<CardWithCount>)
    ensures |s| == |cards|
  {
    SortByCount(WithCounts(cards, cards))
  }

  /** TiebreakScore's value for a hand's cards. */
  function Score(cards: seq<Card>): nat {
    var s := KeyOrder(cards);
    PackPrefix(s, |s|)
  }

  /** TiebreakScore: count ranks, pair cards with counts, sort, pack five ranks. */
  method TiebreakScore(h: Hand) returns (score: nat)
    ensures score == Score(h.cards)
  {
    // the source repeats getRankCounts' loop here
    var counts := GetRankCounts(h.cards);
    var withCounts: seq<CardWithCount> := [];
    for i := 0 to |h.cards|
      invariant withCounts == WithCounts(h.cards[..i], h.cards)
    {
      assert h.cards[..i + 1][..i] == h.cards[..i];
      assert HoldsRank(h.cards, h.cards[i].rank);
      withCounts := withCounts + [CardWithCount(h.cards[i], counts[h.cards[i].rank])];
    }
    assert h.cards[..|h.cards|] == h.cards;
    var sorted := SortByCount(withCounts);
    score := PackRanks(sorted);
  }

  /** TiebreakScore's last loop: OR each of the first five ranks in at its shift. */
  method PackRanks(sorted: seq<CardWithCount>) returns (score: nat)
    ensures score == PackPrefix(sorted, |sorted|)
  {
    score := 0;
    for i := 0 to |sorted|
      invariant score == PackPrefix(sorted, i)
    {
      if i < |TiebreakerShifts| {
        score := BitOr(score, ShiftedRank(sorted[i].card.rank, i));
      }
    }
  }

  // ---------------------------------------------------------------------------
  // Comparison.

  /**
   * Compare: the higher category wins; between two straights of one category
   * the wheel loses to any other; otherwise the higher tiebreak score wins.
   */
  function Compare(h: Hand, other: Hand): (c: int)
    ensures c == -1 || c == 0 || c == 1
    ensures h.handRank != other.handRank ==> (c == 1 <==> h.handRank > other.handRank)
  {
    if h.handRank > other.handRank then 1
    else if h.handRank < other.handRank then -1
    else if h.isStraight && other.isStraight && h.isWheel && !other.isWheel then -1
    else if h.isStraight && other.isStraight && !h.isWheel && other.isWheel then 1
    else
      var mine, theirs := Score(h.cards), Score(other.cards);
      if mine > theirs then 1 else if mine < theirs then -1 else 0
  }

  predicate Beats(h: Hand, other: Hand) {
    Compare(h, other) > 0
  }

  predicate Ties(h: Hand, other: Hand) {
    Compare(h, other) == 0
  }
}

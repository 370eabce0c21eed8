// Hand categories and the constants of the bit-arithmetic evaluator (handrank.go).
module HandRanks {
  import opened Cards

  /** A hand category; Go's HandRank is a plain int, so any int is a value of the type. */
  type HandRank = int

  const HighCard: HandRank := 1
  const Pair: HandRank := 2
  const TwoPair: HandRank := 3
  const ThreeOfAKind: HandRank := 4
  const Straight: HandRank := 5
  const Flush: HandRank := 6
  const FullHouse: HandRank := 7
  const FourOfAKind: HandRank := 8
  const StraightFlush: HandRank := 9
  const RoyalFlush: HandRank := 10

  /** The ten named categories. */
  predicate IsCategory(h: HandRank) {
    HighCard <= h <= RoyalFlush
  }

  /** The categories are consecutive integers in poker order, so `<` on them is category order. */
  lemma CategoryOrder()
    ensures HighCard < Pair < TwoPair < ThreeOfAKind < Straight < Flush
    ensures Flush < FullHouse < FourOfAKind < StraightFlush < RoyalFlush
    ensures RoyalFlush - HighCard == 9
  {
  }

  function HandRankString(h: HandRank): (s: string)
    ensures !IsCategory(h) <==> s == "Unknown"
  {
    match h
    case 1 => "High Card"
    case 2 => "Pair"
    case 3 => "Two Pair"
    case 4 => "Three of a Kind"
    case 5 => "Straight"
    case 6 => "Flush"
    case 7 => "Full House"
    case 8 => "Four of a Kind"
    case 9 => "Straight Flush"
    case 10 => "Royal Flush"
    case _ => "Unknown"
  }

  /** Each category has its own name. */
  lemma HandRankStringInjective(a: HandRank, b: HandRank)
    requires IsCategory(a) && IsCategory(b)
    requires HandRankString(a) == HandRankString(b)
    ensures a == b
  {
  }

  // ---------------------------------------------------------------------------
  // Bit-mask constants. The rank-presence mask has bit r set for each rank r held.
  // Go computes it in a 64-bit int, but only bits 2..14 can ever be set, so a
  // 16-bit vector represents it exactly (two's complement negation included).

  const NumBits: int := 15
  const UnusedBits: int := 2

  const StraightValue: bv16 := 31
  const WheelStraightValue: bv16 := 16444
  const RoyalFlushValue: bv16 := 31744

  /** Bit shifts of the five tie-break fields, most significant first. */
  const TiebreakerShifts: seq<nat> := [16, 12, 8, 4, 0]

  /** The mask bit of a rank, `1 << rank`, tabulated so proofs need no int-to-bit conversion. */
  function RankBit(r: Rank): (b: bv16)
    ensures b != 0 && b & 0x8003 == 0
  {
    match r
    case 2 => 0x4
    case 3 => 0x8
    case 4 => 0x10
    case 5 => 0x20
    case 6 => 0x40
    case 7 => 0x80
    case 8 => 0x100
    case 9 => 0x200
    case 10 => 0x400
    case 11 => 0x800
    case 12 => 0x1000
    case 13 => 0x2000
    case 14 => 0x4000
  }

  /** The table agrees with the shift it replaces. */
  lemma RankBitIsShift(r: Rank)
    ensures RankBit(r) == 1 << r
  {
  }

  /** Bit `r` of mask `m` is set. */
  predicate HasRank(m: bv16, r: Rank) {
    m & RankBit(r) != 0
  }

  /** Only bits that belong to a rank (2..14) may be set. */
  predicate RankBitsOnly(m: bv16) {
    m & 0x8003 == 0
  }

  /** The lowest set bit, by the two's complement trick `m & -m`. */
  function Lsb(m: bv16): bv16 {
    m & -m
  }

  /** Five consecutive bits starting at bit k. */
  function Run(k: nat): bv16
    requires k <= 11
  {
    StraightValue << k
  }

  /** The mask's set bits are five consecutive positions. */
  predicate IsFiveRun(m: bv16) {
    exists k: nat :: k <= 11 && Run(k) == m
  }

  /** The ranks held are exactly lo, lo+1, ..., lo+4. */
  predicate RunFrom(m: bv16, lo: int) {
    forall r: Rank :: HasRank(m, r) <==> lo <= r <= lo + 4
  }

  /** The wheel constant is the mask of A-5-4-3-2, that is 2^14 + 2^5 + 2^4 + 2^3 + 2^2. */
  lemma WheelIsAceToFive()
    ensures WheelStraightValue == RankBit(Ace) | RankBit(Five) | RankBit(Four) | RankBit(Three) | RankBit(Two)
    ensures WheelStraightValue as int == 16384 + 32 + 16 + 8 + 4
    ensures forall r: Rank :: HasRank(WheelStraightValue, r) <==> r == Ace || r <= Five
  {
  }

  /** The wheel's bits are not contiguous, so the division test alone misses it. */
  lemma WheelFailsDivisionTest()
    ensures WheelStraightValue / Lsb(WheelStraightValue) != StraightValue
    ensures !IsFiveRun(WheelStraightValue)
  {
    if IsFiveRun(WheelStraightValue) {
      var k: nat :| k <= 11 && Run(k) == WheelStraightValue;
      StraightTestComplete(k);
      assert false;
    }
  }

  /** The royal constant is the mask of A-K-Q-J-T, and it passes the straight test. */
  lemma RoyalIsAceToTen()
    ensures RoyalFlushValue == RankBit(Ace) | RankBit(King) | RankBit(Queen) | RankBit(Jack) | RankBit(Ten)
    ensures RunFrom(RoyalFlushValue, Ten)
    ensures RoyalFlushValue / Lsb(RoyalFlushValue) == StraightValue
  {
  }

  /** StraightValue is 0b11111, and every run of five bits divided by its lowest bit gives it. */
  lemma StraightTestComplete(k: nat)
    requires k <= 11
    ensures StraightValue == 0x1F
    ensures Run(k) != 0 && Run(k) / Lsb(Run(k)) == StraightValue
  {
  }

  /** Conversely, a non-zero mask that passes the division test is a run of five bits. */
  lemma StraightTestSound(m: bv16)
    requires m != 0 && m / Lsb(m) == StraightValue
    ensures IsFiveRun(m)
  {
    assert m == 0x1F || m == 0x3E || m == 0x7C || m == 0xF8 || m == 0x1F0 || m == 0x3E0
        || m == 0x7C0 || m == 0xF80 || m == 0x1F00 || m == 0x3E00 || m == 0x7C00 || m == 0xF800;
    if m == 0x1F { assert Run(0) == m; }
    else if m == 0x3E { assert Run(1) == m; }
    else if m == 0x7C { assert Run(2) == m; }
    else if m == 0xF8 { assert Run(3) == m; }
    else if m == 0x1F0 { assert Run(4) == m; }
    else if m == 0x3E0 { assert Run(5) == m; }
    else if m == 0x7C0 { assert Run(6) == m; }
    else if m == 0xF80 { assert Run(7) == m; }
    else if m == 0x1F00 { assert Run(8) == m; }
    else if m == 0x3E00 { assert Run(9) == m; }
    else if m == 0x7C00 { assert Run(10) == m; }
    else { assert Run(11) == m; }
  }

  /** Two rank-only masks that hold the same ranks are equal. */
  lemma SameRanksSameMask(m: bv16, n: bv16)
    requires RankBitsOnly(m) && RankBitsOnly(n)
    requires forall r: Rank :: HasRank(m, r) == HasRank(n, r)
    ensures m == n
  {
    var a2, a3, a4, a5 := HasRank(m, 2) == HasRank(n, 2), HasRank(m, 3) == HasRank(n, 3), HasRank(m, 4) == HasRank(n, 4), HasRank(m, 5) == HasRank(n, 5);
    var a6, a7, a8, a9 := HasRank(m, 6) == HasRank(n, 6), HasRank(m, 7) == HasRank(n, 7), HasRank(m, 8) == HasRank(n, 8), HasRank(m, 9) == HasRank(n, 9);
    var a10, a11, a12 := HasRank(m, 10) == HasRank(n, 10), HasRank(m, 11) == HasRank(n, 11), HasRank(m, 12) == HasRank(n, 12);
    var a13, a14 := HasRank(m, 13) == HasRank(n, 13), HasRank(m, 14) == HasRank(n, 14);
    assert a2 && a3 && a4 && a5 && a6 && a7 && a8 && a9 && a10 && a11 && a12 && a13 && a14;
    SameBitsSameMask(m, n);
  }

  lemma SameBitsSameMask(m: bv16, n: bv16)
    requires RankBitsOnly(m) && RankBitsOnly(n)
    requires HasRank(m, 2) == HasRank(n, 2) && HasRank(m, 3) == HasRank(n, 3) && HasRank(m, 4) == HasRank(n, 4)
    requires HasRank(m, 5) == HasRank(n, 5) && HasRank(m, 6) == HasRank(n, 6) && HasRank(m, 7) == HasRank(n, 7)
    requires HasRank(m, 8) == HasRank(n, 8) && HasRank(m, 9) == HasRank(n, 9) && HasRank(m, 10) == HasRank(n, 10)
    requires HasRank(m, 11) == HasRank(n, 11) && HasRank(m, 12) == HasRank(n, 12) && HasRank(m, 13) == HasRank(n, 13)
    requires HasRank(m, 14) == HasRank(n, 14)
    ensures m == n
  {
  }

  /** The mask of the five ranks lo..lo+4. */
  function RunOfRanks(lo: int): (m: bv16)
    requires Two <= lo <= Ten
    ensures RankBitsOnly(m) && RunFrom(m, lo)
    ensures m != 0 && Lsb(m) != 0 && m / Lsb(m) == StraightValue
  {
    match lo
    case 2 => 0x7C
    case 3 => 0xF8
    case 4 => 0x1F0
    case 5 => 0x3E0
    case 6 => 0x7C0
    case 7 => 0xF80
    case 8 => 0x1F00
    case 9 => 0x3E00
    case 10 => 0x7C00
  }

  /** A non-zero mask has a non-zero lowest bit, so the division test is defined. */
  lemma LsbNonZero(m: bv16)
    requires m != 0
    ensures Lsb(m) != 0 && Lsb(m) & m == Lsb(m)
  {
  }

  /** A mask of ranks that passes the division test holds five consecutive ranks. */
  lemma DivisionTestFindsRun(m: bv16) returns (lo: int)
    requires RankBitsOnly(m) && m != 0 && Lsb(m) != 0
    requires m / Lsb(m) == StraightValue
    ensures Two <= lo <= Ten && m == RunOfRanks(lo) && RunFrom(m, lo)
  {
    StraightTestSound(m);
    var k: nat :| k <= 11 && Run(k) == m;
    assert 2 <= k <= 10;
    lo := k;
    assert m == RunOfRanks(lo);
  }

  /** A mask of ranks holding five consecutive ranks passes the division test. */
  lemma RunPassesDivisionTest(m: bv16, lo: int)
    requires RankBitsOnly(m) && Two <= lo <= Ten && RunFrom(m, lo)
    ensures m != 0 && Lsb(m) != 0 && m / Lsb(m) == StraightValue
  {
    var n := RunOfRanks(lo);
    SameRanksSameMask(m, n);
  }

  /**
   * For a mask of ranks, the test `m / lsb(m) == 31` holds exactly when the
   * ranks held are five consecutive ranks lo..lo+4 (which needs 2 <= lo <= 10).
   */
  lemma StraightTestMeaning(m: bv16)
    requires RankBitsOnly(m) && m != 0
    ensures Lsb(m) != 0
    ensures m / Lsb(m) == StraightValue <==> exists lo :: Two <= lo <= Ten && RunFrom(m, lo)
  {
    LsbNonZero(m);
    if m / Lsb(m) == StraightValue {
      var lo := DivisionTestFindsRun(m);
    }
    if lo :| Two <= lo <= Ten && RunFrom(m, lo) {
      RunPassesDivisionTest(m, lo);
    }
  }
}

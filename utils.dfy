// Combination generator and the two small bit/index helpers (utils.go).
module Combinatorics {
  import opened Cards
  import opened HandRanks

  /** Pascal's rule: the number of k-element subsets of an n-element set. */
  function Binomial(n: nat, k: nat): nat {
    if k == 0 then 1
    else if n == 0 then 0
    else Binomial(n - 1, k - 1) + Binomial(n - 1, k)
  }

  /** Each of `cs` with `p` in front of it. */
  function PrefixAll<T>(p: seq<T>, cs: seq<seq<T>>): (r: seq<seq<T>>)
    ensures |r| == |cs|
    ensures forall j :: 0 <= j < |cs| ==> r[j] == p + cs[j]
  {
    seq(|cs|, j requires 0 <= j < |cs| => p + cs[j])
  }

  /**
   * The k-element picks from items[start..], keeping input order inside each
   * pick, in the order the generator emits them: picks containing items[start]
   * first, the rest after.
   */
  function Choose<T>(items: seq<T>, start: nat, k: nat): seq<seq<T>>
    requires start <= |items|
    decreases |items| - start
  {
    if k == 0 then [[]]
    else if |items| - start < k then []
    else PrefixAll([items[start]], Choose(items, start + 1, k - 1)) + Choose(items, start + 1, k)
  }

  /**
   * The k-element index sequences over positions start..m-1, in the order the
   * generator emits them: those starting with `start` first, the rest after.
   */
  function ChooseIndices(m: nat, start: nat, k: nat): seq<seq<nat>>
    requires start <= m
    decreases m - start
  {
    if k == 0 then [[]]
    else if m - start < k then []
    else PrefixAll([start], ChooseIndices(m, start + 1, k - 1)) + ChooseIndices(m, start + 1, k)
  }

  /** The items at the given index positions (positions past the end pick nothing). */
  function Pick<T>(items: seq<T>, idx: seq<nat>): seq<T> {
    if idx == [] then []
    else (if idx[0] < |items| then [items[idx[0]]] else []) + Pick(items, idx[1..])
  }

  /** Pick applied to every index sequence of an enumeration. */
  function PickAll<T>(items: seq<T>, cs: seq<seq<nat>>): seq<seq<T>> {
    if cs == [] then [] else [Pick(items, cs[0])] + PickAll(items, cs[1..])
  }

  /** Strictly increasing indices. */
  predicate Increasing(s: seq<nat>) {
    forall a, b :: 0 <= a < b < |s| ==> s[a] < s[b]
  }

  /** Every index sequence lists positions in [start, m) in strictly increasing order. */
  ghost predicate IncreasingWithin(idx: seq<nat>, start: nat, m: nat) {
    (forall j :: 0 <= j < |idx| ==> start <= idx[j] < m)
    && (forall i, j :: 0 <= i < j < |idx| ==> idx[i] < idx[j])
  }

  /** Lexicographic order on index sequences. */
  predicate LexLess(a: seq<nat>, b: seq<nat>) {
    |a| > 0 && |b| > 0 && (a[0] < b[0] || (a[0] == b[0] && LexLess(a[1..], b[1..])))
  }

  // ---------------------------------------------------------------------------
  // The generator itself: a recursive procedure over a shared buffer.

  /**
   * `generate(start, depth)`: the buffer's first `depth` slots hold a chosen
   * prefix; every completion from items[start..] is copied out and appended.
   */
  method Generate<T>(items: seq<T>, n: nat, combination: array<T>, start: nat, depth: nat,
                     result: seq<seq<T>>) returns (result': seq<seq<T>>)
    requires combination.Length == n && depth <= n && start <= |items|
    modifies combination
    ensures result' == result + PrefixAll(old(combination[..depth]), Choose(items, start, n - depth))
    ensures combination[..depth] == old(combination[..depth])
    decreases n - depth
  {
    ghost var prefix := combination[..depth];
    if depth == n {
      var combo := combination[..];
      assert combo == prefix + [];
      result' := result + [combo];
      return;
    }
    var k := n - depth;
    result' := result;
    var i := start;
    while i + k <= |items|
      invariant start <= i <= |items|
      invariant combination[..depth] == prefix
      invariant result' + PrefixAll(prefix, Choose(items, i, k)) == result + PrefixAll(prefix, Choose(items, start, k))
      decreases |items| - i
    {
      ghost var before := result';
      combination[depth] := items[i];
      assert combination[..depth + 1] == prefix + [items[i]];
      result' := Generate(items, n, combination, i + 1, depth + 1, result');
      assert combination[..depth] == prefix by {
        assert combination[..depth] == combination[..depth + 1][..depth];
      }
      GenerateStep(items, prefix, i, k, before);
      i := i + 1;
    }
  }

  /** One pass of the generator's loop: the picks starting at items[i] are done. */
  lemma GenerateStep<T>(items: seq<T>, prefix: seq<T>, i: nat, k: nat, done: seq<seq<T>>)
    requires 0 < k && i + k <= |items|
    ensures done + PrefixAll(prefix, Choose(items, i, k))
         == (done + PrefixAll(prefix + [items[i]], Choose(items, i + 1, k - 1))) + PrefixAll(prefix, Choose(items, i + 1, k))
  {
    var rest, others := Choose(items, i + 1, k - 1), Choose(items, i + 1, k);
    assert Choose(items, i, k) == PrefixAll([items[i]], rest) + others;
    PrefixAllAppend(prefix, PrefixAll([items[i]], rest), others);
    PrefixAllNested(prefix, [items[i]], rest);
    var x, y := PrefixAll(prefix + [items[i]], rest), PrefixAll(prefix, others);
    assert PrefixAll(prefix, Choose(items, i, k)) == x + y;
    assert done + (x + y) == (done + x) + y;
  }

  /**
   * All n-element combinations of `items`, in lexicographic order of the chosen
   * indices. nil (here the empty sequence) when n <= 0 or n > len(items).
   */
  method Combinations<T(0)>(items: seq<T>, n: int) returns (result: seq<seq<T>>)
    ensures n <= 0 || n > |items| ==> result == []
    ensures 0 < n <= |items| ==> result == Choose(items, 0, n)
  {
    if n <= 0 || n > |items| {
      return [];
    }
    var combination := new T[n];
    result := Generate(items, n, combination, 0, 0, []);
    PrefixAllEmpty(combination[..0], Choose(items, 0, n));
  }

  /** Combinations specialised to cards. */
  method CardCombinations(cards: seq<Card>, n: int) returns (result: seq<seq<Card>>)
    ensures n <= 0 || n > |cards| ==> result == []
    ensures 0 < n <= |cards| ==> result == Choose(cards, 0, n)
  {
    result := Combinations(cards, n);
  }

  // ---------------------------------------------------------------------------
  // Properties of the enumeration.

  lemma PrefixAllNested<T>(p: seq<T>, q: seq<T>, cs: seq<seq<T>>)
    ensures PrefixAll(p, PrefixAll(q, cs)) == PrefixAll(p + q, cs)
  {
    forall j | 0 <= j < |cs| ensures PrefixAll(p, PrefixAll(q, cs))[j] == PrefixAll(p + q, cs)[j] {
      assert p + (q + cs[j]) == (p + q) + cs[j];
    }
  }

  lemma PrefixAllEmpty<T>(p: seq<T>, cs: seq<seq<T>>)
    requires p == []
    ensures PrefixAll(p, cs) == cs
  {
    forall j | 0 <= j < |cs| ensures PrefixAll(p, cs)[j] == cs[j] {
      assert [] + cs[j] == cs[j];
    }
  }

  lemma PrefixAllAppend<T>(p: seq<T>, a: seq<seq<T>>, b: seq<seq<T>>)
    ensures PrefixAll(p, a + b) == PrefixAll(p, a) + PrefixAll(p, b)
  {
  }

  lemma {:induction false} BinomialZero(n: nat, k: nat)
    requires n < k
    ensures Binomial(n, k) == 0
  {
    if n > 0 {
      BinomialZero(n - 1, k - 1);
      BinomialZero(n - 1, k);
    }
  }

  /** Choosing one of n things can be done in n ways. */
  lemma {:induction false} BinomialOne(n: nat)
    ensures Binomial(n, 1) == n
  {
    if n > 0 {
      BinomialOne(n - 1);
    }
  }

  /** There is one way to choose everything. */
  lemma {:induction false} BinomialAll(n: nat)
    ensures Binomial(n, n) == 1
  {
    if n > 0 {
      BinomialAll(n - 1);
      BinomialZero(n - 1, n);
    }
  }

  /** Leaving out one of n + 1 things can be done in n + 1 ways. */
  lemma {:induction false} BinomialAllButOne(n: nat)
    ensures Binomial(n + 1, n) == n + 1
  {
    if n > 0 {
      BinomialAllButOne(n - 1);
      BinomialAll(n);
    }
  }

  /** The counts the unit tests rely on: C(4,2) = 6, C(7,5) = 21, C(44,1) = 44. */
  lemma KnownCounts()
    ensures Binomial(4, 2) == 6 && Binomial(7, 5) == 21 && Binomial(44, 1) == 44
  {
    BinomialOne(44);
    BinomialOne(3);
    BinomialAllButOne(2);
    BinomialAllButOne(3);
    BinomialAllButOne(4);
    BinomialAllButOne(5);
    assert Binomial(4, 2) == 6;
    assert Binomial(5, 3) == 10;
    assert Binomial(6, 4) == 15;
  }

  /** Every member of cs has k strictly increasing positions in [start, m). */
  ghost predicate AllWithin(cs: seq<seq<nat>>, k: nat, start: nat, m: nat) {
    forall c :: c in cs ==> |c| == k && IncreasingWithin(c, start, m)
  }

  ghost predicate ChooseIndicesWithin(m: nat, start: nat, k: nat)
    requires start <= m
  {
    AllWithin(ChooseIndices(m, start, k), k, start, m)
  }

  lemma AllWithinPrefix(a: seq<seq<nat>>, k: nat, start: nat, m: nat)
    requires 0 < k && start < m && AllWithin(a, k - 1, start + 1, m)
    ensures AllWithin(PrefixAll([start], a), k, start, m)
  {
    forall c | c in PrefixAll([start], a) ensures |c| == k && IncreasingWithin(c, start, m) {
      var j :| 0 <= j < |a| && c == [start] + a[j];
      assert a[j] in a;
    }
  }

  lemma AllWithinWiden(b: seq<seq<nat>>, k: nat, start: nat, m: nat)
    requires AllWithin(b, k, start + 1, m)
    ensures AllWithin(b, k, start, m)
  {
    forall c | c in b ensures |c| == k && IncreasingWithin(c, start, m) {
    }
  }

  lemma AllWithinAppend(a: seq<seq<nat>>, b: seq<seq<nat>>, k: nat, start: nat, m: nat)
    requires AllWithin(a, k, start, m) && AllWithin(b, k, start, m)
    ensures AllWithin(a + b, k, start, m)
  {
  }

  /** Each index sequence has k strictly increasing positions in [start, m). */
  lemma {:induction false} ChooseIndicesRange(m: nat, start: nat, k: nat)
    requires start <= m
    ensures ChooseIndicesWithin(m, start, k)
    decreases m - start
  {
    if k > 0 && m - start >= k {
      var a := ChooseIndices(m, start + 1, k - 1);
      var b := ChooseIndices(m, start + 1, k);
      ChooseIndicesRange(m, start + 1, k - 1);
      ChooseIndicesRange(m, start + 1, k);
      AllWithinPrefix(a, k, start, m);
      AllWithinWiden(b, k, start, m);
      AllWithinAppend(PrefixAll([start], a), b, k, start, m);
      assert ChooseIndices(m, start, k) == PrefixAll([start], a) + b;
    } else if k == 0 {
      assert AllWithin([[]], 0, start, m);
    } else {
      assert AllWithin([], k, start, m);
    }
  }

  /** In range, Pick reads item by item. */
  lemma {:induction false} PickAt<T>(items: seq<T>, idx: seq<nat>)
    requires forall j :: 0 <= j < |idx| ==> idx[j] < |items|
    ensures |Pick(items, idx)| == |idx|
    ensures forall j :: 0 <= j < |idx| ==> Pick(items, idx)[j] == items[idx[j]]
  {
    if idx != [] {
      PickAt(items, idx[1..]);
    }
  }

  lemma {:induction false} PickAllLength<T>(items: seq<T>, cs: seq<seq<nat>>)
    ensures |PickAll(items, cs)| == |cs|
    ensures forall i :: 0 <= i < |cs| ==> PickAll(items, cs)[i] == Pick(items, cs[i])
  {
    if cs != [] {
      PickAllLength(items, cs[1..]);
    }
  }

  lemma {:induction false} PickAllAppend<T>(items: seq<T>, a: seq<seq<nat>>, b: seq<seq<nat>>)
    ensures PickAll(items, a + b) == PickAll(items, a) + PickAll(items, b)
  {
    if a == [] {
      assert a + b == b;
    } else {
      assert (a + b)[1..] == a[1..] + b;
      PickAllAppend(items, a[1..], b);
    }
  }

  lemma PickAllPrefix<T>(items: seq<T>, start: nat, a: seq<seq<nat>>)
    requires start < |items|
    ensures PickAll(items, PrefixAll([start], a)) == PrefixAll([items[start]], PickAll(items, a))
  {
    PickAllLength(items, a);
    PickAllLength(items, PrefixAll([start], a));
    forall i | 0 <= i < |a|
      ensures PickAll(items, PrefixAll([start], a))[i] == PrefixAll([items[start]], PickAll(items, a))[i]
    {
      assert ([start] + a[i])[1..] == a[i];
    }
  }

  /** The items of each pick are those at the corresponding index sequence. */
  lemma {:induction false} ChooseIsPick<T>(items: seq<T>, start: nat, k: nat)
    requires start <= |items|
    ensures Choose(items, start, k) == PickAll(items, ChooseIndices(|items|, start, k))
    decreases |items| - start
  {
    if k == 0 {
      assert Pick(items, []) == [];
    } else if |items| - start >= k {
      ChooseIsPick(items, start + 1, k - 1);
      ChooseIsPick(items, start + 1, k);
      var a := ChooseIndices(|items|, start + 1, k - 1);
      var b := ChooseIndices(|items|, start + 1, k);
      assert ChooseIndices(|items|, start, k) == PrefixAll([start], a) + b;
      PickAllPrefix(items, start, a);
      PickAllAppend(items, PrefixAll([start], a), b);
      assert PickAll(items, PrefixAll([start], a) + b)
          == PrefixAll([items[start]], Choose(items, start + 1, k - 1)) + Choose(items, start + 1, k);
    } else {
      assert ChooseIndices(|items|, start, k) == [];
    }
  }

  /** Every pick has exactly k items. */
  lemma {:induction false} ChooseLength<T>(items: seq<T>, start: nat, k: nat)
    requires start <= |items|
    ensures forall c :: c in Choose(items, start, k) ==> |c| == k
    decreases |items| - start
  {
    if k > 0 && |items| - start >= k {
      var a := Choose(items, start + 1, k - 1);
      var b := Choose(items, start + 1, k);
      ChooseLength(items, start + 1, k - 1);
      ChooseLength(items, start + 1, k);
      PrefixLengths(items[start], a, k);
      assert Choose(items, start, k) == PrefixAll([items[start]], a) + b;
    }
  }

  lemma PrefixLengths<T>(x: T, a: seq<seq<T>>, k: nat)
    requires 0 < k && forall c :: c in a ==> |c| == k - 1
    ensures forall c :: c in PrefixAll([x], a) ==> |c| == k
  {
    forall c | c in PrefixAll([x], a) ensures |c| == k {
      var j :| 0 <= j < |a| && c == [x] + a[j];
      assert a[j] in a;
    }
  }

  /** The enumeration has C(m - start, k) members. */
  lemma {:induction false} ChooseIndicesCount(m: nat, start: nat, k: nat)
    requires start <= m
    ensures |ChooseIndices(m, start, k)| == Binomial(m - start, k)
    decreases m - start
  {
    if k == 0 {
    } else if m - start < k {
      BinomialZero(m - start, k);
    } else {
      ChooseIndicesCount(m, start + 1, k - 1);
      ChooseIndicesCount(m, start + 1, k);
    }
  }

  /** The generator emits C(len(items) - start, k) picks. */
  lemma {:induction false} ChooseCount<T>(items: seq<T>, start: nat, k: nat)
    requires start <= |items|
    ensures |Choose(items, start, k)| == Binomial(|items| - start, k)
    decreases |items| - start
  {
    if k == 0 {
    } else if |items| - start < k {
      BinomialZero(|items| - start, k);
    } else {
      ChooseCount(items, start + 1, k - 1);
      ChooseCount(items, start + 1, k);
    }
  }

  /** Lexicographic order is irreflexive, so sorted enumerations have no repeats. */
  lemma {:induction false} LexLessIrreflexive(a: seq<nat>, b: seq<nat>)
    requires LexLess(a, b)
    ensures a != b
    decreases |a|
  {
    if a[0] == b[0] {
      LexLessIrreflexive(a[1..], b[1..]);
    }
  }

  ghost predicate LexSorted(cs: seq<seq<nat>>) {
    forall i, j :: 0 <= i < j < |cs| ==> LexLess(cs[i], cs[j])
  }

  lemma SortedPrefixAll(s: nat, a: seq<seq<nat>>)
    requires LexSorted(a)
    ensures LexSorted(PrefixAll([s], a))
  {
    var pa := PrefixAll([s], a);
    forall i, j | 0 <= i < j < |pa| ensures LexLess(pa[i], pa[j]) {
      assert pa[i][1..] == a[i] && pa[j][1..] == a[j];
    }
  }

  lemma SortedAppend(a: seq<seq<nat>>, b: seq<seq<nat>>)
    requires LexSorted(a) && LexSorted(b)
    requires forall i, j :: 0 <= i < |a| && 0 <= j < |b| ==> LexLess(a[i], b[j])
    ensures LexSorted(a + b)
  {
    var ab := a + b;
    forall i, j | 0 <= i < j < |ab| ensures LexLess(ab[i], ab[j]) {
      if j < |a| {
        assert ab[i] == a[i] && ab[j] == a[j];
      } else if i < |a| {
        assert ab[i] == a[i] && ab[j] == b[j - |a|];
      } else {
        assert ab[i] == b[i - |a|] && ab[j] == b[j - |a|];
      }
    }
  }

  /**
   * The index sequences come in strictly increasing lexicographic order: the
   * rightmost index varies fastest.
   */
  lemma {:induction false} ChooseIndicesSorted(m: nat, start: nat, k: nat)
    requires start <= m
    ensures LexSorted(ChooseIndices(m, start, k))
    decreases m - start
  {
    if k > 0 && m - start >= k {
      ChooseIndicesSorted(m, start + 1, k - 1);
      ChooseIndicesSorted(m, start + 1, k);
      ChooseIndicesRange(m, start + 1, k);
      var a := ChooseIndices(m, start + 1, k - 1);
      var b := ChooseIndices(m, start + 1, k);
      var pa := PrefixAll([start], a);
      SortedPrefixAll(start, a);
      forall i, j | 0 <= i < |pa| && 0 <= j < |b| ensures LexLess(pa[i], b[j]) {
        assert b[j] in b;
        assert pa[i][0] == start;
      }
      SortedAppend(pa, b);
    }
  }

  /** No pick of indices appears twice. */
  lemma ChooseIndicesDistinct(m: nat, start: nat, k: nat)
    requires start <= m
    ensures forall i, j :: 0 <= i < j < |ChooseIndices(m, start, k)| ==>
              ChooseIndices(m, start, k)[i] != ChooseIndices(m, start, k)[j]
  {
    var cs := ChooseIndices(m, start, k);
    ChooseIndicesSorted(m, start, k);
    forall i, j | 0 <= i < j < |cs| ensures cs[i] != cs[j] {
      LexLessIrreflexive(cs[i], cs[j]);
    }
  }

  /** The example of the unit tests: the pairs of [1,2,3,4] in order. */
  lemma PairsOfFour()
    ensures Choose([1, 2, 3, 4], 0, 2) == [[1, 2], [1, 3], [1, 4], [2, 3], [2, 4], [3, 4]]
  {
    var s := [1, 2, 3, 4];
    assert Choose(s, 4, 0) == [[]] && Choose(s, 4, 1) == [] && Choose(s, 3, 0) == [[]];
    assert Choose(s, 2, 0) == [[]] && Choose(s, 1, 0) == [[]];
    assert PrefixAll([4], [[]])[0] == [4];
    assert PrefixAll([4], [[]]) == [[4]];
    assert Choose(s, 3, 1) == [[4]];
    assert PrefixAll([3], [[]])[0] == [3];
    assert PrefixAll([3], [[]]) == [[3]];
    assert Choose(s, 2, 1) == [[3], [4]];
    assert PrefixAll([2], [[]])[0] == [2];
    assert PrefixAll([2], [[]]) == [[2]];
    assert Choose(s, 1, 1) == [[2], [3], [4]];
    assert Choose(s, 3, 2) == [];
    assert PrefixAll([3], [[4]])[0] == [3, 4];
    assert PrefixAll([3], [[4]]) == [[3, 4]];
    assert Choose(s, 2, 2) == [[3, 4]];
    assert PrefixAll([2], [[3], [4]])[0] == [2, 3] && PrefixAll([2], [[3], [4]])[1] == [2, 4];
    assert PrefixAll([2], [[3], [4]]) == [[2, 3], [2, 4]];
    assert Choose(s, 1, 2) == [[2, 3], [2, 4], [3, 4]];
    var p1 := PrefixAll([1], [[2], [3], [4]]);
    assert p1[0] == [1, 2] && p1[1] == [1, 3] && p1[2] == [1, 4];
    assert p1 == [[1, 2], [1, 3], [1, 4]];
  }

  // ---------------------------------------------------------------------------
  // Bit and index helpers.

  const TwoTo64: int := 0x1_0000_0000_0000_0000
  const TwoTo63: int := 0x8000_0000_0000_0000

  /** The int64 value a Go `int` holds for the mathematical integer x (two's complement wrap). */
  function Wrap64(x: int): (r: int)
    ensures -TwoTo63 <= r < TwoTo63
    ensures (r - x) % TwoTo64 == 0
  {
    (x + TwoTo63) % TwoTo64 - TwoTo63
  }

  /** The bits read most significant first, each element contributing only its low bit. */
  function BitsValue(bits: seq<int>): nat {
    if bits == [] then 0 else 2 * BitsValue(bits[..|bits| - 1]) + bits[|bits| - 1] % 2
  }

  lemma WrapCongruent(x: int, y: int)
    requires (x - y) % TwoTo64 == 0
    ensures Wrap64(x) == Wrap64(y)
  {
    var q := (x - y) / TwoTo64;
    assert x == y + q * TwoTo64;
    assert (y + TwoTo63 + q * TwoTo64) % TwoTo64 == (y + TwoTo63) % TwoTo64;
  }

  /** `result = result<<1 | bit&1` for each bit, in a 64-bit int. */
  method BitSequenceToInt(bits: seq<int>) returns (result: int)
    ensures result == Wrap64(BitsValue(bits))
  {
    result := 0;
    var i := 0;
    while i < |bits|
      invariant 0 <= i <= |bits|
      invariant result == Wrap64(BitsValue(bits[..i]))
    {
      var bit := bits[i];
      // the shift wraps in 64 bits; the low bit it frees takes bit & 1
      ShiftInStep(bits, i, result);
      result := Wrap64(2 * result + bit % 2);
      i := i + 1;
    }
    assert bits[..i] == bits;
  }

  /** Shifting the wrapped value of bits[..i] and or-ing in bit i wraps the value of bits[..i + 1]. */
  lemma ShiftInStep(bits: seq<int>, i: nat, result: int)
    requires i < |bits| && result == Wrap64(BitsValue(bits[..i]))
    ensures Wrap64(2 * result + bits[i] % 2) == Wrap64(BitsValue(bits[..i + 1]))
  {
    var v := BitsValue(bits[..i]);
    var b := bits[i] % 2;
    assert bits[..i + 1][..i] == bits[..i];
    assert BitsValue(bits[..i + 1]) == 2 * v + b;
    DoubleCongruent(result - v);
    assert (2 * result + b) - (2 * v + b) == 2 * (result - v);
    WrapCongruent(2 * result + b, 2 * v + b);
  }

  lemma DoubleCongruent(d: int)
    requires d % TwoTo64 == 0
    ensures (2 * d) % TwoTo64 == 0
  {
    var q := d / TwoTo64;
    assert d == q * TwoTo64;
    assert 2 * d == (2 * q) * TwoTo64;
  }

  /** Only the low bit of each element matters. */
  lemma {:induction false} LowBitOnly(bits: seq<int>, other: seq<int>)
    requires |bits| == |other|
    requires forall j :: 0 <= j < |bits| ==> bits[j] % 2 == other[j] % 2
    ensures BitsValue(bits) == BitsValue(other)
  {
    if bits != [] {
      LowBitOnly(bits[..|bits| - 1], other[..|other| - 1]);
    }
  }

  /** A value of n bits is below 2^n; with at most 63 bits nothing wraps. */
  lemma {:induction false} BitsValueBound(bits: seq<int>, p: nat)
    requires p == Pow2(|bits|)
    ensures BitsValue(bits) < p
  {
    if bits != [] {
      BitsValueBound(bits[..|bits| - 1], Pow2(|bits| - 1));
    }
  }

  function Pow2(n: nat): (p: nat)
    ensures p >= 1
  {
    if n == 0 then 1 else 2 * Pow2(n - 1)
  }

  lemma {:induction false} Pow2Monotone(a: nat, b: nat)
    requires a <= b
    ensures Pow2(a) <= Pow2(b)
    decreases b
  {
    if a < b {
      Pow2Monotone(a, b - 1);
    }
  }

  /** Up to 63 bits the result is the plain binary value: nothing wraps. */
  lemma NoWrapUpTo63Bits(bits: seq<int>)
    requires |bits| <= 63
    ensures Wrap64(BitsValue(bits)) == BitsValue(bits)
  {
    BitsValueBound(bits, Pow2(|bits|));
    Pow2Monotone(|bits|, 63);
    Pow2Value63();
  }

  /** The values the unit tests expect. */
  lemma KnownBitValues()
    ensures BitsValue([1, 0, 1]) == 5 && BitsValue([1, 1, 1, 1]) == 15
    ensures BitsValue([1, 0, 0, 0]) == 8 && BitsValue([0, 0, 0, 1]) == 1
  {
    assert [1, 0, 1][..2] == [1, 0] && [1, 0][..1] == [1] && [1][..0] == [];
    assert [1, 1, 1, 1][..3] == [1, 1, 1] && [1, 1, 1][..2] == [1, 1] && [1, 1][..1] == [1];
    assert [1, 0, 0, 0][..3] == [1, 0, 0] && [1, 0, 0][..2] == [1, 0];
    assert [0, 0, 0, 1][..3] == [0, 0, 0] && [0, 0, 0][..2] == [0, 0] && [0, 0][..1] == [0];
    assert [0][..0] == [];
  }

  // 2^63, reached in small steps so that no single proof multiplies much.
  lemma Pow2Value8()
    ensures Pow2(8) == 256
  {}

  lemma Pow2Value16()
    ensures Pow2(16) == 0x1_0000
  {
    Pow2Value8();
    Pow2Add(8, 8);
  }

  lemma Pow2Value32()
    ensures Pow2(32) == 0x1_0000_0000 && Pow2(31) == 0x8000_0000
  {
    Pow2Value16();
    Pow2Add(16, 16);
  }

  lemma Pow2Value63()
    ensures Pow2(63) == TwoTo63
  {
    Pow2Value32();
    Pow2Add(32, 31);
  }

  lemma {:induction false} Pow2Add(a: nat, b: nat)
    ensures Pow2(a + b) == Pow2(a) * Pow2(b)
    decreases b
  {
    if b > 0 {
      Pow2Add(a, b - 1);
    }
  }

  /** The binary index of a rank: numBits - rank + 1 - unusedBits, that is 14 - rank. */
  function GetBinaryIndexFromCardRank(r: Rank): (i: int)
    ensures i == 14 - r
    ensures 0 <= i <= 12
    ensures r == Ace ==> i == 0
    ensures r == Two ==> i == 12
  {
    NumBits - r + 1 - UnusedBits
  }

  /** Higher ranks get lower indices. */
  lemma BinaryIndexReversesOrder(a: Rank, b: Rank)
    ensures a < b <==> GetBinaryIndexFromCardRank(b) < GetBinaryIndexFromCardRank(a)
  {
  }
}

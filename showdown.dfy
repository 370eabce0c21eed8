// The two selection loops the library repeats wherever hands meet: keeping the
// best hand seen so far (findBestHand in equity.go, GetBestHand in game.go) and
// keeping the indices of everyone tied for best (findWinnerIndices in equity.go,
// EvaluateAndCompareBatch in parallel.go, the winners loops of game.go and
// parallel.go). A nil *Hand is None. The loops are stated for any comparison
// function and proved for any total preorder; the library runs them with
// Hand.Compare, which is one on the hands NewHand makes.
module Showdown {
  import opened Errors
  import opened Combinatorics
  import opened Hands
  import opened HandFacts

  /** A three-way comparison of hands: positive, zero or negative. */
  type Cmp = (Hand, Hand) -> int

  /** NewHand's (hand, error) pair as the pointer a caller keeps: nil on error. */
  function Made(r: Result<Hand>): (h: Option<Hand>)
    ensures h.Some? <==> r.Ok?
    ensures h.Some? ==> h.value == r.value
  {
    if r.Ok? then Some(r.value) else None
  }

  /** One step of the best-hand loop: a hand replaces the current best only if it compares above it. */
  function Keep(best: Option<Hand>, h: Option<Hand>, cmp: Cmp): (r: Option<Hand>)
    ensures r == best || r == h
    ensures r.None? <==> best.None? && h.None?
  {
    if h.None? then best
    else if best.None? || cmp(h.value, best.value) > 0 then h
    else best
  }

  /** The best-hand loop over the whole sequence. */
  function BestBy(hs: seq<Option<Hand>>, cmp: Cmp): (r: Option<Hand>)
    decreases |hs|
  {
    if hs == [] then None else Keep(BestBy(hs[..|hs| - 1], cmp), hs[|hs| - 1], cmp)
  }

  /** The winners loop's state: the indices tied for best and the hand they tie with. */
  datatype Standing = Standing(winners: seq<nat>, best: Option<Hand>)

  /**
   * One step of the winners loop for the hand at index i: the first hand starts
   * the list, a better hand restarts it, an equal hand joins it.
   */
  function Admit(st: Standing, i: nat, h: Option<Hand>, cmp: Cmp): (r: Standing)
    ensures h.None? ==> r == st
    ensures h.Some? ==> r.winners == [i] || r.winners == st.winners + [i] || r == st
  {
    if h.None? then st
    else if st.best.None? then Standing([i], h)
    else
      var c := cmp(h.value, st.best.value);
      if c > 0 then Standing([i], h)
      else if c == 0 then Standing(st.winners + [i], st.best)
      else st
  }

  /** The winners loop over the whole sequence. */
  function WinnersBy(hs: seq<Option<Hand>>, cmp: Cmp): (r: Standing)
    decreases |hs|
  {
    if hs == [] then Standing([], None)
    else Admit(WinnersBy(hs[..|hs| - 1], cmp), |hs| - 1, hs[|hs| - 1], cmp)
  }

  /** Whatever the comparison, the winners are increasing indices of hands present. */
  lemma {:induction false} WinnersShape(hs: seq<Option<Hand>>, cmp: Cmp)
    ensures Increasing(WinnersBy(hs, cmp).winners)
    ensures forall k :: 0 <= k < |WinnersBy(hs, cmp).winners| ==> Present(hs, WinnersBy(hs, cmp).winners[k])
    ensures WinnersBy(hs, cmp).best.Some? <==> WinnersBy(hs, cmp).winners != []
    decreases |hs|
  {
    if hs != [] {
      var p := hs[..|hs| - 1];
      WinnersShape(p, cmp);
      AdmitShape(hs, WinnersBy(p, cmp), cmp);
    }
  }

  /** One step of the winners loop keeps the winners increasing indices of hands present. */
  lemma AdmitShape(hs: seq<Option<Hand>>, st: Standing, cmp: Cmp)
    requires hs != []
    requires Increasing(st.winners) && (st.best.Some? <==> st.winners != [])
    requires forall k :: 0 <= k < |st.winners| ==> Present(hs[..|hs| - 1], st.winners[k])
    ensures var r := Admit(st, |hs| - 1, hs[|hs| - 1], cmp);
            Increasing(r.winners) && (r.best.Some? <==> r.winners != [])
            && forall k :: 0 <= k < |r.winners| ==> Present(hs, r.winners[k])
  {
    var i := |hs| - 1;
    var p := hs[..i];
    var r := Admit(st, i, hs[i], cmp);
    forall k | 0 <= k < |st.winners| ensures st.winners[k] < i && Present(hs, st.winners[k]) {
      assert Present(p, st.winners[k]);
      assert hs[st.winners[k]] == p[st.winners[k]];
    }
    if r.winners == st.winners + [i] && r != st {
      var w := r.winners;
      forall a, b | 0 <= a < b < |w| ensures w[a] < w[b] {
        if b == |st.winners| {
          assert w[b] == i && w[a] == st.winners[a];
        } else {
          assert w[a] == st.winners[a] && w[b] == st.winners[b];
        }
      }
      forall k | 0 <= k < |w| ensures Present(hs, w[k]) {
        if k < |st.winners| {
          assert w[k] == st.winners[k];
        }
      }
    }
  }

  /** Whatever the comparison, the hand the winners loop reports is the one at the head of its list. */
  lemma {:induction false} WinnersHead(hs: seq<Option<Hand>>, cmp: Cmp)
    ensures var w := WinnersBy(hs, cmp);
            w.winners != [] ==> w.winners[0] < |hs| && w.best == hs[w.winners[0]]
    decreases |hs|
  {
    if hs != [] {
      var p := hs[..|hs| - 1];
      WinnersHead(p, cmp);
      WinnersShape(p, cmp);
      var st := WinnersBy(p, cmp);
      if st.winners != [] {
        assert hs[st.winners[0]] == p[st.winners[0]];
      }
    }
  }

  // ---------------------------------------------------------------------------
  // The loops under any total preorder.

  /** A hand is present at index i. */
  predicate Present(hs: seq<Option<Hand>>, i: int) {
    0 <= i < |hs| && hs[i].Some?
  }

  /** cmp is transitive through the hands at i, j and k, in its weak and strict forms. */
  predicate Transitive(hs: seq<Option<Hand>>, cmp: Cmp, i: int, j: int, k: int) {
    Present(hs, i) && Present(hs, j) && Present(hs, k)
    && cmp(hs[i].value, hs[j].value) >= 0 && cmp(hs[j].value, hs[k].value) >= 0
    ==> cmp(hs[i].value, hs[k].value) >= 0
        && (cmp(hs[i].value, hs[j].value) > 0 || cmp(hs[j].value, hs[k].value) > 0 ==> cmp(hs[i].value, hs[k].value) > 0)
  }

  /** On the hands present, cmp is antisymmetric and transitive: a total preorder. */
  ghost predicate PreorderOn(hs: seq<Option<Hand>>, cmp: Cmp) {
    (forall i, j :: Present(hs, i) && Present(hs, j) ==>
       cmp(hs[i].value, hs[j].value) == -cmp(hs[j].value, hs[i].value))
    && (forall i, j, k :: Transitive(hs, cmp, i, j, k))
  }

  /** No hand among the first m compares above h. */
  predicate TopBy(hs: seq<Option<Hand>>, m: nat, h: Hand, cmp: Cmp)
    requires m <= |hs|
  {
    forall j :: 0 <= j < m && hs[j].Some? ==> cmp(hs[j].value, h) <= 0
  }

  /** What the winners loop keeps true after the first m hands. */
  ghost predicate Inv(hs: seq<Option<Hand>>, m: nat, st: Standing, cmp: Cmp)
    requires m <= |hs|
  {
    (st.best.None? <==> forall i :: 0 <= i < m ==> hs[i].None?)
    && (st.best.None? ==> st.winners == [])
    && (st.best.Some? ==> st.winners != [] && st.winners[0] < m && hs[st.winners[0]] == st.best
                          && TopBy(hs, m, st.best.value, cmp))
    && Increasing(st.winners)
    && (forall k :: 0 <= k < |st.winners| ==> st.winners[k] < m)
    && (forall i :: 0 <= i < m ==>
          (i in st.winners <==> hs[i].Some? && st.best.Some? && cmp(hs[i].value, st.best.value) == 0))
  }

  /** Admitting the hand at index m keeps the invariant. */
  lemma AdmitPreserves(hs: seq<Option<Hand>>, m: nat, st: Standing, cmp: Cmp)
    requires m < |hs| && PreorderOn(hs, cmp) && Inv(hs, m, st, cmp)
    ensures Inv(hs, m + 1, Admit(st, m, hs[m], cmp), cmp)
  {
    var x := hs[m];
    if x.None? {
      assert m !in st.winners;
    } else if st.best.None? {
      AdmitFirst(hs, m, st, cmp);
    } else {
      var c := cmp(x.value, st.best.value);
      if c > 0 {
        AdmitBetter(hs, m, st, cmp);
      } else if c == 0 {
        AdmitEqual(hs, m, st, cmp);
      } else {
        assert Admit(st, m, x, cmp) == st;
        assert m !in st.winners;
      }
    }
  }

  /** The first hand present starts the list. */
  lemma AdmitFirst(hs: seq<Option<Hand>>, m: nat, st: Standing, cmp: Cmp)
    requires m < |hs| && PreorderOn(hs, cmp) && Inv(hs, m, st, cmp)
    requires hs[m].Some? && st.best.None?
    ensures Inv(hs, m + 1, Admit(st, m, hs[m], cmp), cmp)
  {
    var x := hs[m];
    assert Present(hs, m);
    assert cmp(x.value, x.value) == 0;
    forall i | 0 <= i < m + 1 ensures i in [m] <==> hs[i].Some? && cmp(hs[i].value, x.value) == 0 {
      if i < m { assert hs[i].None?; }
    }
  }

  /** A hand above the best restarts the list with itself. */
  lemma AdmitBetter(hs: seq<Option<Hand>>, m: nat, st: Standing, cmp: Cmp)
    requires m < |hs| && PreorderOn(hs, cmp) && Inv(hs, m, st, cmp)
    requires hs[m].Some? && st.best.Some? && cmp(hs[m].value, st.best.value) > 0
    ensures Inv(hs, m + 1, Admit(st, m, hs[m], cmp), cmp)
  {
    var x := hs[m];
    var h, b, w0 := x.value, st.best.value, st.winners[0];
    assert Present(hs, m) && Present(hs, w0);
    assert Admit(st, m, x, cmp) == Standing([m], x);
    assert cmp(h, h) == 0;
    forall j | 0 <= j < m && hs[j].Some? ensures cmp(hs[j].value, h) < 0 {
      assert Present(hs, j);
      assert cmp(hs[j].value, b) <= 0;
      assert Transitive(hs, cmp, m, w0, j);
    }
  }

  /** A hand equal to the best joins the list. */
  lemma AdmitEqual(hs: seq<Option<Hand>>, m: nat, st: Standing, cmp: Cmp)
    requires m < |hs| && PreorderOn(hs, cmp) && Inv(hs, m, st, cmp)
    requires hs[m].Some? && st.best.Some? && cmp(hs[m].value, st.best.value) == 0
    ensures Inv(hs, m + 1, Admit(st, m, hs[m], cmp), cmp)
  {
    var b, w0 := st.best.value, st.winners[0];
    var w' := st.winners + [m];
    assert Admit(st, m, hs[m], cmp) == Standing(w', st.best);
    forall j | 0 <= j < m + 1 && hs[j].Some? ensures cmp(hs[j].value, b) <= 0 {
    }
    forall i | 0 <= i < m + 1
      ensures i in w' <==> hs[i].Some? && cmp(hs[i].value, b) == 0
    {
      if i == m {
        assert w'[|st.winners|] == m;
      } else {
        assert i in w' <==> i in st.winners;
      }
    }
    assert w'[0] == w0;
  }

  /** The winners loop keeps its invariant over every prefix. */
  lemma {:induction false} WinnersByInv(hs: seq<Option<Hand>>, m: nat, cmp: Cmp)
    requires m <= |hs| && PreorderOn(hs, cmp)
    ensures Inv(hs, m, WinnersBy(hs[..m], cmp), cmp)
  {
    if m > 0 {
      WinnersByInv(hs, m - 1, cmp);
      assert hs[..m][..m - 1] == hs[..m - 1];
      AdmitPreserves(hs, m - 1, WinnersBy(hs[..m - 1], cmp), cmp);
    }
  }

  /** The best-hand loop ends on the hand the winners loop ties everyone against. */
  lemma {:induction false} BestIsWinnersBest(hs: seq<Option<Hand>>, cmp: Cmp)
    ensures BestBy(hs, cmp) == WinnersBy(hs, cmp).best
    decreases |hs|
  {
    if hs != [] {
      BestIsWinnersBest(hs[..|hs| - 1], cmp);
    }
  }

  /**
   * Under a total preorder the winners loop lists, in increasing order, exactly
   * the indices whose hand no hand compares above; the list is empty only when
   * no hand is present, and its head holds the hand it reports as best. The
   * best-hand loop reports that same hand, which beats every hand before it.
   */
  lemma WinnersByMeaning(hs: seq<Option<Hand>>, cmp: Cmp)
    requires PreorderOn(hs, cmp)
    ensures var w := WinnersBy(hs, cmp);
      && (w.winners == [] <==> forall i :: 0 <= i < |hs| ==> hs[i].None?)
      && Increasing(w.winners)
      && (forall k :: 0 <= k < |w.winners| ==> w.winners[k] < |hs|)
      && (forall i :: 0 <= i < |hs| ==> (i in w.winners <==> hs[i].Some? && TopBy(hs, |hs|, hs[i].value, cmp)))
      && (w.winners != [] ==> w.best.Some? && hs[w.winners[0]] == w.best && w.best == BestBy(hs, cmp))
      && (w.winners != [] ==> forall j :: 0 <= j < w.winners[0] && hs[j].Some? ==> cmp(w.best.value, hs[j].value) > 0)
  {
    var w := WinnersBy(hs, cmp);
    WinnersByInv(hs, |hs|, cmp);
    assert hs[..|hs|] == hs;
    BestIsWinnersBest(hs, cmp);
    if w.best.Some? {
      TiedAreTop(hs, w, cmp);
      FirstWinnerBeatsEarlier(hs, w, cmp);
    }
  }

  /** Once every hand is in, tying with the best is the same as having no hand above. */
  lemma TiedAreTop(hs: seq<Option<Hand>>, w: Standing, cmp: Cmp)
    requires PreorderOn(hs, cmp) && Inv(hs, |hs|, w, cmp) && w.best.Some?
    ensures forall i :: 0 <= i < |hs| && hs[i].Some? ==>
              (cmp(hs[i].value, w.best.value) == 0 <==> TopBy(hs, |hs|, hs[i].value, cmp))
  {
    var b, w0 := w.best.value, w.winners[0];
    assert Present(hs, w0);
    forall i | 0 <= i < |hs| && hs[i].Some?
      ensures cmp(hs[i].value, b) == 0 <==> TopBy(hs, |hs|, hs[i].value, cmp)
    {
      assert Present(hs, i);
      if cmp(hs[i].value, b) == 0 {
        forall j | 0 <= j < |hs| && hs[j].Some? ensures cmp(hs[j].value, hs[i].value) <= 0 {
          assert Present(hs, j);
          assert Transitive(hs, cmp, i, w0, j);
        }
      } else {
        assert cmp(b, hs[i].value) > 0;
      }
    }
  }

  /** The first listed winner compares above every hand before it. */
  lemma FirstWinnerBeatsEarlier(hs: seq<Option<Hand>>, w: Standing, cmp: Cmp)
    requires PreorderOn(hs, cmp) && Inv(hs, |hs|, w, cmp) && w.best.Some?
    ensures forall j :: 0 <= j < w.winners[0] && hs[j].Some? ==> cmp(w.best.value, hs[j].value) > 0
  {
    var b, w0 := w.best.value, w.winners[0];
    assert Present(hs, w0);
    forall j | 0 <= j < w0 && hs[j].Some? ensures cmp(b, hs[j].value) > 0 {
      assert j !in w.winners by {
        forall a | 0 <= a < |w.winners| ensures w.winners[a] != j {
          if a > 0 { assert w.winners[0] < w.winners[a]; }
        }
      }
      assert Present(hs, j);
    }
  }

  // ---------------------------------------------------------------------------
  // The loops as the library runs them, with Hand.Compare.

  /** Every hand present is a hand NewHand could have made (its cache filled in). */
  ghost predicate AllEvaluated(hs: seq<Option<Hand>>) {
    forall i :: Present(hs, i) ==> Evaluated(hs[i].value)
  }

  /** Hand.Compare is a total preorder on evaluated hands. */
  lemma ComparePreorder(hs: seq<Option<Hand>>)
    requires AllEvaluated(hs)
    ensures PreorderOn(hs, Compare)
  {
    forall i, j | Present(hs, i) && Present(hs, j)
      ensures Compare(hs[i].value, hs[j].value) == -Compare(hs[j].value, hs[i].value)
    {
      CompareAntisymmetric(hs[i].value, hs[j].value);
    }
    forall i, j, k ensures Transitive(hs, Compare, i, j, k) {
      if Present(hs, i) && Present(hs, j) && Present(hs, k) {
        CompareTransitive(hs[i].value, hs[j].value, hs[k].value);
      }
    }
  }

  /** No hand present beats h. */
  predicate IsTop(hs: seq<Option<Hand>>, h: Hand) {
    forall j :: 0 <= j < |hs| && hs[j].Some? ==> !Beats(hs[j].value, h)
  }

  /**
   * findWinnerIndices over hands NewHand made: an index is listed exactly when
   * a hand is there and no hand beats it; the list is increasing and empty
   * only when every entry is nil.
   */
  lemma WinnersMeaning(hs: seq<Option<Hand>>)
    requires AllEvaluated(hs)
    ensures var w := WinnersBy(hs, Compare);
      && (w.winners == [] <==> forall i :: 0 <= i < |hs| ==> hs[i].None?)
      && Increasing(w.winners)
      && (forall k :: 0 <= k < |w.winners| ==> w.winners[k] < |hs|)
      && (forall i :: 0 <= i < |hs| ==> (i in w.winners <==> hs[i].Some? && IsTop(hs, hs[i].value)))
      && (w.winners != [] ==> w.best.Some? && hs[w.winners[0]] == w.best)
      && (forall k :: 0 <= k < |w.winners| ==> w.best.Some? && Ties(hs[w.winners[k]].value, w.best.value))
  {
    ComparePreorder(hs);
    WinnersByMeaning(hs, Compare);
    forall i | 0 <= i < |hs| && hs[i].Some?
      ensures TopBy(hs, |hs|, hs[i].value, Compare) <==> IsTop(hs, hs[i].value)
    {
    }
    var w := WinnersBy(hs, Compare);
    forall k | 0 <= k < |w.winners| ensures w.best.Some? && Ties(hs[w.winners[k]].value, w.best.value) {
      var i, f := w.winners[k], w.winners[0];
      assert i in w.winners && f in w.winners;
      CompareTotal(hs[i].value, hs[f].value);
    }
  }

  /**
   * findBestHand's loop over hands NewHand made: nil exactly when there is no
   * hand; otherwise a hand present that no hand beats and that beats every
   * hand before it, so among equal hands the first is kept.
   */
  lemma BestMeaning(hs: seq<Option<Hand>>)
    requires AllEvaluated(hs)
    ensures BestBy(hs, Compare).None? <==> forall i :: 0 <= i < |hs| ==> hs[i].None?
    ensures BestBy(hs, Compare).Some? ==> exists k :: FirstTop(hs, k) && hs[k] == BestBy(hs, Compare)
  {
    ComparePreorder(hs);
    WinnersByMeaning(hs, Compare);
    var w := WinnersBy(hs, Compare);
    BestIsWinnersBest(hs, Compare);
    if w.winners != [] {
      var k := w.winners[0];
      assert k in w.winners;
      forall j | Present(hs, j) ensures !Beats(hs[j].value, hs[k].value) {
        assert TopBy(hs, |hs|, hs[k].value, Compare);
      }
      assert FirstTop(hs, k);
    }
  }

  /** The hand at k is present, no hand beats it, and it beats every hand before it. */
  predicate FirstTop(hs: seq<Option<Hand>>, k: int) {
    0 <= k < |hs| && hs[k].Some? && IsTop(hs, hs[k].value)
    && forall j :: 0 <= j < k && hs[j].Some? ==> Beats(hs[k].value, hs[j].value)
  }
}

// The win and tie counters of the equity calculator and the results built from them (equity.go).
module Counters {
  import opened Combinatorics

  /** The integer part of a player's result. */
  datatype EquityResult = EquityResult(wins: int, ties: int, losses: int, total: int)

  /** A sole winner gains a win. */
  function WinCredit(w: seq<nat>, i: nat): (n: nat)
    ensures n <= 1
    ensures n == 1 <==> w == [i]
  {
    if |w| == 1 && w[0] == i then 1 else 0
  }

  /** On a tie every listed winner gains a tie, once per listing. */
  function TieCredit(w: seq<nat>, i: nat): nat {
    if |w| == 1 then 0 else multiset(w)[i]
  }

  /** A trial whose winners are listed once each credits a player at most once. */
  lemma CreditOnce(w: seq<nat>, i: nat)
    requires Increasing(w)
    ensures WinCredit(w, i) + TieCredit(w, i) <= 1
    ensures TieCredit(w, i) == (if |w| != 1 && i in w then 1 else 0)
  {
    if |w| != 1 {
      IncreasingCountsOnce(w, i);
    }
  }

  lemma {:induction false} IncreasingCountsOnce(w: seq<nat>, i: nat)
    requires Increasing(w)
    ensures multiset(w)[i] == (if i in w then 1 else 0)
    decreases |w|
  {
    if w != [] {
      var p := w[..|w| - 1];
      assert w == p + [w[|w| - 1]];
      assert Increasing(p);
      IncreasingCountsOnce(p, i);
      if w[|w| - 1] == i {
        assert i !in p by {
          forall k | 0 <= k < |p| ensures p[k] != i {
            assert w[k] < w[|w| - 1];
          }
        }
      }
    }
  }

  function WinTotal(outcomes: seq<seq<nat>>, i: nat): nat
    decreases |outcomes|
  {
    if outcomes == [] then 0
    else WinTotal(outcomes[..|outcomes| - 1], i) + WinCredit(outcomes[|outcomes| - 1], i)
  }

  function TieTotal(outcomes: seq<seq<nat>>, i: nat): nat
    decreases |outcomes|
  {
    if outcomes == [] then 0
    else TieTotal(outcomes[..|outcomes| - 1], i) + TieCredit(outcomes[|outcomes| - 1], i)
  }

  /** TotalsAppend for every player index below n. */
  lemma TotalsAppendAll(a: seq<seq<nat>>, b: seq<seq<nat>>, n: nat)
    ensures forall i :: 0 <= i < n ==>
              WinTotal(a + b, i) == WinTotal(a, i) + WinTotal(b, i) && TieTotal(a + b, i) == TieTotal(a, i) + TieTotal(b, i)
  {
    forall i | 0 <= i < n
      ensures WinTotal(a + b, i) == WinTotal(a, i) + WinTotal(b, i) && TieTotal(a + b, i) == TieTotal(a, i) + TieTotal(b, i)
    {
      TotalsAppend(a, b, i);
    }
  }

  lemma {:induction false} TotalsAppend(a: seq<seq<nat>>, b: seq<seq<nat>>, i: nat)
    ensures WinTotal(a + b, i) == WinTotal(a, i) + WinTotal(b, i)
    ensures TieTotal(a + b, i) == TieTotal(a, i) + TieTotal(b, i)
    decreases |b|
  {
    if b == [] {
      assert a + b == a;
    } else {
      var p, last := b[..|b| - 1], b[|b| - 1];
      assert (a + b)[..|a + b| - 1] == a + p;
      assert (a + b)[|a + b| - 1] == last;
      TotalsAppend(a, p, i);
    }
  }

  /** Trials whose winners are listed once each credit a player at most once per trial. */
  lemma {:induction false} TotalsBound(outcomes: seq<seq<nat>>, i: nat)
    requires forall t :: 0 <= t < |outcomes| ==> Increasing(outcomes[t])
    ensures WinTotal(outcomes, i) + TieTotal(outcomes, i) <= |outcomes|
    decreases |outcomes|
  {
    if outcomes != [] {
      TotalsBound(outcomes[..|outcomes| - 1], i);
      CreditOnce(outcomes[|outcomes| - 1], i);
    }
  }

  /** The counter update after one trial: a win for a sole winner, a tie for each of several. */
  method Credit(w: seq<nat>, wins: array<int>, ties: array<int>)
    requires wins != ties && wins.Length == ties.Length
    requires forall k :: 0 <= k < |w| ==> w[k] < wins.Length
    modifies wins, ties
    ensures forall i :: 0 <= i < wins.Length ==> wins[i] == old(wins[i]) + WinCredit(w, i)
    ensures forall i :: 0 <= i < ties.Length ==> ties[i] == old(ties[i]) + TieCredit(w, i)
  {
    if |w| == 1 {
      wins[w[0]] := wins[w[0]] + 1;
      return;
    }
    for k := 0 to |w|
      invariant forall i :: 0 <= i < wins.Length ==> wins[i] == old(wins[i])
      invariant forall i :: 0 <= i < ties.Length ==> ties[i] == old(ties[i]) + multiset(w[..k])[i]
    {
      assert w[..k + 1] == w[..k] + [w[k]];
      ties[w[k]] := ties[w[k]] + 1;
    }
    assert w[..|w|] == w;
  }

  /** A player's result from the counters of a run of `total` trials. */
  function ResultOf(w: int, t: int, total: int): (r: EquityResult)
    ensures r.wins + r.ties + r.losses == r.total == total
    ensures r.wins == w && r.ties == t
  {
    EquityResult(w, t, total - w - t, total)
  }

  /** One result per player from the totals of the trials o, of which Total counts `total`. */
  function ResultsOf(o: seq<seq<nat>>, total: int, players: nat): (rs: seq<EquityResult>)
    ensures |rs| == players
    ensures forall i :: 0 <= i < players ==> rs[i] == ResultOf(WinTotal(o, i), TieTotal(o, i), total)
  {
    seq(players, i requires 0 <= i < players => ResultOf(WinTotal(o, i), TieTotal(o, i), total))
  }

  /**
   * The per-player results the final loop of both modes builds from the
   * counters, which hold the totals of the trials `o`.
   */
  method Results(wins: array<int>, ties: array<int>, total: int, ghost o: seq<seq<nat>>)
    returns (results: seq<EquityResult>)
    requires wins.Length == ties.Length
    requires forall i :: 0 <= i < wins.Length ==> wins[i] == WinTotal(o, i) && ties[i] == TieTotal(o, i)
    ensures results == ResultsOf(o, total, wins.Length)
  {
    results := [];
    for i := 0 to wins.Length
      invariant |results| == i
      invariant forall k :: 0 <= k < i ==> results[k] == ResultOf(wins[k], ties[k], total)
    {
      var w, t := wins[i], ties[i];
      results := results + [EquityResult(w, t, total - w - t, total)];
    }
  }

  /** The counters after one more trial whose winners are w. */
  lemma CountersStep(wins: seq<int>, ties: seq<int>, base: seq<int>, baseTies: seq<int>,
                     o: seq<seq<nat>>, w: seq<nat>, prior: seq<int>, priorTies: seq<int>)
    requires |wins| == |ties| == |base| == |baseTies| == |prior| == |priorTies|
    requires forall i :: 0 <= i < |prior| ==> prior[i] == base[i] + WinTotal(o, i) && priorTies[i] == baseTies[i] + TieTotal(o, i)
    requires forall i :: 0 <= i < |wins| ==> wins[i] == prior[i] + WinCredit(w, i) && ties[i] == priorTies[i] + TieCredit(w, i)
    ensures forall i :: 0 <= i < |wins| ==> wins[i] == base[i] + WinTotal(o + [w], i) && ties[i] == baseTies[i] + TieTotal(o + [w], i)
  {
    forall i | 0 <= i < |wins|
      ensures wins[i] == base[i] + WinTotal(o + [w], i) && ties[i] == baseTies[i] + TieTotal(o + [w], i)
    {
      TotalsAppend(o, [w], i);
    }
  }
}

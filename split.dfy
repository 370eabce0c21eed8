// Go's truncating integer division and the split of a simulation run over
// the workers of Calculate (equity.go).
module Split {
  /** A non-negative quotient of a non-negative dividend. */
  lemma DivNonneg(a: int, b: int)
    requires a >= 0 && b > 0
    ensures a / b >= 0
  {
  }

  /** Go's `/` on int: the quotient truncated toward zero. */
  function GoDiv(a: int, b: int): (q: int)
    requires b > 0
    ensures a >= 0 ==> q == a / b && q >= 0
    ensures a < 0 ==> q <= 0
  {
    if a >= 0 then DivNonneg(a, b); a / b else DivNonneg(-a, b); -((-a) / b)
  }

  /** Go's `%` on int: the remainder takes the sign of the dividend. */
  function GoMod(a: int, b: int): (r: int)
    requires b > 0
    ensures a == b * GoDiv(a, b) + r
    ensures a >= 0 ==> 0 <= r < b
    ensures a < 0 ==> -b < r <= 0
  {
    a - b * GoDiv(a, b)
  }

  /** The trial count Calculate hands worker w: the even share, plus one for the first `remainder` workers. */
  function WorkerSims(simulations: int, workers: int, w: int): (n: int)
    requires workers > 0
  {
    GoDiv(simulations, workers) + (if w < GoMod(simulations, workers) then 1 else 0)
  }

  /** The trials the first w workers run (a negative share runs none). */
  function TrialsBefore(simulations: int, workers: int, w: nat): (n: nat)
    requires workers > 0
  {
    if w == 0 then 0
    else TrialsBefore(simulations, workers, w - 1) + (if WorkerSims(simulations, workers, w - 1) > 0 then WorkerSims(simulations, workers, w - 1) else 0)
  }

  /** For a non-negative request Go's quotient and remainder are Dafny's. */
  lemma GoDivModNonneg(a: int, b: int)
    requires a >= 0 && b > 0
    ensures GoDiv(a, b) == a / b && GoMod(a, b) == a % b
  {
  }

  /** For a negative request every worker's share is at most zero. */
  lemma NegativeShare(simulations: int, workers: int, w: nat)
    requires simulations < 0 && workers > 0
    ensures WorkerSims(simulations, workers, w) <= 0
  {
  }

  lemma MulStep(w: int, q: int)
    ensures w * q == (w - 1) * q + q
  {
  }

  lemma {:induction false} TrialsBeforeValue(simulations: int, workers: int, w: nat, q: int, rem: int)
    requires workers > 0 && w <= workers && simulations >= 0
    requires q == GoDiv(simulations, workers) && rem == GoMod(simulations, workers)
    ensures TrialsBefore(simulations, workers, w) == w * q + (if w < rem then w else rem)
  {
    if w > 0 {
      TrialsBeforeValue(simulations, workers, w - 1, q, rem);
      var share := WorkerSims(simulations, workers, w - 1);
      assert share == q + (if w - 1 < rem then 1 else 0);
      assert q >= 0 && share >= 0;
      assert TrialsBefore(simulations, workers, w) == TrialsBefore(simulations, workers, w - 1) + share;
      MulStep(w, q);
    }
  }

  lemma {:induction false} TrialsBeforeNegative(simulations: int, workers: int, w: nat)
    requires workers > 0 && simulations < 0
    ensures TrialsBefore(simulations, workers, w) == 0
  {
    if w > 0 {
      TrialsBeforeNegative(simulations, workers, w - 1);
      NegativeShare(simulations, workers, w - 1);
    }
  }

  /**
   * The split is exact: over all workers a non-negative request runs exactly
   * `simulations` trials, and a negative one runs none.
   */
  lemma TrialSplit(simulations: int, workers: int)
    requires workers > 0
    ensures simulations >= 0 ==> TrialsBefore(simulations, workers, workers) == simulations
    ensures simulations < 0 ==> TrialsBefore(simulations, workers, workers) == 0
  {
    if simulations >= 0 {
      GoDivModNonneg(simulations, workers);
      TrialsBeforeValue(simulations, workers, workers, GoDiv(simulations, workers), GoMod(simulations, workers));
    } else {
      TrialsBeforeNegative(simulations, workers, workers);
    }
  }

  lemma TrialsBeforeMonotone(simulations: int, workers: int, a: nat, b: nat)
    requires workers > 0 && a <= b
    ensures TrialsBefore(simulations, workers, a) <= TrialsBefore(simulations, workers, b)
    decreases b - a
  {
    if a < b {
      TrialsBeforeMonotone(simulations, workers, a, b - 1);
    }
  }
}

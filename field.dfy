/**
 * The value arithmetic of one pheromone cell: a deposit adds the deposition
 * amount capped at the saturation level, and an evaporation lowers a positive
 * concentration by one. The in-place updates of the whole array are methods
 * of Trail.Lattice; the facts about repeating them on one cell are here.
 */
module Field {

  /** The value of a cell after one deposit: the sum, capped at `sat`. */
  function Deposited(v: int, dep: int, sat: int): (r: int)
    ensures r <= sat
    ensures r == v + dep || r == sat
    ensures 0 <= v <= sat && 0 <= dep ==> v <= r <= sat
    ensures v + dep <= sat ==> r == v + dep
    ensures v + dep >= sat ==> r == sat
  {
    if v + dep < sat then v + dep else sat
  }

  /** The value of a cell after one evaporation: positive values drop by one, others stay. */
  function Evaporated(v: int): (r: int)
    ensures v > 0 ==> r == v - 1
    ensures v <= 0 ==> r == v
    ensures 0 <= v ==> 0 <= r
  {
    if v > 0 then v - 1 else v
  }

  /** The value of a cell after `n` deposits and nothing else. */
  function DepositTimes(v: int, n: nat, dep: int, sat: int): int
    decreases n
  {
    if n == 0 then v else DepositTimes(Deposited(v, dep, sat), n - 1, dep, sat)
  }

  /** The value of a cell after `k` evaporations and nothing else. */
  function EvaporateTimes(v: int, k: nat): int
    decreases k
  {
    if k == 0 then v else EvaporateTimes(Evaporated(v), k - 1)
  }

  /**
   * Starting at or below saturation, `n` deposits give the uncapped total
   * `v + n * dep` while it stays below `sat`, and exactly `sat` after that.
   */
  lemma {:induction false} DepositTimesClosedForm(v: int, n: nat, dep: int, sat: int)
    requires v <= sat && 0 <= dep
    ensures DepositTimes(v, n, dep, sat) == if v + n * dep < sat then v + n * dep else sat
    decreases n
  {
    if n > 0 {
      var v' := Deposited(v, dep, sat);
      DepositTimesClosedForm(v', n - 1, dep, sat);
      assert (n - 1) * dep + dep == n * dep;
      if v + dep >= sat {
        MulBounds(n, dep);
      }
    }
  }

  /** Repeated deposits on a cell in [0, sat] never exceed saturation and never lower the cell. */
  lemma DepositsNeverExceed(v: int, n: nat, dep: int, sat: int)
    requires 0 <= v <= sat && 0 <= dep
    ensures v <= DepositTimes(v, n, dep, sat) <= sat
  {
    DepositTimesClosedForm(v, n, dep, sat);
    MulBounds(n, dep);
  }

  /** With a deposition of at least one, `sat - v` deposits bring a cell exactly to saturation. */
  lemma DepositsReachSaturation(v: int, dep: int, sat: int)
    requires 0 <= v <= sat && 1 <= dep
    ensures DepositTimes(v, sat - v, dep, sat) == sat
  {
    var n := sat - v;
    DepositTimesClosedForm(v, n, dep, sat);
    MulBounds(n, dep);
  }

  /** Once saturated, a cell stays exactly at saturation under further deposits. */
  lemma {:induction false} SaturationIsStable(n: nat, dep: int, sat: int)
    requires 0 <= dep
    ensures DepositTimes(sat, n, dep, sat) == sat
  {
    DepositTimesClosedForm(sat, n, dep, sat);
    MulBounds(n, dep);
  }

  /**
   * Without deposits, `k` evaporations lower a non-negative cell by one each
   * until it reaches zero, where it stays.
   */
  lemma {:induction false} EvaporateTimesClosedForm(v: int, k: nat)
    requires 0 <= v
    ensures EvaporateTimes(v, k) == if v > k then v - k else 0
    decreases k
  {
    if k > 0 {
      EvaporateTimesClosedForm(Evaporated(v), k - 1);
    }
  }

  /** Bounds on `n * dep` used by the deposit lemmas. */
  lemma {:induction false} MulBounds(n: nat, dep: int)
    requires 0 <= dep
    ensures 0 <= n * dep
    ensures 1 <= n ==> dep <= n * dep
    ensures 1 <= dep ==> n <= n * dep
  {
    if n > 0 {
      MulBounds(n - 1, dep);
      assert n * dep == (n - 1) * dep + dep;
    }
  }
}

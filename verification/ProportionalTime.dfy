/**
 * CPU time in proportion to weight, the promise of CFS, for the exact and the BSA tick:
 * how far the truncation of the charges lets two always-runnable tasks drift apart.
 */
module ProportionalTime {
  import opened Arithmetic
  import opened Constants
  import opened NewtonReciprocal
  import opened Charge
  import opened ChargeError
  import opened RunQueue
  import opened Fairness

  /** What the charge of a tick times the weight should be, in units of 2^-22: 1024 ticks. */
  const FULL: nat := TICK_NS * TWO32

  /** What the charge of a mode times the weight can fall short of FULL. */
  function Shortfall(mode: Mode, w: nat): nat {
    if mode == Bsa then TICK_NS * (25 * (TWO32 / 1024) + 3 * w) + 4194304 * w else (4194304 + TICK_NS) * w
  }

  /** The charge of a tick times the weight, in both modes. */
  lemma ChargeTimesWeight(mode: Mode, w: nat)
    requires (mode == Exact || mode == Bsa) && 1 < w < TWO32
    ensures FULL - Shortfall(mode, w) <= 4194304 * (MaxCharge(mode, w) * w) <= FULL
  {
    ModSmall(w, TWO32);
    if w == NICE_0_LOAD {
    } else if mode == Exact {
      ExactTickTimesWeight(w);
      hide ExactCharge;
    } else {
      BsaTickTimesWeight(w);
      OneIterationDeficit(w);
      hide Deficit;
      hide BsaCharge;
    }
  }

  /**
   * Two always-runnable tasks that start level: relative to its weight, task i is ahead of
   * task j by at most the larger of their charges of one tick, and by what its own charges
   * are short of. In exact mode that is less than 1.3 parts in a thousand million for each
   * unit of weight; in BSA mode it is at most 2.45% more.
   */
  lemma TimeByWeight(mode: Mode, s: State, history: seq<seq<bool>>, i: nat, j: nat)
    requires (mode == Exact || mode == Bsa) && History(history, |s.tasks|) && i < |s.tasks| && j < |s.tasks|
    requires AlwaysRunnable(history, i) && AlwaysRunnable(history, j)
    requires s.tasks[i].vruntime == s.tasks[j].vruntime
    requires Proportional(mode, s.tasks[i]) && Proportional(mode, s.tasks[j])
    requires 1 < s.tasks[i].weight < TWO32 && 1 < s.tasks[j].weight < TWO32
    ensures var tasks := RunWith(mode, s, history).tasks;
            var ei, ej := tasks[i].execRuntime, tasks[j].execRuntime;
            var wi, wj := s.tasks[i].weight, s.tasks[j].weight;
            (FULL - Shortfall(mode, wi)) * (ei * wj)
            <= FULL * (ej * wi) + 4194304 * (TICK_NS * Max(MaxCharge(mode, wi), MaxCharge(mode, wj)) * (wi * wj))
  {
    hide RunWith;
    hide MaxCharge;
    hide Proportional;
    hide AlwaysRunnable;
    ProportionalShare(mode, s, history, i, j);
    var wi, wj := s.tasks[i].weight, s.tasks[j].weight;
    ChargeTimesWeight(mode, wi);
    ChargeTimesWeight(mode, wj);
    var ti, tj := RunWith(mode, s, history).tasks[i], RunWith(mode, s, history).tasks[j];
    WeighShares(ti.execRuntime, MaxCharge(mode, wi), wi, FULL - Shortfall(mode, wi), tj.execRuntime,
                MaxCharge(mode, wj), wj, TICK_NS * Max(MaxCharge(mode, wi), MaxCharge(mode, wj)));
  }

  /** Both charges weighed: e_i * c_i exceeds e_j * c_j by at most m. */
  lemma WeighShares(ei: nat, ci: nat, wi: nat, low: int, ej: nat, cj: nat, wj: nat, m: nat)
    requires Abs(ei * ci - ej * cj) <= m && low <= 4194304 * (ci * wi) && 4194304 * (cj * wj) <= FULL
    ensures low * (ei * wj) <= FULL * (ej * wi) + 4194304 * (m * (wi * wj))
  {
    var p, q, ww := ei * wj, ej * wi, wi * wj;
    Reorder(ei, ci, wi, wj);
    Reorder(ej, cj, wj, wi);
    assert wj * wi == ww;
    MulMono(ei * ci, ej * cj + m, ww);
    assert (ej * cj + m) * ww == (ej * cj) * ww + m * ww;
    ScaleFromBelow(low, ci * wi, p);
    ScaleFromAbove(cj * wj, FULL, q);
  }

  lemma Reorder(e: nat, c: nat, w: nat, v: nat)
    ensures (e * c) * (w * v) == (c * w) * (e * v)
  {}

  lemma ScaleFromBelow(low: int, x: nat, p: nat)
    requires low <= 4194304 * x
    ensures low * p <= 4194304 * (x * p)
  {
    MulMono(low, 4194304 * x, p);
  }

  lemma ScaleFromAbove(x: nat, full: nat, q: nat)
    requires 4194304 * x <= full
    ensures 4194304 * (x * q) <= full * q
  {
    MulMono(4194304 * x, full, q);
  }
}

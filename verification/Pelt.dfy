/**
 * Per-entity load tracking (pelt.c, pelt.h): the accumulator of one sched_avg,
 * as pure functions on its fields and as the class whose methods update them in
 * place. The fields are u64 and u32 in the source; every place where an
 * operation could leave its width carries the wrap explicitly.
 */
module Pelt {
  import opened Constants
  import opened Decay

  /** The fields of struct sched_avg that the accumulator touches. */
  datatype Avg = Avg(
    loadSum: nat, runnableSum: nat, utilSum: nat,
    lastUpdate: nat, periodContrib: nat,
    loadAvg: nat, runnableAvg: nat, utilAvg: nat)

  const ZERO_AVG: Avg := Avg(0, 0, 0, 0, 0, 0, 0, 0)

  /** __accumulate_pelt_segments, in u32 arithmetic. */
  function Segments(periods: nat, d1: nat, d3: nat): nat {
    var c1 := KernelDecay(d1, periods) % TWO32;
    var c2 := (LOAD_AVG_MAX - KernelDecay(LOAD_AVG_MAX, periods) - 1024) % TWO32;
    (c1 + c2 + d3) % TWO32
  }

  /** The contribution of one accumulate_sum call, for a non-zero load. */
  function Contribution(periodContrib: nat, delta: nat): nat
    requires periodContrib < 1024
  {
    var total := delta + periodContrib;
    if total / 1024 == 0 then delta % TWO32
    else Segments(total / 1024, 1024 - periodContrib, total % 1024)
  }

  /** A u64 sum plus k times a contribution. */
  function AddTimes(sum: nat, k: nat, contrib: nat): nat {
    (sum + k * contrib) % TWO64
  }

  /** One of the three sums after its decay over the periods crossed, if any. */
  function Decayed(sum: nat, periods: nat): nat {
    if periods == 0 then sum else KernelDecay(sum, periods)
  }

  /** accumulate_sum; the returned period count is truncated to u32. */
  function Accumulate(a: Avg, delta: nat, load: nat, runnable: nat, running: bool): (Avg, nat)
    requires a.periodContrib < 1024
  {
    var total := delta + a.periodContrib;
    var p := total / 1024;
    var contrib := if load != 0 then Contribution(a.periodContrib, delta) else delta % TWO32;
    (a.(periodContrib := total % 1024,
        loadSum := AddTimes(Decayed(a.loadSum, p), load, contrib),
        runnableSum := AddTimes(Decayed(a.runnableSum, p), runnable, contrib * 1024),
        utilSum := AddTimes(Decayed(a.utilSum, p), if running then 1 else 0, contrib * 1024 % TWO32)),
     p % TWO32)
  }

  /** ___update_load_sum: true when at least one period boundary was crossed. */
  function UpdateSums(a: Avg, now: nat, load: nat, runnable: nat, running: bool): (Avg, bool)
    requires a.periodContrib < 1024
  {
    var delta := (now - a.lastUpdate) % TWO64;
    if delta >= TWO64 / 2 then (a.(lastUpdate := now), false)
    else if delta / 1024 == 0 then (a, false)
    else
      var a1 := a.(lastUpdate := (a.lastUpdate + delta / 1024 * 1024) % TWO64);
      var (a2, p) := Accumulate(a1, delta / 1024, load,
                                if load == 0 then 0 else runnable, load != 0 && running);
      (a2, p != 0)
  }

  /** get_pelt_divider. */
  function Divider(a: Avg): (d: nat)
    ensures d > 0
  {
    PELT_MIN_DIVIDER + a.periodContrib
  }

  /** ___update_load_avg. */
  function UpdateAvgs(a: Avg, load: nat): Avg {
    a.(loadAvg := load * a.loadSum % TWO64 / Divider(a),
       runnableAvg := a.runnableSum / Divider(a),
       utilAvg := a.utilSum / Divider(a))
  }

  /** __update_load_avg_se and, for a cfs_rq, __update_load_avg_cfs_rq. */
  function Update(a: Avg, weight: nat, now: nat, load: nat, runnable: nat, running: bool): Avg
    requires a.periodContrib < 1024
  {
    var (b, crossed) := UpdateSums(a, now, load, runnable, running);
    if crossed then UpdateAvgs(b, weight) else b
  }

  /** The sched_avg of the source: the methods change its fields step by step. */
  class SchedAvg {
    var loadSum: nat
    var runnableSum: nat
    var utilSum: nat
    var lastUpdate: nat
    var periodContrib: nat
    var loadAvg: nat
    var runnableAvg: nat
    var utilAvg: nat

    ghost function State(): Avg
      reads this
    {
      Avg(loadSum, runnableSum, utilSum, lastUpdate, periodContrib,
          loadAvg, runnableAvg, utilAvg)
    }

    constructor ()
      ensures State() == ZERO_AVG
    {
      loadSum, runnableSum, utilSum, lastUpdate := 0, 0, 0, 0;
      periodContrib, loadAvg, runnableAvg, utilAvg := 0, 0, 0, 0;
    }

    method AccumulateSum(delta0: nat, load: nat, runnable: nat, running: bool) returns (crossed: nat)
      requires periodContrib < 1024
      modifies this
      ensures (State(), crossed) == Accumulate(old(State()), delta0, load, runnable, running)
    {
      var contrib := delta0 % TWO32;
      var delta := delta0 + periodContrib;
      var periods := delta / 1024;
      if periods != 0 {
        loadSum := KernelDecay(loadSum, periods);
        runnableSum := KernelDecay(runnableSum, periods);
        utilSum := KernelDecay(utilSum, periods);
        delta := delta % 1024;
        if load != 0 {
          contrib := Segments(periods, 1024 - periodContrib, delta);
        }
      }
      periodContrib := delta;
      loadSum := AddTimes(loadSum, load, contrib);
      runnableSum := AddTimes(runnableSum, runnable, contrib * 1024);
      utilSum := AddTimes(utilSum, if running then 1 else 0, contrib * 1024 % TWO32);
      crossed := periods % TWO32;
    }

    method UpdateLoadSum(now: nat, load: nat, runnable: nat, running: bool) returns (crossed: bool)
      requires periodContrib < 1024
      modifies this
      ensures (State(), crossed) == UpdateSums(old(State()), now, load, runnable, running)
    {
      var delta := (now - lastUpdate) % TWO64;
      if delta >= TWO64 / 2 {
        lastUpdate := now;
        return false;
      }
      delta := delta / 1024;
      if delta == 0 {
        return false;
      }
      lastUpdate := (lastUpdate + delta * 1024) % TWO64;
      var runnable', running' := runnable, running;
      if load == 0 {
        runnable', running' := 0, false;
      }
      var periods := AccumulateSum(delta, load, runnable', running');
      crossed := periods != 0;
    }

    method UpdateLoadAvg(load: nat)
      modifies this
      ensures State() == UpdateAvgs(old(State()), load)
    {
      var divider := PELT_MIN_DIVIDER + periodContrib;
      loadAvg := load * loadSum % TWO64 / divider;
      runnableAvg := runnableSum / divider;
      utilAvg := utilSum / divider;
    }

    method UpdateLoadAvgSe(weight: nat, now: nat, onRq: nat, runnable: nat, running: bool) returns (crossed: bool)
      requires periodContrib < 1024
      modifies this
      ensures State() == Update(old(State()), weight, now, onRq, runnable, running)
      ensures crossed == UpdateSums(old(State()), now, onRq, runnable, running).1
    {
      crossed := UpdateLoadSum(now, onRq, runnable, running);
      if crossed {
        UpdateLoadAvg(weight);
      }
    }
  }
}

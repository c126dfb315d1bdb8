/**
 * What PELT measures over a history of updates: the position follows the clock, a running
 * entity's sums climb to within a constant of their ceiling, runnable_sum and util_sum agree
 * where they count the same time, and blocked sums decay with a half-life of 32 periods.
 */
module PeltRuns {
  import opened Arithmetic
  import opened Constants
  import opened Decay
  import opened HalfLife
  import opened Pelt
  import opened PeltBounds

  /** The clock never runs backwards and stays below 2^63. */
  ghost predicate Increasing(events: seq<Event>) {
    && (forall k: nat :: k < |events| ==> events[k].now < TWO64 / 2)
    && (forall j: nat, k: nat :: j < k < |events| ==> events[j].now <= events[k].now)
  }

  /** last_update_time is the clock in whole units of 1024 ns, and period_contrib the units of the open period. */
  ghost predicate AtTime(a: Avg, now: nat) {
    a.lastUpdate == now / 1024 * 1024 && a.periodContrib == now / 1024 % 1024
  }

  lemma StepFollowsClock(a: Avg, weight: nat, before: nat, e: Event)
    requires AtTime(a, before) && before <= e.now < TWO64 / 2
    ensures a.periodContrib < 1024 && AtTime(Update(a, weight, e.now, e.load, e.runnable, e.running), e.now)
  {
    hide Accumulate;
    var delta := e.now - a.lastUpdate;
    ClockUnits(before, e.now);
    ModSmall(delta, TWO64);
    ModSmall(a.lastUpdate + delta / 1024 * 1024, TWO64);
    if delta / 1024 != 0 {
      var a1 := a.(lastUpdate := (a.lastUpdate + delta / 1024 * 1024) % TWO64);
      AccumulatePosition(a1, delta / 1024, e.load, if e.load == 0 then 0 else e.runnable, e.load != 0 && e.running);
    }
  }

  lemma ClockUnits(before: nat, now: nat)
    requires before <= now < TWO64 / 2
    ensures var delta := now - before / 1024 * 1024;
            && 0 <= delta < TWO64 / 2 && delta / 1024 == now / 1024 - before / 1024
            && before / 1024 * 1024 + delta / 1024 * 1024 == now / 1024 * 1024 <= now
            && (delta / 1024 + before / 1024 % 1024) % 1024 == now / 1024 % 1024
  {
    ModAdd(before / 1024, now / 1024 - before / 1024, 1024);
  }

  lemma AccumulatePosition(a: Avg, delta: nat, load: nat, runnable: nat, running: bool)
    requires a.periodContrib < 1024
    ensures var b := Accumulate(a, delta, load, runnable, running).0;
            b.periodContrib == (delta + a.periodContrib) % 1024 && b.lastUpdate == a.lastUpdate
  {
    hide Contribution;
    hide Decayed;
    hide AddTimes;
  }

  /** No time is lost between updates: the position depends on the last clock value alone. */
  lemma {:induction false} PositionFollowsClock(weight: nat, events: seq<Event>)
    requires Increasing(events)
    ensures AtTime(Run(ZERO_AVG, weight, events), if events == [] then 0 else events[|events| - 1].now)
    decreases |events|
  {
    assert AtTime(ZERO_AVG, 0);
    hide Update;
    hide AtTime;
    if events == [] {
    } else {
      var n := |events| - 1;
      PositionFollowsClock(weight, events[..n]);
      StepFollowsClock(Run(ZERO_AVG, weight, events[..n]), weight, if n == 0 then 0 else events[n - 1].now, events[n]);
    }
  }

  /** When the clock has run backwards the update takes its time over and changes nothing else. */
  lemma BackwardClock(a: Avg, weight: nat, e: Event)
    requires a.periodContrib < 1024 && e.now < a.lastUpdate <= e.now + TWO64 / 2 && a.lastUpdate < TWO64
    ensures Update(a, weight, e.now, e.load, e.runnable, e.running) == a.(lastUpdate := e.now)
  {
    ModShift(e.now - a.lastUpdate, 1, TWO64);
    ModSmall(e.now - a.lastUpdate + TWO64, TWO64);
  }

  /** runnable counts the entity exactly while it runs. */
  ghost predicate CountsRunning(e: Event) {
    e.runnable == if e.load != 0 && e.running then 1 else 0
  }

  lemma AccumulateKeepsAgreement(a: Avg, delta: nat, load: nat, running: bool)
    requires a.periodContrib < 1024 && a.runnableSum == a.utilSum && (running ==> load != 0)
    ensures var b := Accumulate(a, delta, load, if running then 1 else 0, running).0;
            && b.periodContrib < 1024 && b.runnableSum == b.utilSum
            && b.runnableAvg == a.runnableAvg && b.utilAvg == a.utilAvg
  {
    var c := if load != 0 then Contribution(a.periodContrib, delta) else delta % TWO32;
    ContributionValue(a.periodContrib, delta);
    hide Contribution;
    hide Decayed;
    if running {
      ModSmall(c * 1024, TWO32);
    } else {
      AddNothing(a, a.periodContrib, delta);
    }
    hide AddTimes;
  }

  lemma StepKeepsAgreement(a: Avg, weight: nat, e: Event)
    requires a.periodContrib < 1024 && CountsRunning(e)
    requires a.runnableSum == a.utilSum && a.runnableAvg == a.utilAvg
    ensures var b := Update(a, weight, e.now, e.load, e.runnable, e.running);
            b.periodContrib < 1024 && b.runnableSum == b.utilSum && b.runnableAvg == b.utilAvg
  {
    hide Accumulate;
    var delta := (e.now - a.lastUpdate) % TWO64;
    if delta < TWO64 / 2 && delta / 1024 != 0 {
      var a1 := a.(lastUpdate := (a.lastUpdate + delta / 1024 * 1024) % TWO64);
      AccumulateKeepsAgreement(a1, delta / 1024, e.load, e.load != 0 && e.running);
    }
  }

  /** Over every history in which runnable counts the running time, runnable_sum is util_sum. */
  lemma {:induction false} RunnableIsUtil(weight: nat, events: seq<Event>)
    requires forall e :: e in events ==> CountsRunning(e)
    ensures var a := Run(ZERO_AVG, weight, events);
            a.runnableSum == a.utilSum && a.runnableAvg == a.utilAvg
    decreases |events|
  {
    hide Update;
    hide CountsRunning;
    if events == [] {
    } else {
      var n := |events| - 1;
      assert events[n] in events && forall e :: e in events[..n] ==> e in events;
      RunnableIsUtil(weight, events[..n]);
      StepKeepsAgreement(Run(ZERO_AVG, weight, events[..n]), weight, events[n]);
    }
  }

  /** How far a sum that scales by k is below its ceiling, k times the divider. */
  function Missing(x: nat, k: nat, pc: nat): int {
    k * (PELT_MIN_DIVIDER + pc) - x
  }

  /** Below 47 * (k + 1) the truncations of a period can make up for what decays of the gap. */
  lemma MissingShrinks(x: nat, k: nat, pc: nat, delta: nat)
    requires pc < 1024 && x < TWO64
    ensures var p, pc' := (delta + pc) / 1024, (delta + pc) % 1024;
            var d, d' := Missing(x, k, pc), Missing(Decayed(x, p) + k * Contribution(pc, delta), k, pc');
            && (p == 0 ==> d' == d)
            && (p > 0 ==> 47 * (d' - 47 * (k + 1)) <= 46 * (if d <= 47 * (k + 1) then 0 else d - 47 * (k + 1)))
  {
    var p, pc' := (delta + pc) / 1024, (delta + pc) % 1024;
    ContributionValue(pc, delta);
    hide Contribution;
    hide KernelDecay;
    if p == 0 {
      assert k * (PELT_MIN_DIVIDER + pc') == k * (PELT_MIN_DIVIDER + pc) + k * delta;
    } else {
      var c, m := KernelDecay(1024 - pc, p), KernelDecay(LOAD_AVG_MAX, p);
      FullLoadDecays(p);
      GapAfterCrossing(k, c, m, pc');
      GapDecays(x, k, pc, p);
    }
  }

  lemma GapAfterCrossing(k: nat, c: nat, m: nat, d3: nat)
    requires m <= PELT_MIN_DIVIDER
    ensures k * (PELT_MIN_DIVIDER + d3) - k * (c + (PELT_MIN_DIVIDER - m) + d3) == k * m - k * c
  {
    assert c + (PELT_MIN_DIVIDER - m) + d3 == (PELT_MIN_DIVIDER + d3) + c - m;
  }

  /** The gap after a crossing: what the decay leaves of it, and the truncations of k + 1 terms. */
  lemma GapDecays(x: nat, k: nat, pc: nat, p: nat)
    requires pc < 1024 && x < TWO64 && p > 0
    ensures var d := Missing(x, k, pc);
            var d' := k * KernelDecay(LOAD_AVG_MAX, p) - k * KernelDecay(1024 - pc, p) - KernelDecay(x, p);
            47 * (d' - 47 * (k + 1)) <= 46 * (if d <= 47 * (k + 1) then 0 else d - 47 * (k + 1))
  {
    if p <= 2016 {
      var q, t := DecayBrackets(x, p);
      var _, _ := DecayBrackets(1024 - pc, p);
      var _, _ := DecayBrackets(LOAD_AVG_MAX, p);
      hide KernelDecay;
      var d := Missing(x, k, pc);
      var d' := k * KernelDecay(LOAD_AVG_MAX, p) - k * KernelDecay(1024 - pc, p) - KernelDecay(x, p);
      GapProduct(x, k, 1024 - pc, q, t, KernelDecay(LOAD_AVG_MAX, p), KernelDecay(1024 - pc, p), KernelDecay(x, p), d);
      GapShrinks(d, d', k, q, t);
    } else {
      assert k * 0 == 0;
    }
  }

  lemma GapProduct(x: nat, k: nat, r: nat, q: nat, t: nat, m: nat, c: nat, y: nat, d: int)
    requires q > 0 && d == k * (LOAD_AVG_MAX - r) - x
    requires m * (q * TWO32) <= LOAD_AVG_MAX * t
    requires (r - (q - 1)) * t - (TWO32 - 1) * q <= c * (q * TWO32)
    requires (x - (q - 1)) * t - (TWO32 - 1) * q <= y * (q * TWO32)
    ensures (k * m - k * c - y) * (q * TWO32) <= d * t + (k + 1) * ((q - 1) * t + (TWO32 - 1) * q)
  {
    var n, z := q * TWO32, (q - 1) * t + (TWO32 - 1) * q;
    LessTimes(r, q - 1, t);
    LessTimes(x, q - 1, t);
    LessTimes(k * (LOAD_AVG_MAX - r), x, t);
    ScaledDifference(k, LOAD_AVG_MAX, r, t);
    GapTerms(k, n, z, m, c, y, LOAD_AVG_MAX * t, r * t, x * t);
  }

  lemma LessTimes(a: int, b: int, t: int)
    ensures (a - b) * t == a * t - b * t
  {
  }

  lemma ScaledDifference(k: int, a: int, b: int, t: int)
    ensures k * (a - b) * t == k * (a * t) - k * (b * t)
  {
    assert k * (a - b) * t == k * ((a - b) * t);
    LessTimes(a, b, t);
    assert k * (a * t - b * t) == k * (a * t) - k * (b * t);
  }

  lemma GapTerms(k: nat, n: nat, z: int, m: nat, c: nat, y: nat, a: int, b: int, x: int)
    requires m * n <= a && b - z <= c * n && x - z <= y * n
    ensures (k * m - k * c - y) * n <= k * a - k * b - x + (k + 1) * z
  {
    MulMono(m * n, a, k);
    MulMono(b - z, c * n, k);
    assert (k * m - k * c - y) * n == k * (m * n) - k * (c * n) - y * n;
    assert k * (b - z) == k * b - k * z && (k + 1) * z == k * z + z;
  }

  lemma GapShrinks(d: int, d': int, k: nat, q: nat, t: nat)
    requires q > 0 && t < TWO32 && (q == 1 ==> t <= 0xfa83b2da)
    requires d' * (q * TWO32) <= d * t + (k + 1) * ((q - 1) * t + (TWO32 - 1) * q)
    ensures 47 * (d' - 47 * (k + 1)) <= 46 * (if d <= 47 * (k + 1) then 0 else d - 47 * (k + 1))
  {
    var c := if d <= 47 * (k + 1) then 47 * (k + 1) else d;
    MulMono(d, c, t);
    if q == 1 {
      MulMono(t, 0xfa83b2da, c);
      assert (k + 1) * ((TWO32 - 1) * 1) <= (k + 1) * TWO32;
    } else {
      var n := q * TWO32;
      MulMono(2, q, TWO32);
      MulMono(2 * t, n, c);
      MulMono(t, TWO32, q - 1);
      assert (q - 1) * t + (TWO32 - 1) * q <= 2 * n;
      MulMono((q - 1) * t + (TWO32 - 1) * q, 2 * n, k + 1);
      HalveGap(c, d', k, n);
    }
  }

  lemma HalveGap(c: nat, d': int, k: nat, n: nat)
    requires n > 0 && c >= 47 * (k + 1) && 2 * (d' * n) <= c * n + 2 * ((k + 1) * (2 * n))
    ensures 47 * d' <= 46 * c + 47 * (k + 1)
  {
    assert (2 * d') * n == 2 * (d' * n) && (c + 4 * (k + 1)) * n == c * n + 2 * ((k + 1) * (2 * n));
    MulCancel(2 * d', c + 4 * (k + 1), n);
  }

  function Power(b: nat, n: nat): nat {
    if n == 0 then 1 else b * Power(b, n - 1)
  }

  /** What is missing beyond the constant has shrunk by a factor of 46/47 with each of n crossings. */
  ghost predicate GapBound(x: nat, k: nat, pc: nat, n: nat) {
    var d := Missing(x, k, pc) - 47 * (k + 1);
    d > 0 ==> Power(47, n) * d <= Power(46, n) * (k * PELT_MIN_DIVIDER)
  }

  lemma GapStep(d: int, d': int, m: nat, n: nat)
    requires d > 0 ==> Power(47, n) * d <= Power(46, n) * m
    requires 47 * d' <= 46 * (if d <= 0 then 0 else d)
    ensures d' > 0 ==> Power(47, n + 1) * d' <= Power(46, n + 1) * m
  {
    if d > 0 {
      var p, q := Power(47, n), Power(46, n);
      MulMono(47 * d', 46 * d, p);
      assert (47 * p) * d' == p * (47 * d') && p * (46 * d) == 46 * (p * d) && (46 * q) * m == 46 * (q * m);
    }
  }

  /** One running update of a sum that scales by k. */
  lemma SumStep(x: nat, k: nat, pc: nat, delta: nat, n: nat)
    requires pc < 1024 && k < TWO32 * 65536 && ScaledBound(x, k, pc) && GapBound(x, k, pc, n)
    ensures var p, pc' := (delta + pc) / 1024, (delta + pc) % 1024;
            GapBound(AddTimes(Decayed(x, p), k, Contribution(pc, delta)), k, pc', if p > 0 then n + 1 else n)
  {
    hide Decayed;
    hide Contribution;
    hide Power;
    var p, pc' := (delta + pc) / 1024, (delta + pc) % 1024;
    var y := Decayed(x, p) + k * Contribution(pc, delta);
    ScaledFits(x, k, pc);
    MissingShrinks(x, k, pc, delta);
    ScaledRaw(x, k, pc, delta);
    ScaledFits(y, k, pc');
    ModSmall(y, TWO64);
    hide ScaledBound;
    if p > 0 {
      GapStep(Missing(x, k, pc) - 47 * (k + 1), Missing(y, k, pc') - 47 * (k + 1), k * PELT_MIN_DIVIDER, n);
    }
  }

  /** The periods an update crosses. */
  function PeriodsCrossed(a: Avg, e: Event): nat
    requires a.periodContrib < 1024
  {
    var delta := (e.now - a.lastUpdate) % TWO64;
    if delta >= TWO64 / 2 || delta / 1024 == 0 then 0 else (delta / 1024 + a.periodContrib) / 1024
  }

  /** The updates of a run that cross a period boundary. */
  function Crossings(weight: nat, events: seq<Event>): nat
    decreases |events|
  {
    if events == [] then 0
    else
      var n := |events| - 1;
      var a := Run(ZERO_AVG, weight, events[..n]);
      Crossings(weight, events[..n]) + if PeriodsCrossed(a, events[n]) > 0 then 1 else 0
  }

  /** The three sums against their ceilings, for a load of w and r runnable entities. */
  ghost predicate Filling(a: Avg, w: nat, r: nat, n: nat) {
    && GapBound(a.loadSum, w, a.periodContrib, n)
    && GapBound(a.runnableSum, 1024 * r, a.periodContrib, n)
    && GapBound(a.utilSum, 1024, a.periodContrib, n)
  }

  lemma AccumulateFills(a: Avg, delta: nat, w: nat, r: nat, n: nat)
    requires InRange(w, r) && SumBounds(a, w, r) && w > 0 && Filling(a, w, r, n)
    ensures Filling(Accumulate(a, delta, w, r, true).0, w, r, if (delta + a.periodContrib) / 1024 > 0 then n + 1 else n)
  {
    hide GapBound;
    hide ScaledBound;
    var pc, p, c := a.periodContrib, (delta + a.periodContrib) / 1024, Contribution(a.periodContrib, delta);
    ContributionValue(pc, delta);
    SumStep(a.loadSum, w, pc, delta, n);
    SumStep(a.runnableSum, 1024 * r, pc, delta, n);
    SumStep(a.utilSum, 1024, pc, delta, n);
    hide Contribution;
    ModSmall(c * 1024, TWO32);
    AddTimesShift(Decayed(a.runnableSum, p), r, c);
    AddTimesShift(Decayed(a.utilSum, p), 1, c);
    hide AddTimes;
    hide Decayed;
  }

  /** An entity that is always there and always running. */
  ghost predicate AlwaysOn(events: seq<Event>, w: nat, r: nat) {
    forall e :: e in events ==> e.load == w && e.runnable == r && e.running
  }

  lemma UpdateFills(a: Avg, weight: nat, e: Event, n: nat)
    requires InRange(e.load, e.runnable) && SumBounds(a, e.load, e.runnable) && e.load > 0 && e.running
    requires Filling(a, e.load, e.runnable, n)
    ensures Filling(Update(a, weight, e.now, e.load, e.runnable, e.running), e.load, e.runnable,
                    n + if PeriodsCrossed(a, e) > 0 then 1 else 0)
  {
    hide Accumulate;
    hide GapBound;
    hide ScaledBound;
    var delta := (e.now - a.lastUpdate) % TWO64;
    if delta < TWO64 / 2 && delta / 1024 != 0 {
      var a1 := a.(lastUpdate := (a.lastUpdate + delta / 1024 * 1024) % TWO64);
      AccumulateFills(a1, delta / 1024, e.load, e.runnable, n);
    }
  }

  /**
   * Whenever the updates of an always-running entity happen, its sums climb to their ceilings: what
   * is missing beyond 47 units of each scale shrinks by 46/47 or more with every period boundary.
   */
  lemma {:induction false} RunningFills(weight: nat, w: nat, r: nat, events: seq<Event>)
    requires InRange(w, r) && w > 0 && AlwaysOn(events, w, r)
    ensures Filling(Run(ZERO_AVG, weight, events), w, r, Crossings(weight, events))
    decreases |events|
  {
    if events == [] {
      EmptyGap(w);
      EmptyGap(1024 * r);
      EmptyGap(1024);
    } else {
      var n := |events| - 1;
      assert events[n] in events && forall e :: e in events[..n] ==> e in events;
      hide Filling;
      hide Update;
      hide InRange;
      hide PeriodsCrossed;
      hide SumBounds;
      hide AvgBounds;
      RunUnfolds(weight, events);
      hide Run;
      hide Crossings;
      RunningFills(weight, w, r, events[..n]);
      RunKeepsBounds(weight, w, r, events[..n]);
      UpdateFills(Run(ZERO_AVG, weight, events[..n]), weight, events[n], Crossings(weight, events[..n]));
    }
  }

  lemma RunUnfolds(weight: nat, events: seq<Event>)
    requires events != []
    ensures var n := |events| - 1;
            var a, e := Run(ZERO_AVG, weight, events[..n]), events[n];
            && Run(ZERO_AVG, weight, events) == Update(a, weight, e.now, e.load, e.runnable, e.running)
            && Crossings(weight, events) == Crossings(weight, events[..n]) + if PeriodsCrossed(a, e) > 0 then 1 else 0
  {
    hide Update;
    hide PeriodsCrossed;
  }

  lemma EmptyGap(k: nat)
    ensures GapBound(0, k, 0, 0)
  {
    assert Power(47, 0) == 1 && Power(46, 0) == 1;
  }

  lemma {:induction false} PowerSum(b: nat, m: nat, n: nat)
    ensures Power(b, m + n) == Power(b, m) * Power(b, n)
  {
    if m == 0 {
    } else {
      PowerSum(b, m - 1, n);
      assert b * (Power(b, m - 1) * Power(b, n)) == (b * Power(b, m - 1)) * Power(b, n);
    }
  }

  lemma ThirtyThree()
    ensures 2 * Power(46, 33) <= Power(47, 33)
  {
    assert Power(46, 11) == 46 * 46 * 46 * 46 * 46 * 46 * 46 * 46 * 46 * 46 * 46;
    assert Power(47, 11) == 47 * 47 * 47 * 47 * 47 * 47 * 47 * 47 * 47 * 47 * 47;
    PowerSum(46, 11, 11);
    PowerSum(46, 22, 11);
    PowerSum(47, 11, 11);
    PowerSum(47, 22, 11);
    hide Power;
  }

  /** 33 crossings halve what is missing. */
  lemma {:induction false} Halvings(m: nat)
    ensures Pow2(m) * Power(46, 33 * m) <= Power(47, 33 * m)
  {
    if m == 0 {
      assert Pow2(0) == 1 && Power(46, 0) == 1 == Power(47, 0);
    } else {
      Halvings(m - 1);
      ThirtyThree();
      PowerSum(46, 33, 33 * (m - 1));
      PowerSum(47, 33, 33 * (m - 1));
      assert Pow2(m) == 2 * Pow2(m - 1);
      hide Power;
      HalvingStep(Pow2(m - 1), Power(46, 33), Power(47, 33), Power(46, 33 * (m - 1)), Power(47, 33 * (m - 1)));
    }
  }

  lemma HalvingStep(p: nat, a: nat, b: nat, x: nat, y: nat)
    requires 2 * a <= b && p * x <= y
    ensures (2 * p) * (a * x) <= b * y
  {
    assert (2 * p) * (a * x) == (2 * a) * (p * x);
    MulMono(2 * a, b, p * x);
    MulMono(p * x, y, b);
  }

  /** After 2112 period boundaries, two seconds, less than 47 units of each scale are missing, whatever the load. */
  lemma GapCloses(x: nat, k: nat, pc: nat, n: nat)
    requires GapBound(x, k, pc, n) && n >= 2112 && k < TWO32 * 65536
    ensures Missing(x, k, pc) <= 47 * (k + 1)
  {
    var d := Missing(x, k, pc) - 47 * (k + 1);
    if d > 0 {
      Halvings(64);
      PowerSum(46, 2112, n - 2112);
      PowerSum(47, 2112, n - 2112);
      PowerPositive(n - 2112);
      PowerPositive(2112);
      PowerGrows(n - 2112);
      Pow2At64();
      assert 2112 + (n - 2112) == n;
      hide Power;
      hide Missing;
      hide Pow2;
      TooMuchMissing(d, k * PELT_MIN_DIVIDER, Power(46, 2112), Power(47, 2112),
                     Power(46, n - 2112), Power(47, n - 2112));
    }
  }

  lemma Pow2At64()
    ensures Pow2(64) == TWO64
  {
    Pow2Of63();
  }

  lemma PowerPositive(n: nat)
    ensures Power(46, n) > 0
  {
    if n > 0 {
      PowerPositive(n - 1);
    }
  }

  lemma PowerGrows(n: nat)
    ensures Power(46, n) <= Power(47, n)
  {
    if n > 0 {
      PowerGrows(n - 1);
    }
  }

  lemma TooMuchMissing(d: int, m: nat, a: nat, b: nat, x: nat, y: nat)
    requires d > 0 && m < TWO64 && TWO64 * a <= b && 0 < x <= y && a > 0
    ensures (a * x) * m < (b * y) * d
  {
    MulMono(1, d, b * y);
    MulMono(m + 1, TWO64, a * x);
    MulMono(TWO64 * a, b, x);
    MulMono(x, y, b);
    assert (TWO64 * a) * x == TWO64 * (a * x);
    MulMono(1, a, x);
    assert (a * x) * (m + 1) == (a * x) * m + a * x;
  }

  /** The averages of a task that is always running, once the gaps have closed: near its weight and near 1024. */
  lemma RunningAverages(weight: nat, events: seq<Event>)
    requires AlwaysOn(events, 1, 1) && events != [] && Crossings(weight, events) >= 2112
    requires weight < TWO32 * 65536
    requires var n, a := |events| - 1, Run(ZERO_AVG, weight, events[..|events| - 1]);
             UpdateSums(a, events[n].now, 1, 1, true).1
    ensures var a := Run(ZERO_AVG, weight, events);
            997 * weight <= 1000 * (a.loadAvg + 1) && a.utilAvg >= 1022 && a.runnableAvg >= 1022
  {
    var n := |events| - 1;
    var a := Run(ZERO_AVG, weight, events[..n]);
    assert events[n] in events;
    RunningFills(weight, 1, 1, events);
    RunKeepsBounds(weight, 1, 1, events);
    var b := UpdateSums(a, events[n].now, 1, 1, true).0;
    hide UpdateSums;
    hide Filling;
    hide Crossings;
    hide AvgBounds;
    var r := Run(ZERO_AVG, weight, events);
    assert r == UpdateAvgs(b, weight);
    SameSums(b, weight);
    hide Run;
    FilledSums(r, Crossings(weight, events));
    FilledAverages(b, weight);
  }

  lemma FilledSums(a: Avg, n: nat)
    requires a.periodContrib < 1024 && Filling(a, 1, 1, n) && n >= 2112
    ensures a.loadSum + 94 >= Divider(a) && a.utilSum + 48175 >= 1024 * Divider(a)
    ensures a.runnableSum + 48175 >= 1024 * Divider(a)
  {
    hide GapBound;
    GapCloses(a.loadSum, 1, a.periodContrib, n);
    GapCloses(a.runnableSum, 1024, a.periodContrib, n);
    GapCloses(a.utilSum, 1024, a.periodContrib, n);
  }

  lemma FilledAverages(a: Avg, weight: nat)
    requires a.periodContrib < 1024 && weight < TWO32 * 65536 && a.loadSum <= PELT_MIN_DIVIDER + a.periodContrib
    requires a.loadSum + 94 >= Divider(a) && a.utilSum + 48175 >= 1024 * Divider(a)
    requires a.runnableSum + 48175 >= 1024 * Divider(a)
    ensures var b := UpdateAvgs(a, weight);
            997 * weight <= 1000 * (b.loadAvg + 1) && b.utilAvg >= 1022 && b.runnableAvg >= 1022
  {
    var d := Divider(a);
    DivGe(a.utilSum, d, 1022);
    DivGe(a.runnableSum, d, 1022);
    FilledLoad(weight, a.loadSum, d);
  }

  lemma FilledLoad(weight: nat, sum: nat, d: nat)
    requires weight < TWO32 * 65536 && sum < 65536 && sum + 94 >= d >= PELT_MIN_DIVIDER
    ensures 997 * weight <= 1000 * (weight * sum % TWO64 / d + 1)
  {
    ProductFits(weight, sum);
    var x := weight * sum;
    ModSmall(x, TWO64);
    DivBounds(x, d);
    DivGe(x, d, 0);
    NearWeight(x / d, d, weight, sum);
  }

  lemma ProductFits(weight: nat, sum: nat)
    requires weight < TWO32 * 65536 && sum < 65536
    ensures weight * sum < TWO64
  {
    MulMono(weight, TWO32 * 65536, sum);
    MulMono(sum, 65535, TWO32 * 65536);
  }

  lemma NearWeight(q: nat, d: nat, weight: nat, sum: nat)
    requires d >= PELT_MIN_DIVIDER && sum + 94 >= d && weight * sum < q * d + d
    ensures 997 * weight <= 1000 * (q + 1)
  {
    MulMono(d - 94, sum, weight);
    MulMono(997 * d, 1000 * (d - 94), weight);
    assert (997 * weight) * d == weight * (997 * d) && weight * (1000 * (d - 94)) == 1000 * (weight * (d - 94));
    assert (1000 * (q + 1)) * d == 1000 * (q * d + d);
    MulCancel(997 * weight, 1000 * (q + 1), d);
  }

  /** sum is what is left of old after p periods without any addition: between the roots, and no more than it was. */
  ghost predicate HalvesEvery32(x: nat, y: nat, p: nat) {
    && y <= x
    && (forall low: nat :: low + 1 + x / TWO32 <= y ==> Power32(low) * Pow2(p) <= Power32(x))
    && (p < 2016 ==> Power32(x) <= Power32(y + 3 + x / 0x2000_0000) * Pow2(p))
    && (p >= 2016 ==> y == 0)
  }

  lemma DecayedHalves(x: nat, p: nat)
    requires x < TWO64
    ensures HalvesEvery32(x, Decayed(x, p), p)
  {
    hide Power32;
    if p == 0 {
      assert Pow2(0) == 1;
      forall low: nat | low + 1 + x / TWO32 <= x
        ensures Power32(low) * Pow2(p) <= Power32(x)
      {
        Power32Mono(low, x);
      }
      Power32Mono(x, x + 3 + x / 0x2000_0000);
    } else {
      KernelDecayShrinks(x, p);
      forall low: nat | low + 1 + x / TWO32 <= KernelDecay(x, p)
        ensures Power32(low) * Pow2(p) <= Power32(x)
      {
        DecayBelowRoot(x, p, low);
      }
      if p < 2016 {
        DecayAboveRoot(x, p);
      } else {
        GoneAfter2016(x, p);
      }
    }
  }

  lemma GoneAfter2016(x: nat, p: nat)
    requires x < TWO64 && p >= 2016
    ensures KernelDecay(x, p) == 0
  {
    if p == 2016 {
      KernelDecayForm(x, p);
      Pow2Of63();
      DivMono(x, TWO64 - 1, Pow2(63));
      assert Shr(x, 63) <= 1;
    }
  }

  /** While nothing is runnable, whatever else an update claims, every sum just decays by the periods crossed. */
  lemma BlockedUpdate(a: Avg, weight: nat, e: Event)
    requires a.periodContrib < 1024 && e.load == 0
    requires a.loadSum < TWO64 && a.runnableSum < TWO64 && a.utilSum < TWO64
    ensures var b, p := Update(a, weight, e.now, e.load, e.runnable, e.running), PeriodsCrossed(a, e);
            && HalvesEvery32(a.loadSum, b.loadSum, p)
            && HalvesEvery32(a.runnableSum, b.runnableSum, p)
            && HalvesEvery32(a.utilSum, b.utilSum, p)
  {
    var p := PeriodsCrossed(a, e);
    DecayedHalves(a.loadSum, p);
    DecayedHalves(a.runnableSum, p);
    DecayedHalves(a.utilSum, p);
    BlockedSums(a, weight, e);
    hide HalvesEvery32;
  }

  lemma BlockedSums(a: Avg, weight: nat, e: Event)
    requires a.periodContrib < 1024 && e.load == 0
    requires a.loadSum < TWO64 && a.runnableSum < TWO64 && a.utilSum < TWO64
    ensures var b, p := Update(a, weight, e.now, e.load, e.runnable, e.running), PeriodsCrossed(a, e);
            && b.loadSum == Decayed(a.loadSum, p) && b.runnableSum == Decayed(a.runnableSum, p)
            && b.utilSum == Decayed(a.utilSum, p)
  {
    hide Accumulate;
    hide Decayed;
    var delta := (e.now - a.lastUpdate) % TWO64;
    if delta < TWO64 / 2 && delta / 1024 != 0 {
      AccumulateBlocked(a.(lastUpdate := (a.lastUpdate + delta / 1024 * 1024) % TWO64), delta / 1024);
    } else {
      NothingDecays(a.loadSum);
      NothingDecays(a.runnableSum);
      NothingDecays(a.utilSum);
    }
  }

  lemma NothingDecays(x: nat)
    ensures Decayed(x, 0) == x
  {}

  lemma AddNoTimes(x: nat, p: nat, c: nat)
    requires x < TWO64
    ensures AddTimes(Decayed(x, p), 0, c) == Decayed(x, p)
  {
    if p > 0 {
      KernelDecayShrinks(x, p);
    }
    hide KernelDecay;
    ModSmall(Decayed(x, p), TWO64);
  }

  lemma AccumulateBlocked(a: Avg, delta: nat)
    requires a.periodContrib < 1024 && a.loadSum < TWO64 && a.runnableSum < TWO64 && a.utilSum < TWO64
    ensures var b, p := Accumulate(a, delta, 0, 0, false).0, (delta + a.periodContrib) / 1024;
            && b.loadSum == Decayed(a.loadSum, p) && b.runnableSum == Decayed(a.runnableSum, p)
            && b.utilSum == Decayed(a.utilSum, p)
  {
    hide Contribution;
    hide AddTimes;
    hide Decayed;
    var p, c := (delta + a.periodContrib) / 1024, delta % TWO32;
    AddNoTimes(a.loadSum, p, c);
    AddNoTimes(a.runnableSum, p, c * 1024);
    AddNoTimes(a.utilSum, p, c * 1024 % TWO32);
  }
}

/**
 * What every sequence of PELT updates keeps: the sums stay below the divider
 * that turns them into averages (exactly for a task's load, up to a constant
 * rounding slack for sums that scale the already truncated contribution), so
 * the averages stay below the weight and the capacity they describe.
 */
module PeltBounds {
  import opened Arithmetic
  import opened Constants
  import opened Decay
  import opened Pelt

  /** 1024 * (y + y^2 + ...) cannot go below zero: one period already decays LOAD_AVG_MAX by 1024. */
  lemma FullLoadDecays(periods: nat)
    requires periods > 0
    ensures KernelDecay(LOAD_AVG_MAX, periods) <= PELT_MIN_DIVIDER
  {
    if periods <= 2016 {
      var v, n := Shr(LOAD_AVG_MAX, periods / 32), periods % 32;
      KernelDecayForm(LOAD_AVG_MAX, periods);
      TableEntry(n);
      if periods < 32 {
        assert v == LOAD_AVG_MAX;
        MulMono(YN_INV[n], 0xfa83b2da, v);
        DivMono(v * YN_INV[n], v * 0xfa83b2da, TWO32);
      } else {
        HalfOrLess(LOAD_AVG_MAX, periods / 32);
        MulShr32(v, YN_INV[n]);
      }
    }
  }

  lemma Pow2AtLeast2(k: nat)
    requires k > 0
    ensures Pow2(k) >= 2
  {}

  lemma HalfOrLess(v: nat, k: nat)
    requires k > 0
    ensures 2 * Shr(v, k) <= v
  {
    Pow2AtLeast2(k);
    DivBounds(v, Pow2(k));
    MulMono(2, Pow2(k), Shr(v, k));
  }

  /** No u32 in __accumulate_pelt_segments wraps; in particular c2 does not underflow. */
  lemma SegmentsValue(periods: nat, d1: nat, d3: nat)
    requires periods > 0 && d1 <= 1024 && d3 < 1024
    ensures Segments(periods, d1, d3) ==
            KernelDecay(d1, periods) + (PELT_MIN_DIVIDER - KernelDecay(LOAD_AVG_MAX, periods)) + d3
    ensures Segments(periods, d1, d3) <= PELT_MIN_DIVIDER + d3
  {
    hide KernelDecay;
    FullLoadDecays(periods);
    KernelDecayMonotone(d1, LOAD_AVG_MAX, periods);
  }

  /** A contribution never exceeds the whole history it is part of. */
  lemma ContributionValue(pc: nat, delta: nat)
    requires pc < 1024
    ensures Contribution(pc, delta) <= LOAD_AVG_MAX
    ensures (delta + pc) / 1024 == 0 ==> Contribution(pc, delta) == delta
    ensures (delta + pc) / 1024 > 0 ==>
              Contribution(pc, delta) ==
              KernelDecay(1024 - pc, (delta + pc) / 1024)
              + (PELT_MIN_DIVIDER - KernelDecay(LOAD_AVG_MAX, (delta + pc) / 1024)) + (delta + pc) % 1024
  {
    if (delta + pc) / 1024 > 0 {
      SegmentsValue((delta + pc) / 1024, 1024 - pc, (delta + pc) % 1024);
    }
  }

  /**
   * A unit load: if the sum was below the divider before the update it is below
   * the divider of the new position after it.
   */
  lemma UnitSumStep(x: nat, pc: nat, delta: nat, load: nat)
    requires pc < 1024 && load <= 1 && x <= PELT_MIN_DIVIDER + pc
    ensures AddTimes(Decayed(x, (delta + pc) / 1024), load, Contribution(pc, delta))
            <= PELT_MIN_DIVIDER + (delta + pc) % 1024
  {
    hide KernelDecay;
    hide Contribution;
    var p := (delta + pc) / 1024;
    ContributionValue(pc, delta);
    if p > 0 {
      FullLoadDecays(p);
      KernelDecaySuperadditive(x, 1024 - pc, p);
      KernelDecayMonotone(x + (1024 - pc), LOAD_AVG_MAX, p);
    }
  }

  /** x is at most k times the divider, plus 375/8 of k for rounding. */
  ghost predicate ScaledBound(x: nat, k: nat, pc: nat) {
    8 * x <= k * (8 * (PELT_MIN_DIVIDER + pc) + 375)
  }

  /**
   * The truncated decays of x, d1 and LOAD_AVG_MAX as quotients by one number q * 2^32,
   * where the decay is by t / (q * 2^32) and q = 2^(periods/32).
   */
  lemma DecayBrackets(v: nat, periods: nat) returns (q: nat, t: nat)
    requires v < TWO64 && 0 < periods <= 2016
    ensures q == Pow2(periods / 32) && t == YN_INV[periods % 32]
    ensures t < TWO32 && (q == 1 ==> t <= 0xfa83b2da)
    ensures KernelDecay(v, periods) * (q * TWO32) <= v * t
    ensures (v - (q - 1)) * t - (TWO32 - 1) * q <= KernelDecay(v, periods) * (q * TWO32)
  {
    q, t := Pow2(periods / 32), YN_INV[periods % 32];
    KernelDecayForm(v, periods);
    TableEntry(periods % 32);
    if periods >= 32 {
      Pow2AtLeast2(periods / 32);
    }
    Brackets(v, q, t, Shr(v, periods / 32), KernelDecay(v, periods));
  }

  lemma Brackets(v: nat, q: nat, t: nat, s: nat, d: nat)
    requires q > 0 && s == v / q && d == s * t / TWO32
    ensures d * (q * TWO32) <= v * t
    ensures (v - (q - 1)) * t - (TWO32 - 1) * q <= d * (q * TWO32)
  {
    DivBounds(v, q);
    DivBounds(s * t, TWO32);
    MulMono(d * TWO32, s * t, q);
    MulMono(s * q, v, t);
    MulMono(s * t - (TWO32 - 1), d * TWO32, q);
    MulMono(v - (q - 1), s * q, t);
    assert d * (q * TWO32) == (d * TWO32) * q;
    assert (s * t) * q == (s * q) * t;
  }

  /**
   * The heart of the scaled bound: the decayed sum plus k times the decayed
   * remainder of the old period loses at least what the rounding of c1 and c2 gains.
   */
  lemma ScaledDecay(x: nat, k: nat, pc: nat, periods: nat)
    requires pc < 1024 && periods > 0 && x < TWO64 && ScaledBound(x, k, pc)
    ensures 8 * (KernelDecay(x, periods) + k * KernelDecay(1024 - pc, periods))
            <= k * (8 * KernelDecay(LOAD_AVG_MAX, periods) + 375)
  {
    if periods <= 2016 {
      var q, t := DecayBrackets(x, periods);
      var _, _ := DecayBrackets(1024 - pc, periods);
      var _, _ := DecayBrackets(LOAD_AVG_MAX, periods);
      SlackCovers(q, t);
      ScaledDecayCore(x, k, 1024 - pc, q, t, KernelDecay(x, periods),
                      KernelDecay(1024 - pc, periods), KernelDecay(LOAD_AVG_MAX, periods));
    }
  }

  /** 375/8 units of slack, decayed, still leave room for the rounding of one decay. */
  lemma SlackCovers(q: nat, t: nat)
    requires q > 0 && t < TWO32 && (q == 1 ==> t <= 0xfa83b2da)
    ensures 8 * ((q - 1) * t + (TWO32 - 1) * q) + 375 * t <= 375 * (q * TWO32)
  {
    if q > 1 {
      MulMono(t, TWO32, q - 1);
    }
  }

  lemma ScaledDecayCore(x: nat, k: nat, d1: nat, q: nat, t: nat, dx: nat, dd: nat, dm: nat)
    requires q > 0
    requires 8 * x <= k * (8 * (LOAD_AVG_MAX - d1) + 375)
    requires dx * (q * TWO32) <= x * t && dd * (q * TWO32) <= d1 * t
    requires (LOAD_AVG_MAX - (q - 1)) * t - (TWO32 - 1) * q <= dm * (q * TWO32)
    requires 8 * ((q - 1) * t + (TWO32 - 1) * q) + 375 * t <= 375 * (q * TWO32)
    ensures 8 * (dx + k * dd) <= k * (8 * dm + 375)
  {
    var n := q * TWO32;
    DecayedFromAbove(x, k, d1, t, dx, dd, n, 8 * (LOAD_AVG_MAX - d1) + 375);
    DecayedFromBelow(q, t, dm);
    MulMono((8 * LOAD_AVG_MAX + 375) * t, (8 * dm + 375) * n, k);
    CancelFactor(8 * (dx + k * dd), k, 8 * dm + 375, n);
  }

  /** The right side of ScaledDecayCore, divided by k. */
  lemma DecayedFromBelow(q: nat, t: nat, dm: nat)
    requires q > 0
    requires (LOAD_AVG_MAX - (q - 1)) * t - (TWO32 - 1) * q <= dm * (q * TWO32)
    requires 8 * ((q - 1) * t + (TWO32 - 1) * q) + 375 * t <= 375 * (q * TWO32)
    ensures (8 * LOAD_AVG_MAX + 375) * t <= (8 * dm + 375) * (q * TWO32)
  {
    var n := q * TWO32;
    assert (LOAD_AVG_MAX - (q - 1)) * t == LOAD_AVG_MAX * t - (q - 1) * t;
    assert (8 * dm + 375) * n == 8 * (dm * n) + 375 * n;
  }

  /** The left side of ScaledDecayCore, multiplied by n. */
  lemma DecayedFromAbove(x: nat, k: nat, d1: nat, t: nat, dx: nat, dd: nat, n: nat, b: int)
    requires 8 * x <= k * b && dx * n <= x * t && dd * n <= d1 * t
    ensures 8 * (dx + k * dd) * n <= k * ((b + 8 * d1) * t)
  {
    MulMono(dd * n, d1 * t, k);
    MulMono(8 * x, k * b, t);
    Collect(k, b, 8 * d1, t);
    Spread(dx, k, dd, n);
    assert k * (8 * d1 * t) == 8 * (k * (d1 * t));
  }

  lemma Spread(dx: nat, k: nat, dd: nat, n: nat)
    ensures 8 * (dx + k * dd) * n == 8 * (dx * n) + 8 * (k * (dd * n))
  {}

  lemma CancelFactor(a: nat, k: nat, b: nat, n: nat)
    requires n > 0 && a * n <= k * (b * n)
    ensures a <= k * b
  {
    assert k * (b * n) == (k * b) * n;
    MulMono(k * b + 1, a, n);
  }

  lemma Collect(k: nat, a: int, b: int, t: nat)
    ensures (k * a) * t + k * (b * t) == k * ((a + b) * t)
  {}

  /** k times the three parts of a contribution, with the bound that ScaledDecay gives. */
  lemma ScaledParts(dx: nat, k: nat, d1: nat, m: nat, d3: nat)
    requires m <= PELT_MIN_DIVIDER
    requires 8 * (dx + k * d1) <= k * (8 * m + 375)
    ensures 8 * (dx + k * (d1 + (PELT_MIN_DIVIDER - m) + d3)) <= k * (8 * (PELT_MIN_DIVIDER + d3) + 375)
  {
    var e := PELT_MIN_DIVIDER - m + d3;
    assert k * (d1 + e) == k * d1 + k * e;
    assert k * (8 * m + 375) + 8 * (k * e) == k * (8 * (m + e) + 375);
  }

  /** A sum that has not crossed a period boundary. */
  lemma ScaledSamePeriod(x: nat, k: nat, pc: nat, c: nat)
    requires ScaledBound(x, k, pc)
    ensures 8 * (x + k * c) <= k * (8 * (PELT_MIN_DIVIDER + (pc + c)) + 375)
  {
    assert k * (8 * (PELT_MIN_DIVIDER + (pc + c)) + 375)
        == k * (8 * (PELT_MIN_DIVIDER + pc) + 375) + 8 * (k * c);
  }

  /** The sum before wrapping, for the largest load. */
  lemma ScaledCrossing(x: nat, k: nat, pc: nat, delta: nat)
    requires pc < 1024 && k < TWO32 * 65536 && ScaledBound(x, k, pc) && (delta + pc) / 1024 > 0
    ensures 8 * (KernelDecay(x, (delta + pc) / 1024) + k * Contribution(pc, delta))
            <= k * (8 * (PELT_MIN_DIVIDER + (delta + pc) % 1024) + 375)
  {
    hide KernelDecay;
    hide Contribution;
    var p := (delta + pc) / 1024;
    ContributionValue(pc, delta);
    ScaledFits(x, k, pc);
    ScaledDecay(x, k, pc, p);
    FullLoadDecays(p);
    ScaledParts(KernelDecay(x, p), k, KernelDecay(1024 - pc, p), KernelDecay(LOAD_AVG_MAX, p), (delta + pc) % 1024);
  }

  lemma ScaledRaw(x: nat, k: nat, pc: nat, delta: nat)
    requires pc < 1024 && k < TWO32 * 65536 && ScaledBound(x, k, pc)
    ensures 8 * (Decayed(x, (delta + pc) / 1024) + k * Contribution(pc, delta))
            <= k * (8 * (PELT_MIN_DIVIDER + (delta + pc) % 1024) + 375)
  {
    if (delta + pc) / 1024 == 0 {
      ContributionValue(pc, delta);
      hide Contribution;
      ScaledSamePeriod(x, k, pc, delta);
      assert (delta + pc) % 1024 == pc + delta;
    } else {
      hide KernelDecay;
      hide Contribution;
      ScaledCrossing(x, k, pc, delta);
    }
  }

  /** One update keeps a sum scaled by k below its bound; load is the factor it adds. */
  lemma ScaledSumStep(x: nat, k: nat, pc: nat, delta: nat, load: nat)
    requires pc < 1024 && load <= k < TWO32 * 65536 && ScaledBound(x, k, pc)
    ensures ScaledBound(AddTimes(Decayed(x, (delta + pc) / 1024), load, Contribution(pc, delta)),
                        k, (delta + pc) % 1024)
  {
    hide Decayed;
    hide Contribution;
    var y, c := Decayed(x, (delta + pc) / 1024), Contribution(pc, delta);
    ScaledRaw(x, k, pc, delta);
    MulMono(load, k, c);
    ModLe(y + load * c);
  }

  /** A bounded sum fits u64. */
  lemma ScaledFits(x: nat, k: nat, pc: nat)
    requires pc < 1024 && k < TWO32 * 65536 && ScaledBound(x, k, pc)
    ensures x <= k * 47789 && x < TWO64
  {
    MulMono(8 * (PELT_MIN_DIVIDER + pc) + 375, 8 * 47789, k);
  }

  /** Wrapping a natural number never makes it larger. */
  lemma ModLe(a: nat)
    ensures a % TWO64 <= a
  {}

  /**
   * The bounds of one sched_avg whose load never exceeds w and whose runnable
   * count never exceeds r. A task has w == r == 1; a cfs_rq has its largest
   * total weight and its largest h_nr_running.
   */
  ghost predicate SumBounds(a: Avg, w: nat, r: nat) {
    && a.periodContrib < 1024
    && ScaledBound(a.loadSum, w, a.periodContrib)
    && (w == 1 ==> a.loadSum <= PELT_MIN_DIVIDER + a.periodContrib)
    && ScaledBound(a.runnableSum, 1024 * r, a.periodContrib)
    && ScaledBound(a.utilSum, 1024, a.periodContrib)
  }

  /** The largest w and r for which no u64 sum can wrap. */
  ghost predicate InRange(w: nat, r: nat) {
    w < TWO32 * 65536 && 1024 * r < TWO32 * 65536
  }

  lemma AddTimesShift(sum: nat, k: nat, c: nat)
    ensures AddTimes(sum, k, c * 1024) == AddTimes(sum, 1024 * k, c)
  {
    assert k * (c * 1024) == 1024 * k * c;
  }

  /** accumulate_sum keeps every bound. */
  lemma AccumulateKeepsBounds(a: Avg, w: nat, r: nat, delta: nat, load: nat, runnable: nat, running: bool)
    requires InRange(w, r) && SumBounds(a, w, r) && load <= w && runnable <= r
    requires load == 0 ==> runnable == 0 && !running
    ensures SumBounds(Accumulate(a, delta, load, runnable, running).0, w, r)
  {
    hide KernelDecay;
    hide Contribution;
    hide AddTimes;
    hide Decayed;
    hide ScaledBound;
    var pc := a.periodContrib;
    var c := Contribution(pc, delta);
    ContributionValue(pc, delta);
    ScaledSumStep(a.loadSum, w, pc, delta, load);
    if w == 1 {
      UnitSumStep(a.loadSum, pc, delta, load);
    }
    ScaledSumStep(a.runnableSum, 1024 * r, pc, delta, 1024 * runnable);
    ScaledSumStep(a.utilSum, 1024, pc, delta, if running then 1024 else 0);
    AddTimesShift(Decayed(a.runnableSum, (delta + pc) / 1024), runnable, c);
    AddTimesShift(Decayed(a.utilSum, (delta + pc) / 1024), if running then 1 else 0, c);
    if load == 0 {
      AddNothing(a, pc, delta);
    }
  }

  /** With a zero load the contribution is multiplied by zero, whatever it is. */
  lemma AddNothing(a: Avg, pc: nat, delta: nat)
    requires pc < 1024
    ensures forall s: nat, c: nat, c': nat {:trigger AddTimes(s, 0, c), AddTimes(s, 0, c')} ::
              AddTimes(s, 0, c) == AddTimes(s, 0, c')
  {}

  /** ___update_load_sum keeps every bound, at any time, also when the clock runs backwards. */
  lemma UpdateSumsKeepsBounds(a: Avg, w: nat, r: nat, now: nat, load: nat, runnable: nat, running: bool)
    requires InRange(w, r) && SumBounds(a, w, r) && load <= w && runnable <= r
    ensures SumBounds(UpdateSums(a, now, load, runnable, running).0, w, r)
  {
    hide Accumulate;
    hide ScaledBound;
    var delta := (now - a.lastUpdate) % TWO64;
    if delta < TWO64 / 2 && delta / 1024 != 0 {
      var a1 := a.(lastUpdate := (a.lastUpdate + delta / 1024 * 1024) % TWO64);
      AccumulateKeepsBounds(a1, w, r, delta / 1024, load,
                            if load == 0 then 0 else runnable, load != 0 && running);
    }
  }

  /** What the sums' bounds mean for the averages computed from them. */
  ghost predicate AvgBounds(a: Avg, weight: nat, w: nat, r: nat) {
    && (w == 1 ==> a.loadAvg <= weight)
    && 996 * a.loadAvg <= 997 * (weight * w)
    && 996 * a.runnableAvg <= 997 * (1024 * r)
    && a.utilAvg <= 1025
  }

  lemma ScaledAverage(x: nat, k: nat, pc: nat, weight: nat)
    requires pc < 1024 && ScaledBound(x, k, pc)
    ensures 996 * (weight * x / (PELT_MIN_DIVIDER + pc)) <= 997 * (weight * k)
  {
    var d := PELT_MIN_DIVIDER + pc;
    DivBounds(weight * x, d);
    ScaledQuotient(x, k, weight, d, weight * x / d);
  }

  lemma ScaledQuotient(x: nat, k: nat, weight: nat, d: nat, q: int)
    requires d >= PELT_MIN_DIVIDER && 8 * x <= k * (8 * d + 375) && q * d <= weight * x
    ensures 996 * q <= 997 * (weight * k)
  {
    MulMono(8 * x, k * (8 * d + 375), weight);
    assert weight * (8 * x) == 8 * (weight * x);
    assert weight * (k * (8 * d + 375)) == (weight * k) * (8 * d + 375);
    ScaledCancel(q, weight * k, d);
  }

  lemma ScaledCancel(q: int, m: nat, d: nat)
    requires d >= PELT_MIN_DIVIDER && 8 * (q * d) <= m * (8 * d + 375)
    ensures 996 * q <= 997 * m
  {
    MulMono(996 * (8 * d + 375), 997 * (8 * d), m);
    assert m * (996 * (8 * d + 375)) == 996 * (m * (8 * d + 375));
    assert m * (997 * (8 * d)) == (8 * (997 * m)) * d;
    assert 996 * (8 * (q * d)) == (8 * (996 * q)) * d;
    MulCancel(8 * (996 * q), 8 * (997 * m), d);
  }

  lemma UpdateAvgsBounds(a: Avg, weight: nat, w: nat, r: nat)
    requires SumBounds(a, w, r)
    ensures AvgBounds(UpdateAvgs(a, weight), weight, w, r)
  {
    var d := Divider(a);
    ScaledAverage(a.runnableSum, 1024 * r, a.periodContrib, 1);
    DivGe(a.utilSum, d, 1026);
    LoadAverageBounds(a.loadSum, w, a.periodContrib, weight);
  }

  lemma LoadAverageBounds(x: nat, w: nat, pc: nat, weight: nat)
    requires pc < 1024 && ScaledBound(x, w, pc) && (w == 1 ==> x <= PELT_MIN_DIVIDER + pc)
    ensures var q := weight * x % TWO64 / (PELT_MIN_DIVIDER + pc);
            996 * q <= 997 * (weight * w) && (w == 1 ==> q <= weight)
  {
    var d := PELT_MIN_DIVIDER + pc;
    ScaledAverage(x, w, pc, weight);
    hide ScaledBound;
    ModLe(weight * x);
    DivMono(weight * x % TWO64, weight * x, d);
    if w == 1 {
      MulMono(x, d, weight);
      DivMono(weight * x, weight * d, d);
      DivUnique(weight * d, d, weight);
    }
  }

  /** One call of an update function. */
  datatype Event = Event(now: nat, load: nat, runnable: nat, running: bool)

  /** The updates of one entity of a fixed weight, oldest first. */
  function Run(a: Avg, weight: nat, events: seq<Event>): (b: Avg)
    requires a.periodContrib < 1024
    ensures b.periodContrib < 1024
    decreases |events|
  {
    if events == [] then a
    else
      var e := events[|events| - 1];
      Update(Run(a, weight, events[..|events| - 1]), weight, e.now, e.load, e.runnable, e.running)
  }

  /**
   * Every history of updates, at any times, of an entity whose load stays within w and
   * whose runnable count stays within r: the sums keep their bounds, util_sum fits
   * u32, and the averages never exceed what they average. For a task (w == 1) its
   * load_avg never exceeds its weight.
   */
  lemma {:induction false} RunKeepsBounds(weight: nat, w: nat, r: nat, events: seq<Event>)
    requires InRange(w, r)
    requires forall e :: e in events ==> e.load <= w && e.runnable <= r
    ensures SumBounds(Run(ZERO_AVG, weight, events), w, r)
    ensures AvgBounds(Run(ZERO_AVG, weight, events), weight, w, r)
    ensures Run(ZERO_AVG, weight, events).utilSum <= 1024 * Divider(Run(ZERO_AVG, weight, events)) + 48000 < TWO32
    decreases |events|
  {
    hide UpdateSums;
    hide UpdateAvgs;
    if events == [] {
    } else {
      var before, e := events[..|events| - 1], events[|events| - 1];
      assert e in events;
      assert forall x :: x in before ==> x in events;
      RunKeepsBounds(weight, w, r, before);
      var a := Run(ZERO_AVG, weight, before);
      var (b, crossed) := UpdateSums(a, e.now, e.load, e.runnable, e.running);
      UpdateSumsKeepsBounds(a, w, r, e.now, e.load, e.runnable, e.running);
      UpdateAvgsBounds(b, weight, w, r);
      SameAverages(a, e.now, e.load, e.runnable, e.running);
      SameSums(b, weight);
    }
  }

  lemma SameAverages(a: Avg, now: nat, load: nat, runnable: nat, running: bool)
    requires a.periodContrib < 1024
    ensures var b := UpdateSums(a, now, load, runnable, running).0;
            b.loadAvg == a.loadAvg && b.runnableAvg == a.runnableAvg && b.utilAvg == a.utilAvg
  {}

  lemma SameSums(a: Avg, load: nat)
    ensures var b := UpdateAvgs(a, load);
            b == a.(loadAvg := b.loadAvg, runnableAvg := b.runnableAvg, utilAvg := b.utilAvg)
  {}

  /**
   * Where an update keeps every util_sum of at most 1024 times the divider within 1024 times
   * the new divider: it stays in its period, or the decays of a full sum and of what was
   * left of its period, or of the sum alone when nothing runs, make up for what is added.
   */
  predicate KeepsCapacity(pc: nat, delta: nat, running: bool)
    requires pc < 1024
  {
    var p := (delta + pc) / 1024;
    var full := 1024 * (PELT_MIN_DIVIDER + pc);
    p == 0
    || if running then KernelDecay(full, p) + 1024 * KernelDecay(1024 - pc, p) <= 1024 * KernelDecay(LOAD_AVG_MAX, p)
       else KernelDecay(full, p) <= 1024 * (PELT_MIN_DIVIDER + (delta + pc) % 1024)
  }

  /** util_sum after an update. */
  function UtilStep(x: nat, pc: nat, delta: nat, running: bool): nat
    requires pc < 1024
  {
    AddTimes(Decayed(x, (delta + pc) / 1024), if running then 1 else 0, Contribution(pc, delta) * 1024 % TWO32)
  }

  /** The bound of 1024 times the divider survives an update of every sum exactly under that condition. */
  lemma CapacityStepIff(pc: nat, delta: nat, running: bool)
    requires pc < 1024
    ensures (forall x: nat :: x <= 1024 * (PELT_MIN_DIVIDER + pc) ==>
               UtilStep(x, pc, delta, running) <= 1024 * (PELT_MIN_DIVIDER + (delta + pc) % 1024))
            <==> KeepsCapacity(pc, delta, running)
  {
    hide UtilStep;
    hide KernelDecay;
    var full := 1024 * (PELT_MIN_DIVIDER + pc);
    UtilStepValue(full, pc, delta, running);
    forall x: nat | x <= full
      ensures UtilStep(x, pc, delta, running) <= UtilStep(full, pc, delta, running)
    {
      UtilStepMonotone(x, full, pc, delta, running);
    }
  }

  /** A larger sum stays larger, and none leaves u64. */
  lemma UtilStepMonotone(x: nat, y: nat, pc: nat, delta: nat, running: bool)
    requires pc < 1024 && x <= y <= 1024 * LOAD_AVG_MAX
    ensures UtilStep(x, pc, delta, running) <= UtilStep(y, pc, delta, running)
  {
    hide KernelDecay;
    hide Contribution;
    var p := (delta + pc) / 1024;
    ContributionValue(pc, delta);
    KernelDecayMonotone(x, y, p);
    KernelDecayMonotone(y, 1024 * LOAD_AVG_MAX, p);
    KernelDecayShrinks(1024 * LOAD_AVG_MAX, p);
    UtilStepValue(x, pc, delta, running);
    UtilStepValue(y, pc, delta, running);
    hide *;
  }

  lemma KernelDecayShrinks(v: nat, n: nat)
    requires v < TWO64
    ensures KernelDecay(v, n) <= v
  {
    if n <= 2016 {
      KernelDecayForm(v, n);
      TableEntry(n % 32);
      MulShr32(Shr(v, n / 32), YN_INV[n % 32]);
    }
  }

  lemma UtilStepValue(x: nat, pc: nat, delta: nat, running: bool)
    requires pc < 1024 && x <= 1024 * LOAD_AVG_MAX
    ensures var p, d := (delta + pc) / 1024, (delta + pc) % 1024;
            UtilStep(x, pc, delta, running)
            == (if p == 0 then x else KernelDecay(x, p))
               + (if !running then 0
                  else if p == 0 then 1024 * delta
                  else 1024 * (KernelDecay(1024 - pc, p) + (PELT_MIN_DIVIDER - KernelDecay(LOAD_AVG_MAX, p)) + d))
  {
    hide KernelDecay;
    hide Contribution;
    var p := (delta + pc) / 1024;
    ContributionValue(pc, delta);
    KernelDecayShrinks(x, p);
  }

  /** What an event does at the current time, as an update of util_sum. */
  predicate EventKeepsCapacity(a: Avg, e: Event)
    requires a.periodContrib < 1024
  {
    var delta := (e.now - a.lastUpdate) % TWO64;
    delta >= TWO64 / 2 || delta / 1024 == 0 || KeepsCapacity(a.periodContrib, delta / 1024, e.load != 0 && e.running)
  }

  /** Every event of the run does so. */
  predicate RunStaysInCapacity(weight: nat, events: seq<Event>)
    decreases |events|
  {
    events == []
    || (RunStaysInCapacity(weight, events[..|events| - 1])
        && EventKeepsCapacity(Run(ZERO_AVG, weight, events[..|events| - 1]), events[|events| - 1]))
  }

  /** Over a run whose updates all meet the condition, util_avg never exceeds 1024. */
  lemma {:induction false} RunWithinCapacity(weight: nat, events: seq<Event>)
    requires RunStaysInCapacity(weight, events)
    ensures var a := Run(ZERO_AVG, weight, events);
            a.utilSum <= 1024 * Divider(a) && a.utilAvg <= 1024
    decreases |events|
  {
    hide UpdateSums;
    hide UpdateAvgs;
    hide EventKeepsCapacity;
    if events == [] {
    } else {
      var before, e := events[..|events| - 1], events[|events| - 1];
      RunWithinCapacity(weight, before);
      var a := Run(ZERO_AVG, weight, before);
      var (b, crossed) := UpdateSums(a, e.now, e.load, e.runnable, e.running);
      UpdateStaysInCapacity(a, e);
      SameAverages(a, e.now, e.load, e.runnable, e.running);
      SameSums(b, weight);
      CapacityAverage(b, weight);
    }
  }

  lemma CapacityAverage(a: Avg, weight: nat)
    requires a.utilSum <= 1024 * Divider(a)
    ensures UpdateAvgs(a, weight).utilAvg <= 1024
  {
    DivGe(a.utilSum, Divider(a), 1025);
  }

  lemma UpdateStaysInCapacity(a: Avg, e: Event)
    requires a.periodContrib < 1024 && a.utilSum <= 1024 * Divider(a) && EventKeepsCapacity(a, e)
    ensures var b := UpdateSums(a, e.now, e.load, e.runnable, e.running).0;
            b.utilSum <= 1024 * Divider(b)
  {
    hide KeepsCapacity;
    hide KernelDecay;
    hide Contribution;
    var delta := (e.now - a.lastUpdate) % TWO64;
    if delta < TWO64 / 2 && delta / 1024 != 0 {
      var running := e.load != 0 && e.running;
      CapacityStepIff(a.periodContrib, delta / 1024, running);
      var a1 := a.(lastUpdate := (a.lastUpdate + delta / 1024 * 1024) % TWO64);
      UtilSumIs(a1, delta / 1024, e.load, if e.load == 0 then 0 else e.runnable, running);
    }
  }

  lemma UtilSumIs(a: Avg, delta: nat, load: nat, runnable: nat, running: bool)
    requires a.periodContrib < 1024 && (load == 0 ==> !running)
    ensures var b := Accumulate(a, delta, load, runnable, running).0;
            && b.utilSum == UtilStep(a.utilSum, a.periodContrib, delta, running)
            && b.periodContrib == (delta + a.periodContrib) % 1024
  {
    hide Contribution;
    hide Decayed;
  }

  /** A task that first runs for 44 units of a period and is then updated once a period. */
  function SteadyEvents(k: nat): seq<Event> {
    seq(k + 1, i requires i >= 0 => Event((44 + 1024 * i) * 1024, 1, 1, true))
  }

  /** util_sum one period later, at position 44 of the period. */
  function SteadyStep(u: nat): nat {
    u * 0xfa83b2da / TWO32 + 1003 * 1024
  }

  const STEADY_TARGET: nat := 1025 * (PELT_MIN_DIVIDER + 44)

  lemma SteadyStepGrows(u: nat)
    ensures u < STEADY_TARGET ==> u < SteadyStep(u)
    ensures u >= STEADY_TARGET ==> SteadyStep(u) >= STEADY_TARGET
  {
    DivGe(u * 0xfa83b2da, TWO32, u - 1027071);
    DivGe(u * 0xfa83b2da, TWO32, STEADY_TARGET - 1027072);
  }

  lemma OnePeriod(v: nat)
    requires v < TWO64
    ensures KernelDecay(v, 1) == v * 0xfa83b2da / TWO32
  {
    KernelDecayForm(v, 1);
    assert Shr(v, 0) == v;
  }

  lemma SegmentsAt980()
    ensures Contribution(44, 1024) == 1003
  {
    hide KernelDecay;
    OnePeriod(980);
    OnePeriod(LOAD_AVG_MAX);
  }

  lemma FirstUpdate(weight: nat)
    ensures var b := Update(ZERO_AVG, weight, 44 * 1024, 1, 1, true);
            b.periodContrib == 44 && b.lastUpdate == 44 * 1024
  {
    hide AddTimes;
    hide Decayed;
    hide Contribution;
    assert (44 * 1024 - 0) % TWO64 == 44 * 1024;
    var a1 := ZERO_AVG.(lastUpdate := 44 * 1024);
    var (b, p) := Accumulate(a1, 44, 1, 1, true);
    assert p == 0 && b.periodContrib == 44;
    assert UpdateSums(ZERO_AVG, 44 * 1024, 1, 1, true) == (b, false);
  }

  /** One steady update of a state at position 44. */
  lemma SteadyUpdate(a: Avg, weight: nat, i: nat)
    requires 0 < i < TWO32 && a.periodContrib == 44 && a.lastUpdate == (44 + 1024 * (i - 1)) * 1024
    requires a.utilSum < TWO32
    ensures var b := Update(a, weight, (44 + 1024 * i) * 1024, 1, 1, true);
            b.periodContrib == 44 && b.lastUpdate == (44 + 1024 * i) * 1024
            && b.utilSum == SteadyStep(a.utilSum)
            && b.utilAvg == b.utilSum / (PELT_MIN_DIVIDER + 44)
  {
    hide KernelDecay;
    hide Contribution;
    SegmentsAt980();
    OnePeriod(a.utilSum);
    DivGe(a.utilSum * 0xfa83b2da, TWO32, a.utilSum + 1);
    var now := (44 + 1024 * i) * 1024;
    assert (now - a.lastUpdate) % TWO64 == 1024 * 1024;
    var a1 := a.(lastUpdate := now);
    var (b, p) := Accumulate(a1, 1024, 1, 1, true);
    assert UpdateSums(a, now, 1, 1, true) == (b, true);
  }

  lemma {:induction false} SteadyRun(weight: nat, k: nat)
    requires k < TWO32
    ensures var a := Run(ZERO_AVG, weight, SteadyEvents(k));
            a.periodContrib == 44 && a.lastUpdate == (44 + 1024 * k) * 1024
            && a.utilSum >= Min(k, STEADY_TARGET) && a.utilSum < TWO32
            && (k > 0 ==> a.utilAvg == a.utilSum / (PELT_MIN_DIVIDER + 44))
  {
    hide Update;
    var evs := SteadyEvents(k);
    RunKeepsBounds(weight, 1, 1, evs);
    if k == 0 {
      FirstUpdate(weight);
      assert evs[..0] == [];
      assert Run(ZERO_AVG, weight, []) == ZERO_AVG;
    } else {
      assert evs[..k] == SteadyEvents(k - 1);
      SteadyRun(weight, k - 1);
      var a := Run(ZERO_AVG, weight, SteadyEvents(k - 1));
      SteadyUpdate(a, weight, k);
      SteadyStepGrows(a.utilSum);
    }
  }

  /** An update once a period at position 44 does not meet the condition. */
  lemma SteadyStepOverruns()
    ensures !KeepsCapacity(44, 1024, true)
  {
    hide KernelDecay;
    OnePeriod(1024 * (PELT_MIN_DIVIDER + 44));
    OnePeriod(980);
    OnePeriod(LOAD_AVG_MAX);
  }

  /** The bound of 1025 on util_avg is sharp: 1024 does not hold of the code. */
  lemma UtilAverageReaches1025(weight: nat, k: nat)
    requires STEADY_TARGET <= k < TWO32
    ensures Run(ZERO_AVG, weight, SteadyEvents(k)).utilAvg == 1025
    ensures !KeepsCapacity(44, 1024, true)
  {
    SteadyStepOverruns();
    SteadyRun(weight, k);
    RunKeepsBounds(weight, 1, 1, SteadyEvents(k));
    DivGe(Run(ZERO_AVG, weight, SteadyEvents(k)).utilSum, PELT_MIN_DIVIDER + 44, 1025);
  }
}

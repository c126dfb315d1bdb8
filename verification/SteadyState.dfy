/**
 * Where the loads of the exact and the BSA tick settle, and when the clamp of the
 * load average can act.
 */
module SteadyState {
  import opened Arithmetic
  import opened Constants
  import opened Charge
  import opened RunQueue
  import opened LoadTrajectory

  /** k ticks of a task that is always runnable. */
  function Always(k: nat): seq<bool> {
    seq(k, i requires 0 <= i < k => true)
  }

  /** k ticks of a blocked task. */
  function Never(k: nat): seq<bool> {
    seq(k, i requires 0 <= i < k => false)
  }

  lemma AlwaysStep(mode: Mode, w: nat, load: nat, k: nat)
    requires k > 0
    ensures LoadAfter(mode, w, load, Always(k)) == TickDecay(mode, Medium, LoadAfter(mode, w, load, Always(k - 1))) + w
  {
    hide TickDecay;
    assert Always(k)[..k - 1] == Always(k - 1);
  }

  lemma NeverStep(mode: Mode, w: nat, load: nat, k: nat)
    requires k > 0
    ensures LoadAfter(mode, w, load, Never(k)) == TickDecay(mode, Medium, LoadAfter(mode, w, load, Never(k - 1)))
  {
    hide TickDecay;
    assert Never(k)[..k - 1] == Never(k - 1);
  }

  /** Whatever its history, a BSA load that starts empty never exceeds 32 times the weight. */
  lemma {:induction false} BsaNeverExceeds(w: nat, flags: seq<bool>)
    ensures LoadAfter(Bsa, w, 0, flags) <= 32 * w
  {
    hide TickDecay;
    if flags == [] {
    } else {
      BsaNeverExceeds(w, flags[..|flags| - 1]);
      BsaTick(LoadAfter(Bsa, w, 0, flags[..|flags| - 1]));
    }
  }

  /** The BSA load of an always-runnable task gains at least one per tick until it is full. */
  lemma {:induction false} BsaFills(w: nat, k: nat)
    ensures Min(k, 32 * w) <= LoadAfter(Bsa, w, 0, Always(k)) <= 32 * w
  {
    hide TickDecay;
    BsaNeverExceeds(w, Always(k));
    if k == 0 {
    } else {
      BsaFills(w, k - 1);
      AlwaysStep(Bsa, w, 0, k);
      BsaTick(LoadAfter(Bsa, w, 0, Always(k - 1)));
    }
  }

  /** BSA reaches exactly 32 times the weight within 32 * w ticks and stays there. */
  lemma BsaSteadyState(w: nat, k: nat)
    requires k >= 32 * w
    ensures LoadAfter(Bsa, w, 0, Always(k)) == 32 * w
  {
    BsaFills(w, k);
  }

  /** A positive BSA load never decays to zero, however long the task is blocked. */
  lemma {:induction false} BlockedBsaStaysPositive(w: nat, load: nat, k: nat)
    ensures LoadAfter(Bsa, w, load, Never(k)) >= Min(load, 31)
  {
    hide TickDecay;
    if k == 0 {
    } else {
      BlockedBsaStaysPositive(w, load, k - 1);
      NeverStep(Bsa, w, load, k);
      BsaTick(LoadAfter(Bsa, w, load, Never(k - 1)));
    }
  }

  /** A blocked exact load loses at least one per tick until it is zero. */
  lemma {:induction false} BlockedExactDrains(w: nat, load: nat, k: nat)
    requires load < TWO64
    ensures LoadAfter(Exact, w, load, Never(k)) <= (if k < load then load - k else 0)
  {
    hide TickDecay;
    if k == 0 {
    } else {
      BlockedExactDrains(w, load, k - 1);
      NeverStep(Exact, w, load, k);
      ExactTick(LoadAfter(Exact, w, load, Never(k - 1)));
    }
  }

  lemma BlockedExactReachesZero(w: nat, load: nat, k: nat)
    requires load < TWO64 && k >= load
    ensures LoadAfter(Exact, w, load, Never(k)) == 0
  {
    BlockedExactDrains(w, load, k);
  }

  /** Up to nice 0, no history takes the exact load above LOAD_AVG_MAX. */
  lemma {:induction false} ExactNeverExceeds(w: nat, flags: seq<bool>)
    requires w <= NICE_0_LOAD
    ensures LoadAfter(Exact, w, 0, flags) <= LOAD_AVG_MAX
  {
    hide TickDecay;
    if flags == [] {
    } else {
      ExactNeverExceeds(w, flags[..|flags| - 1]);
      ExactTick(LoadAfter(Exact, w, 0, flags[..|flags| - 1]));
    }
  }

  /** From w on, the exact load gains at least one per tick until it reaches the target. */
  lemma {:induction false} ExactFills(w: nat, target: nat, k: nat)
    requires (w == NICE_0_LOAD && target == LOAD_AVG_MAX) || (NICE_0_LOAD < w < TWO32 && target == LOAD_AVG_MAX + 47)
    ensures Min(k, target) <= LoadAfter(Exact, w, 0, Always(k)) < 50 * TWO32
  {
    hide TickDecay;
    if k == 0 {
    } else {
      ExactFills(w, target, k - 1);
      AlwaysStep(Exact, w, 0, k);
      ExactTick(LoadAfter(Exact, w, 0, Always(k - 1)));
    }
  }

  /** The exact load of an always-runnable nice-0 task reaches exactly LOAD_AVG_MAX and stays. */
  lemma ExactSteadyState(k: nat)
    requires k >= LOAD_AVG_MAX
    ensures LoadAfter(Exact, NICE_0_LOAD, 0, Always(k)) == LOAD_AVG_MAX
  {
    ExactFills(NICE_0_LOAD, LOAD_AVG_MAX, k);
    ExactNeverExceeds(NICE_0_LOAD, Always(k));
  }

  /** LOAD_AVG_MAX is the least load that one tick of a nice-0 task leaves unchanged. */
  lemma LeastFixedPoint(v: nat)
    requires v < TWO64 && TickDecay(Exact, Medium, v) + NICE_0_LOAD == v
    ensures v >= LOAD_AVG_MAX
  {
    hide TickDecay;
    ExactTick(v);
  }

  /** The clamp of load_avg to the weight acts after some history of the task. */
  ghost predicate ClampActs(w: nat) {
    exists flags: seq<bool> :: RawLoadAvg(w, LoadAfter(Exact, w, 0, flags)) > w
  }

  /** The clamp of the exact load_avg is dead code up to nice 0, and acts for every heavier u32 weight. */
  lemma ClampActsOnlyAboveNiceZero(w: nat)
    requires w < TWO32
    ensures ClampActs(w) <==> w > NICE_0_LOAD
  {
    hide LoadAfter;
    if w <= NICE_0_LOAD {
      forall flags: seq<bool>
        ensures RawLoadAvg(w, LoadAfter(Exact, w, 0, flags)) <= w
      {
        var load := LoadAfter(Exact, w, 0, flags);
        ExactNeverExceeds(w, flags);
        MulMono(load, LOAD_AVG_MAX, w);
        DivMono(w * load, w * LOAD_AVG_MAX, LOAD_AVG_MAX);
        DivUnique(w * LOAD_AVG_MAX, LOAD_AVG_MAX, w);
      }
    } else {
      var k := LOAD_AVG_MAX + 47;
      var load := LoadAfter(Exact, w, 0, Always(k));
      ExactFills(w, k, k);
      MulMono(LOAD_AVG_MAX + 47, load, w);
      DivGe(w * load, LOAD_AVG_MAX, w + 1);
    }
  }
}

/**
 * What one step of bandwidth control gives a queue and takes from the pool, and what
 * follows for whole runs: no queue hoards more than a slice, a queue is throttled only when
 * the pool is dry, and the burst statistics count what was spent beyond the quota.
 */
module BandwidthSteps {
  import opened Lists
  import opened Bandwidth

  /** Only queue i, the pool and what the other arguments name can differ. */
  ghost predicate OnlyQueue(g: Group, g': Group, i: nat, executed: nat) {
    && i < |g.locals| == |g'.locals|
    && (forall j: nat :: j < |g.locals| && j != i ==> g'.locals[j] == g.locals[j])
    && g' == g.(pool := g'.pool, idle := g'.idle, locals := g'.locals, throttledList := g'.throttledList,
                executed := g.executed + executed)
  }

  /**
   * Accounting d executed nanoseconds of a limited group. A queue that still has runtime, or is
   * throttled, is docked and no more. Any other ends with a full slice s or with all the pool
   * had, and taking from the pool marks the group as active.
   */
  lemma AccountOutcome(g: Group, i: nat, d: nat, s: nat)
    requires i < |g.locals| && g.quota != RUNTIME_INF
    ensures var g', r := Step(g, DoAccount(i, d, s)), g.locals[i].remaining - d;
            && OnlyQueue(g, g', i, d) && g'.throttledList == g.throttledList
            && g'.locals[i].throttled == g.locals[i].throttled
            && (r > 0 || g.locals[i].throttled ==>
                 g'.locals[i].remaining == r && g'.pool == g.pool && g'.idle == g.idle)
            && (r <= 0 && !g.locals[i].throttled ==>
                 && g'.locals[i].remaining == (if s <= r + g.pool then s else r + g.pool)
                 && (g'.locals[i].remaining == s || g'.pool == 0)
                 && g'.pool + g'.locals[i].remaining == g.pool + r
                 && g'.idle == (g.idle && g.pool == 0))
  {}

  /** In a group without a limit the queue always gets its slice, and the pool is not touched. */
  lemma UnlimitedAccount(g: Group, i: nat, d: nat, s: nat)
    requires i < |g.locals| && g.quota == RUNTIME_INF
    ensures var g', r := Step(g, DoAccount(i, d, s)), g.locals[i].remaining - d;
            && OnlyQueue(g, g', i, d) && g'.pool == g.pool && g'.idle == g.idle
            && g'.throttledList == g.throttledList
            && g'.locals[i] == Local(if r <= 0 && !g.locals[i].throttled then s else r, g.locals[i].throttled)
  {}

  /**
   * A queue without runtime is throttled exactly when the pool cannot lift it above zero; then it
   * has taken all there was. Otherwise it goes on with a single nanosecond.
   */
  lemma ThrottleOutcome(g: Group, i: nat)
    requires i < |g.locals| && g.locals[i].remaining <= 0 && !g.locals[i].throttled && g.quota != RUNTIME_INF
    ensures var g', r := Step(g, DoThrottle(i)), g.locals[i].remaining;
            && OnlyQueue(g, g', i, 0)
            && (g'.locals[i].throttled <==> r + g.pool <= 0)
            && g'.locals[i].remaining == (if r + g.pool <= 0 then r + g.pool else 1)
            && g'.pool == (if r + g.pool <= 0 then 0 else g.pool + r - 1)
            && g'.throttledList == g.throttledList + (if r + g.pool <= 0 then [i] else [])
            && g'.idle == (g.idle && g.pool == 0)
  {}

  /** A queue with runtime, or one that is throttled already, is left alone. */
  lemma NothingToThrottle(g: Group, i: nat)
    requires i < |g.locals| && (g.locals[i].remaining > 0 || g.locals[i].throttled)
    ensures Step(g, DoThrottle(i)) == g
  {}

  /** A queue that has run empty keeps at most one millisecond and returns the rest. */
  lemma ReturnOutcome(g: Group, i: nat)
    requires i < |g.locals|
    ensures var g', r := Step(g, DoReturn(i)), g.locals[i].remaining;
            && OnlyQueue(g, g', i, 0) && g'.throttledList == g.throttledList && g'.idle == g.idle
            && g'.locals[i] == Local(if r <= 1_000_000 then r else 1_000_000, g.locals[i].throttled)
            && (g.quota != RUNTIME_INF ==> g'.pool + g'.locals[i].remaining == g.pool + r)
            && (g.quota == RUNTIME_INF ==> g'.pool == g.pool)
  {
    var g' := Step(g, DoReturn(i));
    if g.locals[i].remaining <= MIN_CFS_RQ_RUNTIME {
      assert g' == g;
    }
  }

  /**
   * The burst statistics: the period that ends spent snap - pool. What of it exceeds the quota was
   * burst, and only then does the period count as one with a burst.
   */
  lemma RefillOutcome(g: Group)
    requires g.quota != RUNTIME_INF
    ensures var g', spent := Step(g, DoRefill), g.snap - g.pool;
            && g' == g.(pool := g'.pool, snap := g'.pool, burstTime := g'.burstTime, nrBurst := g'.nrBurst)
            && (g'.pool == g.pool + g.quota || g'.pool == g.quota + g.burst)
            && g'.pool <= g.pool + g.quota && g'.pool <= g.quota + g.burst
            && g'.burstTime - g.burstTime == (if spent > g.quota then spent - g.quota else 0)
            && g'.nrBurst - g.nrBurst == (if spent > g.quota then 1 else 0)
  {}

  /** The snapshot never exceeds what a refill leaves, and each burst spent at most the burst limit. */
  ghost predicate BurstBounded(g: Group) {
    g.snap <= g.quota + g.burst && g.burstTime <= g.nrBurst * g.burst
  }

  lemma StepKeepsBurst(g: Group, a: Action)
    requires BurstBounded(g) && g.quota != RUNTIME_INF
    ensures BurstBounded(Step(g, a)) && Step(g, a).quota == g.quota && Step(g, a).burst == g.burst
    ensures Step(g, a).nrBurst <= g.nrBurst + if a.DoRefill? then 1 else 0
  {
    if a.DoRefill? {
      RefillOutcome(g);
      assert (g.nrBurst + 1) * g.burst == g.nrBurst * g.burst + g.burst;
    }
  }

  /** Over every run burst_time is at most nr_burst times the burst, and bursts are among the refills. */
  lemma {:induction false} BurstOfRun(g: Group, actions: seq<Action>)
    requires BurstBounded(g) && g.quota != RUNTIME_INF
    ensures var g' := RunActions(g, actions);
            && BurstBounded(g') && g'.quota == g.quota && g'.burst == g.burst
            && g'.nrBurst <= g.nrBurst + Refills(actions)
  {
    hide Step;
    hide BurstBounded;
    if actions == [] {
    } else {
      BurstOfRun(g, actions[..|actions| - 1]);
      StepKeepsBurst(RunActions(g, actions[..|actions| - 1]), actions[|actions| - 1]);
    }
  }

  /** No queue holds more than s. */
  ghost predicate AtMostSlice(g: Group, s: nat) {
    forall i: nat :: i < |g.locals| ==> g.locals[i].remaining <= s
  }

  lemma StepKeepsSlice(g: Group, a: Action, s: nat)
    requires AtMostSlice(g, s) && Consistent(g) && s >= 1 && (a.DoAccount? ==> a.slice <= s)
    ensures AtMostSlice(Step(g, a), s)
  {
    hide Distinct;
  }

  /**
   * Over every interleaving no CPU hoards more than the largest slice it could be given: what is
   * not with some queue stays in the pool for the others.
   */
  lemma {:induction false} NoQueueHoards(g: Group, actions: seq<Action>, s: nat)
    requires AtMostSlice(g, s) && Consistent(g) && s >= 1
    requires forall a :: a in actions && a.DoAccount? ==> a.slice <= s
    ensures AtMostSlice(RunActions(g, actions), s) && Consistent(RunActions(g, actions))
  {
    hide Step;
    hide AtMostSlice;
    hide Consistent;
    if actions == [] {
    } else {
      var before, a := actions[..|actions| - 1], actions[|actions| - 1];
      assert a in actions && forall x :: x in before ==> x in actions;
      NoQueueHoards(g, before, s);
      StepKeepsSlice(RunActions(g, before), a, s);
      StepKeepsConsistent(RunActions(g, before), a);
    }
  }

  /** A group without a limit. */
  ghost predicate NeverThrottled(g: Group) {
    g.quota == RUNTIME_INF && g.throttledList == [] && forall i: nat :: i < |g.locals| ==> !g.locals[i].throttled
  }

  lemma StepKeepsUnthrottled(g: Group, a: Action)
    requires NeverThrottled(g)
    ensures NeverThrottled(Step(g, a)) && Step(g, a).pool == g.pool
  {
    if !a.DoRefill? && a.cpu < |g.locals| {
      match a {
        case DoAccount(i, d, s) => UnlimitedAccount(g, i, d, s);
        case _ =>
      }
    }
  }

  /** No queue of an unlimited group is ever throttled, and its pool stays as it is. */
  lemma {:induction false} UnlimitedRun(g: Group, actions: seq<Action>)
    requires NeverThrottled(g)
    ensures NeverThrottled(RunActions(g, actions)) && RunActions(g, actions).pool == g.pool
  {
    hide Step;
    hide NeverThrottled;
    if actions == [] {
    } else {
      UnlimitedRun(g, actions[..|actions| - 1]);
      StepKeepsUnthrottled(RunActions(g, actions[..|actions| - 1]), actions[|actions| - 1]);
    }
  }
}

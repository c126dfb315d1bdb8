/** The load_sum of a task over whole runs: the CLTI and the APAF trajectory against the exact one. */
module LoadTrajectory {
  import opened Arithmetic
  import opened Constants
  import opened Decay
  import opened Charge
  import opened ApproxDecay
  import opened RunQueue
  import opened Fairness

  /** load_sum of a task of weight w after ticks at which it was runnable or not. */
  function LoadAfter(mode: Mode, w: nat, load: nat, flags: seq<bool>): nat {
    if flags == [] then load
    else
      TickDecay(mode, Medium, LoadAfter(mode, w, load, flags[..|flags| - 1]))
      + if flags[|flags| - 1] then w else 0
  }

  /** The flags of task i in a history. */
  ghost function Column(history: seq<seq<bool>>, i: nat): (flags: seq<bool>)
    requires forall k :: 0 <= k < |history| ==> i < |history[k]|
    ensures |flags| == |history|
  {
    seq(|history|, k requires 0 <= k < |history| => history[k][i])
  }

  /** Some task is runnable at every tick. */
  ghost predicate Busy(history: seq<seq<bool>>) {
    forall k :: 0 <= k < |history| ==> true in history[k]
  }

  /**
   * In a run the load of each task depends on its own flags alone, in the approximate
   * modes as long as no tick returns early.
   */
  lemma {:induction false} LoadOfRun(mode: Mode, s: State, history: seq<seq<bool>>, i: nat)
    requires mode != Apaf && (mode == Exact || Busy(history))
    requires History(history, |s.tasks|) && i < |s.tasks|
    ensures RunWith(mode, s, history).tasks[i].loadSum
         == LoadAfter(mode, s.tasks[i].weight, s.tasks[i].loadSum, Column(history, i))
    ensures RunWith(mode, s, history).tasks[i].weight == s.tasks[i].weight
    decreases |history|
  {
    hide Tick;
    hide TickDecay;
    if history == [] {
    } else {
      HistoryPrefix(history, |s.tasks|);
      var prefix, flags := history[..|history| - 1], history[|history| - 1];
      LoadOfRun(mode, s, prefix, i);
      assert Column(history, i)[..|history| - 1] == Column(prefix, i);
      var before := RunWith(mode, s, prefix);
      var woken := before.(tasks := SetRunnable(before.tasks, flags));
      TickEffect(mode, woken, i);
      WokenPick(before.tasks, flags);
      TickLoad(mode, woken, i);
    }
  }

  lemma TickLoad(mode: Mode, s: State, i: nat)
    requires mode != Apaf && (mode == Exact || PickNext(s.tasks) != -1) && i < |s.tasks|
    ensures |Tick(mode, s).tasks| == |s.tasks|
    ensures Tick(mode, s).tasks[i].loadSum
         == TickDecay(mode, Medium, s.tasks[i].loadSum) + if s.tasks[i].runnable then s.tasks[i].weight else 0
  {
    hide ExactDecay;
    hide BsaDecay;
    hide CltiDecay;
    hide TickCharge;
  }

  /** One period of the exact decay. */
  lemma ExactTick(v: nat)
    requires v < TWO64
    ensures TickDecay(Exact, Medium, v) == v * 4202935002 / 4294967296
  {
    ExactOnePeriod(v);
  }

  /** One period of the BSA decay. */
  lemma BsaTick(v: nat)
    ensures TickDecay(Bsa, Medium, v) == v - v / 32
  {
    assert Shr(v, 0) == v;
    assert BsaRounds(v, 0) == v && BsaRounds(v, 1) == v - v / 32;
  }

  /** One period of the CLTI decay: a quarter of the way to the entry of four periods. */
  lemma CltiTick(v: nat)
    requires v < TWO64
    ensures TickDecay(Clti, Medium, v) == v - (v - v * 30048 / 32768) / 4
  {
    assert Shr(v, 0) == v;
    MulShr15(v, 32768);
    MulShr15(v, 30048);
    DivUnique(v * 32768, 32768, v);
    hide MulShr;
    DivGe(v * 30048, 32768, 0);
  }

  /** From above: the CLTI load never exceeds 48.19 times the weight, plus 37. */
  lemma CltiLoadStep(c: nat, w: nat, added: nat)
    requires 85 * c <= 4096 * w + 3145 && added <= w
    ensures 85 * (c - (c - c * 30048 / 32768) / 4 + added) <= 4096 * w + 3145
  {}

  /** One tick of both trajectories. */
  lemma ExcessStep(c: nat, e: nat, w: nat)
    requires e <= c && 85 * c <= 4096 * w + 3145 && 100 * (c - e) <= 153 * w + 8300
    ensures var c', e' := c - (c - c * 30048 / 32768) / 4, e * 4202935002 / 4294967296;
            e' <= c' && 100 * (c' - e') <= 153 * w + 8300
  {}

  /** A u32 weight keeps every load sum far from the limits of u64. */
  lemma {:induction false} CltiAgainstExact(w: nat, flags: seq<bool>)
    requires w < TWO32
    ensures var c, e := LoadAfter(Clti, w, 0, flags), LoadAfter(Exact, w, 0, flags);
            e <= c && 85 * c <= 4096 * w + 3145 && 100 * (c - e) <= 153 * w + 8300
  {
    hide TickDecay;
    if flags == [] {
    } else {
      var before := flags[..|flags| - 1];
      CltiAgainstExact(w, before);
      var c, e := LoadAfter(Clti, w, 0, before), LoadAfter(Exact, w, 0, before);
      CltiTick(c);
      ExactTick(e);
      CltiLoadStep(c, w, if flags[|flags| - 1] then w else 0);
      ExcessStep(c, e, w);
    }
  }

  /**
   * Over any run from empty loads in which no tick is idle, every task's CLTI load_sum is
   * at least the exact one and exceeds it by at most 1.53 times the weight, plus 83.
   */
  lemma CltiRunAgainstExact(s: State, history: seq<seq<bool>>, i: nat)
    requires History(history, |s.tasks|) && Busy(history) && i < |s.tasks|
    requires s.tasks[i].loadSum == 0 && s.tasks[i].weight < TWO32
    ensures var c, e := RunWith(Clti, s, history).tasks[i].loadSum, RunWith(Exact, s, history).tasks[i].loadSum;
            e <= c && 100 * (c - e) <= 153 * s.tasks[i].weight + 8300
  {
    hide RunWith;
    hide LoadAfter;
    LoadOfRun(Clti, s, history, i);
    LoadOfRun(Exact, s, history, i);
    CltiAgainstExact(s.tasks[i].weight, Column(history, i));
  }

  /** load_sum under APAF, for a controller in the given state at each tick. */
  function ApafLoadAfter(w: nat, load: nat, flags: seq<bool>, states: seq<ApafState>): nat
    requires |states| == |flags|
    decreases |flags|
  {
    if flags == [] then load
    else
      var n := |flags| - 1;
      TickDecay(Apaf, states[n], ApafLoadAfter(w, load, flags[..n], states[..n])) + if flags[n] then w else 0
  }

  /** The controller's state at each tick of a run. */
  ghost function ControllerStates(s: State, history: seq<seq<bool>>): (states: seq<ApafState>)
    requires History(history, |s.tasks|)
    ensures |states| == |history|
    decreases |history|
  {
    if history == [] then []
    else
      var before := history[..|history| - 1];
      ControllerStates(s, before) + [RunWith(Apaf, s, before).apafState]
  }

  /** In an APAF run the load of each task depends on its own flags and on the controller. */
  lemma {:induction false} ApafLoadOfRun(s: State, history: seq<seq<bool>>, i: nat)
    requires Busy(history) && History(history, |s.tasks|) && i < |s.tasks|
    ensures RunWith(Apaf, s, history).tasks[i].loadSum
         == ApafLoadAfter(s.tasks[i].weight, s.tasks[i].loadSum, Column(history, i), ControllerStates(s, history))
    ensures RunWith(Apaf, s, history).tasks[i].weight == s.tasks[i].weight
    decreases |history|
  {
    hide Tick;
    hide TickDecay;
    if history == [] {
    } else {
      HistoryPrefix(history, |s.tasks|);
      var prefix, flags := history[..|history| - 1], history[|history| - 1];
      ApafLoadOfRun(s, prefix, i);
      assert Column(history, i)[..|history| - 1] == Column(prefix, i);
      assert ControllerStates(s, history)[..|history| - 1] == ControllerStates(s, prefix);
      var before := RunWith(Apaf, s, prefix);
      var woken := before.(tasks := SetRunnable(before.tasks, flags));
      TickEffect(Apaf, woken, i);
      WokenPick(before.tasks, flags);
      ApafTickLoad(woken, i);
    }
  }

  lemma ApafTickLoad(s: State, i: nat)
    requires PickNext(s.tasks) != -1 && i < |s.tasks|
    ensures |Tick(Apaf, s).tasks| == |s.tasks|
    ensures Tick(Apaf, s).tasks[i].loadSum
         == TickDecay(Apaf, s.apafState, s.tasks[i].loadSum) + if s.tasks[i].runnable then s.tasks[i].weight else 0
  {
    hide ApafDecay;
    hide TickCharge;
  }

  /** One period of APAF, in any state, lies between the MEDIUM polynomial and the exact table. */
  lemma ApafTick(v: nat, state: ApafState)
    ensures 1000000000 * (TickDecay(Apaf, state, v) + 1) > 977419987 * v
    ensures TickDecay(Apaf, state, v) * 4294967295 <= v * 4202935002
  {
    assert Shr(v, 0) == v;
    ApafFactorOfOne(state);
    var f := ApafFactor(1, state);
    var r := ScaledLoad(v, f);
    hide ScaledLoad;
    hide ApafFactor;
    ScaleBetween(v as real, 977419987.0 / 1000000000.0, f, 4202935002.0 / 4294967295.0);
  }

  lemma ApafFactorOfOne(state: ApafState)
    ensures 977419987.0 / 1000000000.0 <= ApafFactor(1, state) <= 4202935002.0 / 4294967295.0
  {}

  lemma ScaleBetween(v: real, a: real, f: real, b: real)
    requires 0.0 <= v && a <= f <= b
    ensures v * a <= v * f <= v * b
  {}

  /** From above: whatever the state, no more than the exact load and one unit. */
  lemma ApafNotAbove(a: nat, e: nat, d: nat, w: nat)
    requires a <= e + 1 && d * 4294967295 <= a * 4202935002 && 1000 * e <= 46669 * w && w < 0x10_0000
    ensures d <= e * 4202935002 / 4294967296 + 1
  {}

  /** From below: what MEDIUM loses in the long run. */
  lemma ApafNotFarBelow(a: nat, e: nat, d: nat, w: nat)
    requires 5 * (e - a) <= 12 * w + 225 && 1000000000 * (d + 1) > 977419987 * a && 1000 * e <= 46669 * w
    ensures 5 * (e * 4202935002 / 4294967296 - d) <= 12 * w + 225
  {}

  lemma ExactLoadStep(e: nat, w: nat, added: nat)
    requires 1000 * e <= 46669 * w && added <= w
    ensures 1000 * (e * 4202935002 / 4294967296 + added) <= 46669 * w
  {}

  /** The exact load against APAF under every sequence of controller states. */
  lemma {:induction false} ApafAgainstExact(w: nat, flags: seq<bool>, states: seq<ApafState>)
    requires |states| == |flags| && w < TWO32
    ensures var a, e := ApafLoadAfter(w, 0, flags, states), LoadAfter(Exact, w, 0, flags);
            && 1000 * e <= 46669 * w && 5 * (e - a) <= 12 * w + 225
            && (w < 0x10_0000 ==> a <= e + 1)
    decreases |flags|
  {
    hide TickDecay;
    if flags == [] {
    } else {
      var n := |flags| - 1;
      ApafAgainstExact(w, flags[..n], states[..n]);
      var a, e := ApafLoadAfter(w, 0, flags[..n], states[..n]), LoadAfter(Exact, w, 0, flags[..n]);
      var d := TickDecay(Apaf, states[n], a);
      ExactTick(e);
      ApafTick(a, states[n]);
      ExactLoadStep(e, w, if flags[n] then w else 0);
      ApafNotFarBelow(a, e, d, w);
      if w < 0x10_0000 {
        ApafNotAbove(a, e, d, w);
      }
    }
  }

  /**
   * Over any run from empty loads in which no tick is idle, whatever the controller does, every
   * task's APAF load_sum is within one unit above and 2.4 times the weight plus 45 below the
   * exact one.
   */
  lemma ApafRunAgainstExact(s: State, history: seq<seq<bool>>, i: nat)
    requires History(history, |s.tasks|) && Busy(history) && i < |s.tasks|
    requires s.tasks[i].loadSum == 0 && s.tasks[i].weight < TWO32
    ensures var w := s.tasks[i].weight;
            var a, e := RunWith(Apaf, s, history).tasks[i].loadSum, RunWith(Exact, s, history).tasks[i].loadSum;
            5 * (e - a) <= 12 * w + 225 && (w < 0x10_0000 ==> a <= e + 1)
  {
    hide RunWith;
    hide LoadAfter;
    hide ApafLoadAfter;
    ApafLoadOfRun(s, history, i);
    LoadOfRun(Exact, s, history, i);
    ApafAgainstExact(s.tasks[i].weight, Column(history, i), ControllerStates(s, history));
  }
}

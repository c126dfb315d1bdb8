/**
 * The hysteresis of the APAF controller: how often it can move, over any sequence of
 * sampled fairness indices and over any run of the scheduler.
 */
module Hysteresis {
  import opened Arithmetic
  import opened Charge
  import opened Jain
  import opened RunQueue
  import opened Fairness
  import opened ClosedLoop

  /** The state after a sequence of samples, oldest first. */
  function StateAfter(s: ApafState, js: seq<real>): ApafState {
    if js == [] then s else NextState(StateAfter(s, js[..|js| - 1]), Ratio(js[|js| - 1]))
  }

  /** How many of the samples changed the state. */
  function Transitions(s: ApafState, js: seq<real>): nat {
    if js == [] then 0
    else Transitions(s, js[..|js| - 1]) + if StateAfter(s, js) != StateAfter(s, js[..|js| - 1]) then 1 else 0
  }

  /** Total variation of the samples. */
  function Variation(js: seq<real>): (v: real)
    ensures v >= 0.0
  {
    if |js| < 2 then 0.0
    else Variation(js[..|js| - 1]) + AbsReal(js[|js| - 1] - js[|js| - 2])
  }

  /** The direction of the last transition. */
  datatype Direction = NoneYet | Up | Down

  /**
   * What a history of samples leaves behind: after some reversals of direction the
   * last transition, at the sample value `at`, went in direction dir; each reversal has used up
   * 0.04 of variation, and a run in one direction has at most two transitions.
   */
  ghost predicate Tracked(s: ApafState, js: seq<real>, reversals: nat, dir: Direction, at: real) {
    TrackedAt(Looseness(StateAfter(s, js)), Transitions(s, js), Variation(js), js != [],
              if js == [] then 0.0 else js[|js| - 1], reversals, dir, at)
  }

  /** The same, of the level, the transitions, the variation and the last sample, if any. */
  ghost predicate TrackedAt(level: nat, c: nat, v: real, any: bool, last: real,
                            reversals: nat, dir: Direction, at: real)
  {
    match dir
    case NoneYet => c == 0 && reversals == 0
    case Up =>
      && any && (level == 1 || level == 2) && c <= 2 * reversals + level
      && at > (if level == 1 then 0.95 else 0.97)
      && v >= 0.04 * reversals as real + AbsReal(last - at)
    case Down =>
      && any && (level == 0 || level == 1) && c <= 2 * reversals + (2 - level)
      && at < (if level == 1 then 0.93 else 0.90)
      && v >= 0.04 * reversals as real + AbsReal(last - at)
  }

  /** One more sample. */
  lemma TrackSample(from: ApafState, c: nat, v: real, any: bool, last: real, j: real,
                    reversals: nat, dir: Direction, at: real)
    returns (reversals': nat, dir': Direction, at': real)
    requires TrackedAt(Looseness(from), c, v, any, last, reversals, dir, at) && v >= 0.0
    ensures var to := NextState(from, Ratio(j));
            TrackedAt(Looseness(to), if to == from then c else c + 1, if any then v + AbsReal(j - last) else 0.0,
                      true, j, reversals', dir', at')
  {
    var to := NextState(from, Ratio(j));
    reversals', dir', at' := reversals, dir, at;
    if to == from {
    } else if Looseness(to) > Looseness(from) {
      reversals' := if dir == Down then reversals + 1 else reversals;
      dir', at' := Up, j;
    } else {
      reversals' := if dir == Up then reversals + 1 else reversals;
      dir', at' := Down, j;
    }
  }

  lemma {:induction false} Track(s: ApafState, js: seq<real>) returns (reversals: nat, dir: Direction, at: real)
    ensures Tracked(s, js, reversals, dir, at)
  {
    if js == [] {
      return 0, NoneYet, 0.0;
    }
    var before, j := js[..|js| - 1], js[|js| - 1];
    reversals, dir, at := Track(s, before);
    hide TrackedAt;
    hide NextState;
    hide Looseness;
    var last := if before == [] then 0.0 else before[|before| - 1];
    reversals, dir, at := TrackSample(StateAfter(s, before), Transitions(s, before), Variation(before), before != [],
                                      last, j, reversals, dir, at);
  }

  /** No sample moves the controller by more than one level. */
  lemma NoLevelSkipped(s: ApafState, jain: Index)
    ensures Abs(Looseness(NextState(s, jain)) - Looseness(s)) <= 1
  {}

  /**
   * Any sequence of samples causes at most 2 + 2 * variation / 0.04 transitions; a
   * constant index causes at most two.
   */
  lemma TransitionBound(s: ApafState, js: seq<real>)
    ensures Transitions(s, js) as real <= 2.0 + 2.0 * (Variation(js) / 0.04)
    ensures Variation(js) == 0.0 ==> Transitions(s, js) <= 2
  {
    var reversals, dir, at := Track(s, js);
    hide Transitions;
    hide StateAfter;
    hide Variation;
    assert 0.04 * reversals as real <= Variation(js);
  }

  /** The ratios the controller samples during a run: every fourth tick with something to run. */
  ghost function Samples(s: State, history: seq<seq<bool>>): seq<real>
    requires History(history, |s.tasks|)
    decreases |history|
  {
    if history == [] then []
    else
      var flags := history[|history| - 1];
      var earlier := Samples(s, history[..|history| - 1]);
      var now := RunWith(Apaf, s, history);
      if now.tick % 4 == 0 && true in flags && now.jain.Ratio? then earlier + [now.jain.j] else earlier
  }

  /** Ticks of a run at which the controller moved. */
  ghost function Moves(s: State, history: seq<seq<bool>>): nat
    requires History(history, |s.tasks|)
    decreases |history|
  {
    if history == [] then 0
    else
      var before := history[..|history| - 1];
      Moves(s, before)
      + if RunWith(Apaf, s, history).apafState != RunWith(Apaf, s, before).apafState then 1 else 0
  }

  /** What a tick does to the controller: it samples only at multiples of four. */
  lemma TickMoves(s: State)
    ensures var s' := Tick(Apaf, s);
            s'.apafState == if s'.tick % 4 == 0 && PickNext(s.tasks) != -1 then NextState(s.apafState, s'.jain)
                            else s.apafState
  {
    hide JainIndex;
    hide Runtimes;
    hide NextState;
    hide LoadAll;
    hide ChargeTask;
    hide PickNext;
  }

  /** The state of a run is the controller's response to the samples of the run. */
  lemma {:induction false} RunFollowsSamples(s: State, history: seq<seq<bool>>)
    requires History(history, |s.tasks|)
    ensures RunWith(Apaf, s, history).apafState == StateAfter(s.apafState, Samples(s, history))
    ensures Moves(s, history) == Transitions(s.apafState, Samples(s, history))
    decreases |history|
  {
    hide Tick;
    hide NextState;
    hide PickNext;
    if history == [] {
    } else {
      HistoryPrefix(history, |s.tasks|);
      var prefix, flags := history[..|history| - 1], history[|history| - 1];
      RunFollowsSamples(s, prefix);
      var before := RunWith(Apaf, s, prefix);
      var woken := before.(tasks := SetRunnable(before.tasks, flags));
      TickMoves(woken);
      WokenPick(before.tasks, flags);
      var js, j := Samples(s, prefix), RunWith(Apaf, s, history).jain;
      if j.Ratio? {
        assert (js + [j.j])[..|js|] == js;
      } else {
        NanMovesNothing(before.apafState);
      }
    }
  }

  lemma NanMovesNothing(state: ApafState)
    ensures NextState(state, NotANumber) == state
  {}

  /**
   * Over any run of the APAF scheduler, with any blocking and waking, the controller
   * moves at most 2 + 50 times the variation of the sampled index.
   */
  lemma RunMovesBound(s: State, history: seq<seq<bool>>)
    requires History(history, |s.tasks|)
    ensures Moves(s, history) as real <= 2.0 + 2.0 * (Variation(Samples(s, history)) / 0.04)
  {
    RunFollowsSamples(s, history);
    TransitionBound(s.apafState, Samples(s, history));
  }
}

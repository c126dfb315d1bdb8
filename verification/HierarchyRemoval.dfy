/**
 * Removals from the leaf list as the kernel guards them: update_blocked_averages asks
 * child_cfs_rq_on_list, not the list itself, whether a child of an empty queue is listed.
 */
module HierarchyRemoval {
  import opened Lists
  import opened LeafList
  import opened LeafTest
  import opened Hierarchy
  import opened HierarchyAccounting

  /** The walk of a branch from queue c, already handled, to the end. */
  function RestOfBranch(up: seq<nat>, l: Leaf, c: nat): Leaf
    requires Topology(up) && c < |up| == |l.onList|
  {
    if l.tmp < 0 || c == 0 then l else AddBranch(up, l, up[c])
  }

  lemma PropagateLeaf(tr: Tree, s: State, e: Entity, shares: seq<nat>, d: int)
    requires Sized(tr, s) && (e == NoSe || IsSe(tr, e)) && Shares(tr, shares)
    ensures Propagate(tr, s, e, shares, d).leaf == s.leaf
    decreases Rank(tr, e)
  {
    if e != NoSe {
      StepKeepsRest(tr, s, e, shares, d);
      PropagateLeaf(tr, BumpH(tr, UpdateCfsGroup(tr, s, e, shares), e, d), Parent(tr, e), shares, d);
    }
  }

  lemma DequeueWalkLeaf(tr: Tree, s: State, e: Entity, shares: seq<nat>)
    requires Sized(tr, s) && (e == NoSe || IsSe(tr, e)) && Shares(tr, shares)
    ensures DequeueWalk(tr, s, e, shares).leaf == s.leaf
    decreases Rank(tr, e)
  {
    if e != NoSe {
      DequeueEntityEffect(tr, s, e, shares);
      var s' := BumpH(tr, DequeueEntity(tr, s, e, shares), e, -1);
      hide DequeueEntity;
      PropagateLeaf(tr, s', Parent(tr, e), shares, -1);
      DequeueWalkLeaf(tr, s', Parent(tr, e), shares);
    }
  }

  /** A dequeue leaves the leaf list alone. */
  lemma DequeueTaskLeaf(tr: Tree, s: State, t: nat, shares: seq<nat>)
    requires Sized(tr, s) && t < |tr.home| && Shares(tr, shares)
    ensures DequeueTask(tr, s, t, shares).leaf == s.leaf
  {
    DequeueWalkLeaf(tr, s, TaskSe(t), shares);
    hide DequeueWalk;
  }

  /** One step up the branch, on the list. */
  lemma BranchStep(up: seq<nat>, l: Leaf, c: nat)
    requires Topology(up) && 0 < c < |up| && Building(up, l, c) && l.onList[c]
    ensures |Add(up, l, up[c]).0.onList| == |up|
    ensures RestOfBranch(up, l, c) == RestOfBranch(up, Add(up, l, up[c]).0, up[c])
    ensures l.onList[up[c]] ==> Add(up, l, up[c]).0 == l
  {
    if l.tmp < 0 {
      assert up[c] in l.list;
    } else {
      AddKeepsBuilding(up, l, c);
      hide Connected;
    }
  }

  /** What an enqueue_entity does to the list, whether it is the queue's first entity or not. */
  lemma EnqueueEntityLeaf(tr: Tree, s: State, e: Entity, shares: seq<nat>)
    requires Sized(tr, s) && IsSe(tr, e) && Shares(tr, shares) && Listed(tr, s)
    requires s.cfs[QueueOf(tr, e)].nrRunning >= 0
    ensures var q := QueueOf(tr, e);
            BumpH(tr, EnqueueEntity(tr, s, e, shares), e, 1).leaf
            == if s.leaf.onList[q] then s.leaf else Add(tr.up, s.leaf, q).0
  {
    EnqueueEntityEffect(tr, s, e, shares);
    hide EnqueueEntity;
  }

  /** The state after one more step of the enqueue walk. */
  function NextUp(tr: Tree, s: State, c: nat, shares: seq<nat>): (s': State)
    requires Sized(tr, s) && 0 < c < |tr.up| && Shares(tr, shares)
    ensures Sized(tr, s')
  {
    BumpH(tr, EnqueueEntity(tr, s, GroupSe(c), shares), GroupSe(c), 1)
  }

  lemma RestStep(tr: Tree, s: State, c: nat, shares: seq<nat>)
    requires MidUp(tr, s, c) && c > 0 && Shares(tr, shares)
    ensures Sized(tr, s) && c < |tr.up|
    ensures !s.groupSe[c].onRq ==>
              && MidUp(tr, NextUp(tr, s, c, shares), tr.up[c])
              && EnqueueRest(tr, s, c, shares) == EnqueueRest(tr, NextUp(tr, s, c, shares), tr.up[c], shares)
              && RestOfBranch(tr.up, s.leaf, c) == RestOfBranch(tr.up, NextUp(tr, s, c, shares).leaf, tr.up[c])
  {
    MidUpFacts(tr, s, c);
    if !s.groupSe[c].onRq {
      hide *;
      NextMidUp(tr, s, c, shares);
      RestUnfolds(tr, s, c, shares);
      NextUpLeaf(tr, s, c, shares);
    }
  }

  lemma NextMidUp(tr: Tree, s: State, c: nat, shares: seq<nat>)
    requires MidUp(tr, s, c) && c > 0 && Shares(tr, shares) && !s.groupSe[c].onRq
    ensures MidUp(tr, NextUp(tr, s, c, shares), tr.up[c])
  {
    EnqueueStep(tr, s, c, shares);
    hide MidUp;
    hide EnqueueEntity;
    hide BumpH;
  }

  lemma NextUpLeaf(tr: Tree, s: State, c: nat, shares: seq<nat>)
    requires Sized(tr, s) && 0 < c < |tr.up| && Shares(tr, shares) && Listed(tr, s)
    requires s.cfs[tr.up[c]].nrRunning >= 0 && Building(tr.up, s.leaf, c) && s.leaf.onList[c]
    ensures RestOfBranch(tr.up, s.leaf, c) == RestOfBranch(tr.up, NextUp(tr, s, c, shares).leaf, tr.up[c])
  {
    EnqueueEntityLeaf(tr, s, GroupSe(c), shares);
    hide Listed;
    hide EnqueueEntity;
    hide BumpH;
    BranchStep(tr.up, s.leaf, c);
    hide Building;
    hide RestOfBranch;
    hide Add;
  }

  lemma RestUnfolds(tr: Tree, s: State, c: nat, shares: seq<nat>)
    requires Sized(tr, s) && 0 < c < |tr.up| && Shares(tr, shares) && !s.groupSe[c].onRq
    ensures EnqueueRest(tr, s, c, shares) == EnqueueRest(tr, NextUp(tr, s, c, shares), tr.up[c], shares)
  {
    hide EnqueueEntity;
    hide BumpH;
  }

  lemma RestEnds(tr: Tree, s: State, c: nat, shares: seq<nat>)
    requires MidUp(tr, s, c) && Shares(tr, shares)
    ensures Sized(tr, s) && c < |tr.up|
    ensures c == 0 || s.groupSe[c].onRq ==>
              EnqueueRest(tr, s, c, shares).leaf == RestOfBranch(tr.up, s.leaf, c) == s.leaf
  {
    UpIsSized(tr, s, c);
    if c == 0 || s.groupSe[c].onRq {
      EnqueueStops(tr, s, c);
      FlatIsConnected(tr, s, c);
      hide MidUp;
      hide MidFlat;
      if c > 0 {
        PropagateLeaf(tr, s, GroupSe(c), shares, 1);
      }
    }
  }

  /** The rest of an enqueue walk adds the rest of the branch. */
  lemma {:induction false} EnqueueRestLeaf(tr: Tree, s: State, c: nat, shares: seq<nat>)
    requires MidUp(tr, s, c) && Shares(tr, shares)
    ensures Sized(tr, s) && c < |tr.up|
    ensures EnqueueRest(tr, s, c, shares).leaf == RestOfBranch(tr.up, s.leaf, c)
    decreases c
  {
    hide MidUp;
    hide EnqueueRest;
    hide RestOfBranch;
    hide NextUp;
    RestEnds(tr, s, c, shares);
    if c > 0 && !s.groupSe[c].onRq {
      RestStep(tr, s, c, shares);
      EnqueueRestLeaf(tr, NextUp(tr, s, c, shares), tr.up[c], shares);
    }
  }

  lemma FlatIsConnected(tr: Tree, s: State, c: nat)
    requires MidFlat(tr, s, c, -1)
    ensures s.leaf.tmp == -1
  {}

  lemma MidUpFacts(tr: Tree, s: State, c: nat)
    requires MidUp(tr, s, c)
    ensures Sized(tr, s) && c < |tr.up| && Building(tr.up, s.leaf, c) && s.leaf.onList[c] && Listed(tr, s)
    ensures c > 0 ==> s.cfs[tr.up[c]].nrRunning >= 0
  {
    if c > 0 {
      NrNonNegative(tr, s, tr.up[c]);
    }
  }

  /** enqueue_task_fair does to the leaf list what the walk that stops at the first connection does. */
  lemma EnqueueTaskLeaf(tr: Tree, s: State, t: nat, shares: seq<nat>)
    requires Inv(tr, s) && t < |tr.home| && Shares(tr, shares) && !s.taskSe[t].onRq
    ensures EnqueueTask(tr, s, t, shares).leaf == AddBranch(tr.up, s.leaf, tr.home[t])
  {
    var h := tr.home[t];
    NrNonNegative(tr, s, h);
    EnqueueEntityLeaf(tr, s, TaskSe(t), shares);
    EnqueueStart(tr, s, t, shares);
    AddToConnected(tr.up, s.leaf, h);
    EnqueueTaskIs(tr, s, t, shares);
    var s1 := BumpH(tr, EnqueueEntity(tr, s, TaskSe(t), shares), TaskSe(t), 1);
    EnqueueRestLeaf(tr, s1, h, shares);
    assert EnqueueWalk(tr, s, TaskSe(t), shares) == EnqueueRest(tr, s1, h, shares) by {
      hide EnqueueEntity;
      hide BumpH;
    }
    BranchStarts(tr.up, s.leaf, h);
  }

  lemma BranchStarts(up: seq<nat>, l: Leaf, q: nat)
    requires Topology(up) && Connected(up, l) && q < |up|
    ensures |Add(up, l, q).0.onList| == |up|
    ensures AddBranch(up, l, q) == RestOfBranch(up, Add(up, l, q).0, q)
    ensures l.onList[q] ==> Add(up, l, q).0 == l
  {
    AddToConnected(up, l, q);
  }

  /** The removal of an empty queue as the kernel guards it. */
  predicate TestAllows(tr: Tree, s: State, q: nat)
    requires Sized(tr, s)
  {
    q < |tr.up| && s.cfs[q].load == 0 && !PreviousIsChild(tr.up, s.leaf, q)
  }

  /** What happens on a CPU with the kernel's own test. */
  ghost function ApplyTested(tr: Tree, s: State, op: Op): State
    requires Sized(tr, s)
  {
    match op
    case Remove(q) => if TestAllows(tr, s, q) then RemoveLeaf(s, q) else s
    case _ => Apply(tr, s, op)
  }

  /** Which steps leave the test exact, from what is known before the step. */
  ghost predicate KeepsTestExact(tr: Tree, s: State, op: Op)
    requires Sized(tr, s)
  {
    match op
    case Enqueue(t, shares) =>
      t < |tr.home| && Shares(tr, shares) && !s.taskSe[t].onRq ==> JoinsAtHead(tr.up, s.leaf, tr.home[t])
    case Dequeue(_, _) => true
    case Remove(q) => TestAllows(tr, s, q) && s.leaf.onList[q] ==> LeavesComplete(tr.up, s.leaf.list, q)
  }

  /**
   * While the test is exact the kernel removes exactly what is safe to remove, so every
   * step keeps the whole invariant; and the step leaves the test exact if and only if an
   * enqueued branch joins the list at its head or a removed queue leaves no gap before its
   * parent.
   */
  lemma TestedStep(tr: Tree, s: State, op: Op)
    requires Inv(tr, s) && Complete(tr.up, s.leaf)
    ensures Sized(tr, s) && Inv(tr, ApplyTested(tr, s, op))
    ensures |ApplyTested(tr, s, op).leaf.onList| == |tr.up|
    ensures ApplyTested(tr, s, op) == Apply(tr, s, op)
    ensures Complete(tr.up, ApplyTested(tr, s, op).leaf) <==> KeepsTestExact(tr, s, op)
  {
    InvRoot(tr, s);
    ApplyKeeps(tr, s, op);
    InvRoot(tr, Apply(tr, s, op));
    hide Inv;
    hide Apply;
    hide ApplyTested;
    hide KeepsTestExact;
    hide Complete;
    match op {
      case Enqueue(t, shares) => TestedStepEnqueue(tr, s, t, shares);
      case Dequeue(t, shares) => TestedStepDequeue(tr, s, t, shares);
      case Remove(q) => TestedStepRemove(tr, s, q);
    }
  }

  lemma TestedStepEnqueue(tr: Tree, s: State, t: nat, shares: seq<nat>)
    requires Inv(tr, s) && Complete(tr.up, s.leaf)
    ensures Sized(tr, s)
    ensures var op := Op.Enqueue(t, shares);
            && ApplyTested(tr, s, op) == Apply(tr, s, op) && |Apply(tr, s, op).leaf.onList| == |tr.up|
            && (Complete(tr.up, Apply(tr, s, op).leaf) <==> KeepsTestExact(tr, s, op))
  {
    InvRoot(tr, s);
    InvConnected(tr, s);
    if t < |tr.home| && Shares(tr, shares) && !s.taskSe[t].onRq {
      EnqueueTaskLeaf(tr, s, t, shares);
      hide Inv;
      hide EnqueueTask;
      AddBranchKeepsComplete(tr.up, s.leaf, tr.home[t]);
      hide Connected;
      hide Complete;
      hide JoinsAtHead;
    }
  }

  lemma TestedStepDequeue(tr: Tree, s: State, t: nat, shares: seq<nat>)
    requires Inv(tr, s) && Complete(tr.up, s.leaf)
    ensures Sized(tr, s)
    ensures var op := Op.Dequeue(t, shares);
            && ApplyTested(tr, s, op) == Apply(tr, s, op) && Apply(tr, s, op).leaf == s.leaf
            && KeepsTestExact(tr, s, op)
  {
    InvRoot(tr, s);
    hide Inv;
    hide Complete;
    hide DequeueTask;
    if t < |tr.home| && Shares(tr, shares) && s.taskSe[t].onRq {
      DequeueTaskLeaf(tr, s, t, shares);
    }
  }

  lemma TestedStepRemove(tr: Tree, s: State, q: nat)
    requires Inv(tr, s) && Complete(tr.up, s.leaf)
    ensures Sized(tr, s)
    ensures var op := Op.Remove(q);
            && ApplyTested(tr, s, op) == Apply(tr, s, op) && |Apply(tr, s, op).leaf.onList| == |tr.up|
            && (Complete(tr.up, Apply(tr, s, op).leaf) <==> KeepsTestExact(tr, s, op))
  {
    InvRoot(tr, s);
    InvConnected(tr, s);
    hide Inv;
    if q < |tr.up| {
      TestIsExact(tr.up, s.leaf, q);
      hide PreviousIsChild;
      hide ChildOnList;
      if TestAllows(tr, s, q) && s.leaf.onList[q] {
        DelKeepsComplete(tr.up, s.leaf, q);
        hide Connected;
        hide Complete;
        hide LeavesComplete;
      }
    }
  }

  lemma InvConnected(tr: Tree, s: State)
    requires Inv(tr, s)
    ensures Topology(tr.up) && Connected(tr.up, s.leaf)
  {}

  /** A run of the CPU with the kernel's own test. */
  ghost predicate ReachesTested(tr: Tree, s: State, ops: seq<Op>, s': State)
    decreases |ops|
  {
    if ops == [] then s' == s
    else Sized(tr, s) && ReachesTested(tr, ApplyTested(tr, s, ops[0]), ops[1..], s')
  }

  /** Every step of the run leaves the test exact. */
  ghost predicate StaysExact(tr: Tree, s: State, ops: seq<Op>)
    decreases |ops|
  {
    ops == []
    || (Sized(tr, s) && KeepsTestExact(tr, s, ops[0]) && StaysExact(tr, ApplyTested(tr, s, ops[0]), ops[1..]))
  }

  lemma {:induction false} TestedRunKeeps(tr: Tree, s: State, ops: seq<Op>, s': State)
    requires Inv(tr, s) && Complete(tr.up, s.leaf) && ReachesTested(tr, s, ops, s') && StaysExact(tr, s, ops)
    ensures Inv(tr, s') && |s'.leaf.onList| == |tr.up| && Complete(tr.up, s'.leaf)
    decreases |ops|
  {
    InvRoot(tr, s);
    if ops == [] {
    } else {
      TestedStep(tr, s, ops[0]);
      hide Inv;
      hide Complete;
      hide ApplyTested;
      hide KeepsTestExact;
      TestedRunKeeps(tr, ApplyTested(tr, s, ops[0]), ops[1..], s');
    }
  }

  lemma FreshComplete(tr: Tree, s: State)
    requires Wf(tr) && Fresh(tr, s)
    ensures Inv(tr, s) && |s.leaf.onList| == |tr.up| && Complete(tr.up, s.leaf)
  {
    FreshInv(tr, s);
    hide Inv;
  }

  /**
   * With the kernel's own test the hierarchy keeps its whole invariant, from a fresh CPU and
   * over every run whose steps leave the test exact.
   */
  lemma TestedHierarchyTheorem(tr: Tree, s: State, ops: seq<Op>, s': State)
    requires Wf(tr) && Fresh(tr, s) && ReachesTested(tr, s, ops, s') && StaysExact(tr, s, ops)
    ensures Inv(tr, s') && |s'.leaf.onList| == |tr.up| && Complete(tr.up, s'.leaf)
  {
    FreshComplete(tr, s);
    TestedRunKeeps(tr, s, ops, s');
  }

  /** Nothing is queued anywhere. */
  ghost predicate Idle(tr: Tree, s: State) {
    && Sized(tr, s)
    && (forall q: nat :: q < |tr.up| ==> s.cfs[q].nrRunning == 0)
    && (forall g: nat :: 0 < g < |tr.up| ==> !s.groupSe[g].onRq)
  }

  lemma IdleWithoutTasks(tr: Tree, s: State)
    requires Inv(tr, s) && NoTaskOn(tr, s)
    ensures Idle(tr, s)
  {
    forall q: nat | q < |tr.up|
      ensures s.cfs[q].nrRunning == 0 && (q > 0 ==> !s.groupSe[q].onRq)
    {
      EmptyQueue(tr, s, q);
    }
  }

  lemma {:induction false} EmptyQueue(tr: Tree, s: State, q: nat)
    requires Sized(tr, s) && Balanced(tr, s) && GroupsMatch(tr, s, -1) && q < |tr.up|
    requires NoTaskOn(tr, s)
    ensures s.cfs[q].nrRunning == 0
    decreases |tr.up| - q
  {
    forall c: nat | c < |tr.up| && c > 0 && tr.up[c] == q
      ensures !s.groupSe[c].onRq
    {
      EmptyQueue(tr, s, c);
    }
    TotalOfZeros(TaskParts(tr, s.taskSe, q, false));
    TotalOfZeros(GroupParts(tr, s.groupSe, q, false));
  }

  /** The additions of an enqueue walk that goes up to the root. */
  function AddAll(up: seq<nat>, l: Leaf, q: nat): Leaf
    requires Topology(up) && q < |up| == |l.onList|
    decreases q
  {
    AddKeepsSize(up, l, q);
    var l' := Add(up, l, q).0;
    if q == 0 then l' else AddAll(up, l', up[q])
  }

  /** On an idle CPU, whatever its leaf list, the walk goes up to the root. */
  ghost predicate IdleAbove(tr: Tree, s: State, c: nat) {
    && Sized(tr, s) && c < |tr.up|
    && (forall q: nat :: q < c ==> s.cfs[q].nrRunning == 0)
    && (forall g: nat :: 0 < g <= c ==> !s.groupSe[g].onRq)
  }

  lemma IdleStep(tr: Tree, s: State, c: nat, shares: seq<nat>)
    requires IdleAbove(tr, s, c) && c > 0 && Shares(tr, shares)
    ensures IdleAbove(tr, NextUp(tr, s, c, shares), tr.up[c])
    ensures NextUp(tr, s, c, shares).leaf == Add(tr.up, s.leaf, tr.up[c]).0
    ensures EnqueueRest(tr, s, c, shares) == EnqueueRest(tr, NextUp(tr, s, c, shares), tr.up[c], shares)
  {
    EnqueueEntityEffect(tr, s, GroupSe(c), shares);
    hide EnqueueEntity;
    hide Add;
  }

  lemma {:induction false} IdleRestLeaf(tr: Tree, s: State, c: nat, shares: seq<nat>)
    requires IdleAbove(tr, s, c) && Shares(tr, shares)
    ensures EnqueueRest(tr, s, c, shares).leaf == if c == 0 then s.leaf else AddAll(tr.up, s.leaf, tr.up[c])
    decreases c
  {
    if c == 0 {
    } else {
      IdleStep(tr, s, c, shares);
      hide NextUp;
      hide Add;
      hide EnqueueWalk;
      IdleRestLeaf(tr, NextUp(tr, s, c, shares), tr.up[c], shares);
    }
  }

  lemma IdleEnqueueLeaf(tr: Tree, s: State, t: nat, shares: seq<nat>)
    requires Idle(tr, s) && t < |tr.home| && Shares(tr, shares) && !s.taskSe[t].onRq
    ensures EnqueueTask(tr, s, t, shares).leaf == AddAll(tr.up, s.leaf, tr.home[t])
  {
    var h := tr.home[t];
    EnqueueEntityEffect(tr, s, TaskSe(t), shares);
    var s1 := BumpH(tr, EnqueueEntity(tr, s, TaskSe(t), shares), TaskSe(t), 1);
    EnqueueTaskIs(tr, s, t, shares);
    assert EnqueueWalk(tr, s, TaskSe(t), shares) == EnqueueRest(tr, s1, h, shares);
    hide EnqueueEntity;
    hide EnqueueWalk;
    IdleRestLeaf(tr, s1, h, shares);
    hide Add;
  }

  /** Five queues: 1 and 2 are children of the root, 3 of 2 and 4 of 3. */
  const UP5: seq<nat> := [0, 0, 0, 2, 3]

  /** Three tasks, in 1, 2 and 4, and weights that do not matter. */
  const TREE5: Tree := Tree(UP5, [1, 2, 4])
  const SHARES5: seq<nat> := [1, 1, 1, 1, 1]
  const FRESH5: State := State(
    seq(5, i => CfsRq(0, 0, 0)), seq(3, i => Se(false, 1)), seq(5, i => Se(false, 1)), EmptyLeaf(5), 0)

  lemma Tree5()
    ensures TREE5.up == UP5 && |UP5| == 5 && Topology(UP5) && Shares(TREE5, SHARES5) && UP5[4] == 3
    ensures |TREE5.home| == 3 && TREE5.home[0] == 1 && TREE5.home[1] == 2 && TREE5.home[2] == 4
  {}

  lemma FirstWalk()
    ensures AddBranch(UP5, EmptyLeaf(5), 1) == Leaf([true, true, false, false, false], [1, 0], -1)
  {
    var (a, connected) := Add(UP5, EmptyLeaf(5), 1);
    assert a == Leaf([false, true, false, false, false], [1], 1) && !connected;
    assert AddBranch(UP5, a, 0) == Add(UP5, a, 0).0;
  }

  lemma SecondWalk()
    ensures AddBranch(UP5, Leaf([true, true, false, false, false], [1, 0], -1), 2)
            == Leaf([true, true, true, false, false], [1, 2, 0], -1)
  {
    FirstAt([1, 0], 1);
    var l := Leaf([true, true, false, false, false], [1, 0], -1);
    assert Insert([1, 0], 1, 2) == [1, 2, 0];
    var (a, connected) := Add(UP5, l, 2);
    assert connected;
  }

  lemma ThirdWalk()
    ensures AddBranch(UP5, Leaf([true, true, true, false, false], [1, 2, 0], -1), 4)
            == Leaf([true, true, true, true, true], [4, 1, 3, 2, 0], -1)
  {
    var l := Leaf([true, true, true, false, false], [1, 2, 0], -1);
    var (a, connected) := Add(UP5, l, 4);
    assert a == Leaf([true, true, true, false, true], [4, 1, 2, 0], 4) && !connected;
    FirstAt([4, 1, 2, 0], 2);
    assert Insert([4, 1, 2, 0], 2, 3) == [4, 1, 3, 2, 0];
    var (b, connected') := Add(UP5, a, 3);
    assert b == Leaf([true, true, true, true, true], [4, 1, 3, 2, 0], -1) && connected';
    assert AddBranch(UP5, a, 3) == b;
  }

  /** The test sees no child before 3, although 4 is one. */
  lemma FirstRemoval()
    ensures var l := Leaf([true, true, true, true, true], [4, 1, 3, 2, 0], -1);
            && !PreviousIsChild(UP5, l, 3) && ChildOnList(UP5, l, 3)
            && Del(l, 3) == Leaf([true, true, true, false, true], [4, 1, 2, 0], -1)
  {
    FirstAt([4, 1, 3, 2, 0], 2);
    WithoutIs([4, 1, 3, 2, 0], 3);
    assert UP5[4] == 3;
  }

  lemma SecondRemoval()
    ensures var l := Leaf([true, true, true, false, true], [4, 1, 2, 0], -1);
            && !PreviousIsChild(UP5, l, 2)
            && Del(l, 2) == Leaf([true, true, false, false, true], [4, 1, 0], -1)
  {
    FirstAt([4, 1, 2, 0], 2);
    WithoutIs([4, 1, 2, 0], 2);
  }

  /** The next walk from 4 puts 3 in front of it. */
  lemma LastWalk()
    ensures AddAll(UP5, Leaf([true, true, false, false, true], [4, 1, 0], -1), 4)
            == Leaf([true, true, true, true, true], [3, 4, 1, 2, 0], -1)
  {
    var l := Leaf([true, true, false, false, true], [4, 1, 0], -1);
    assert Add(UP5, l, 4).0 == l;
    var a := Add(UP5, l, 3).0;
    assert a == Leaf([true, true, false, true, true], [3, 4, 1, 0], 3);
    FirstAt([3, 4, 1, 0], 3);
    assert Insert([3, 4, 1, 0], 3, 2) == [3, 4, 1, 2, 0];
    var b := Add(UP5, a, 2).0;
    assert b == Leaf([true, true, true, true, true], [3, 4, 1, 2, 0], -1);
    assert AddAll(UP5, b, 0) == b;
    assert AddAll(UP5, a, 2) == b;
    assert AddAll(UP5, l, 3) == b;
  }

  lemma TestedEnqueue(tr: Tree, s: State, t: nat, shares: seq<nat>)
    requires Inv(tr, s) && t < |tr.home| && Shares(tr, shares) && !s.taskSe[t].onRq
    ensures Sized(tr, s)
    ensures var s' := ApplyTested(tr, s, Op.Enqueue(t, shares));
            && Inv(tr, s') && s'.leaf == AddBranch(tr.up, s.leaf, tr.home[t])
            && s'.taskSe == s.taskSe[t := s.taskSe[t].(onRq := true)]
  {
    InvRoot(tr, s);
    InvConnected(tr, s);
    EnqueueTaskLeaf(tr, s, t, shares);
    EnqueueTaskKeeps(tr, s, t, shares);
    hide Inv;
    hide EnqueueTask;
    hide AddBranch;
    hide Connected;
  }

  lemma TestedDequeue(tr: Tree, s: State, t: nat, shares: seq<nat>)
    requires Inv(tr, s) && t < |tr.home| && Shares(tr, shares) && s.taskSe[t].onRq
    ensures Sized(tr, s)
    ensures var s' := ApplyTested(tr, s, Op.Dequeue(t, shares));
            Inv(tr, s') && s'.leaf == s.leaf && s'.taskSe == s.taskSe[t := s.taskSe[t].(onRq := false)]
  {
    InvRoot(tr, s);
    DequeueTaskLeaf(tr, s, t, shares);
    DequeueTaskKeeps(tr, s, t, shares);
    hide DequeueTask;
    hide Inv;
  }

  /** A task comes and goes. */
  lemma EnqueueDequeue(tr: Tree, s: State, t: nat, shares: seq<nat>) returns (s1: State, s2: State)
    requires Inv(tr, s) && t < |tr.home| && Shares(tr, shares) && NoTaskOn(tr, s)
    ensures Sized(tr, s) && s1 == ApplyTested(tr, s, Op.Enqueue(t, shares))
    ensures Sized(tr, s1) && s2 == ApplyTested(tr, s1, Op.Dequeue(t, shares))
    ensures Inv(tr, s2) && s2.leaf == AddBranch(tr.up, s.leaf, tr.home[t]) && NoTaskOn(tr, s2)
  {
    InvRoot(tr, s);
    TestedEnqueue(tr, s, t, shares);
    s1 := ApplyTested(tr, s, Op.Enqueue(t, shares));
    InvRoot(tr, s1);
    TestedDequeue(tr, s1, t, shares);
    s2 := ApplyTested(tr, s1, Op.Dequeue(t, shares));
    InvRoot(tr, s2);
    hide Inv;
    hide ApplyTested;
    hide AddBranch;
  }

  predicate NoTaskOn(tr: Tree, s: State) {
    |s.taskSe| == |tr.home| && forall u: nat :: u < |s.taskSe| ==> !s.taskSe[u].onRq
  }

  lemma Prepend(tr: Tree, s: State, op: Op, ops: seq<Op>, s': State)
    requires Sized(tr, s) && ReachesTested(tr, ApplyTested(tr, s, op), ops, s')
    ensures ReachesTested(tr, s, [op] + ops, s')
  {
    assert ([op] + ops)[1..] == ops;
  }

  /** A task comes and goes in front of a run. */
  lemma ComesAndGoes(s: State, t: nat, after: Leaf) returns (s1: State, s2: State)
    requires Inv(TREE5, s) && NoTaskOn(TREE5, s) && t < 3
    requires |s.leaf.onList| == 5 && Topology(UP5) && AddBranch(UP5, s.leaf, TREE5.home[t]) == after
    ensures Inv(TREE5, s2) && NoTaskOn(TREE5, s2) && s2.leaf == after
    ensures Sized(TREE5, s) && s1 == ApplyTested(TREE5, s, Op.Enqueue(t, SHARES5))
    ensures Sized(TREE5, s1) && s2 == ApplyTested(TREE5, s1, Op.Dequeue(t, SHARES5))
  {
    hide *;
    Tree5();
    s1, s2 := EnqueueDequeue(TREE5, s, t, SHARES5);
  }

  lemma PrependBoth(s: State, s1: State, s2: State, t: nat, ops: seq<Op>, r: State) returns (all: seq<Op>)
    requires Sized(TREE5, s) && s1 == ApplyTested(TREE5, s, Op.Enqueue(t, SHARES5))
    requires Sized(TREE5, s1) && s2 == ApplyTested(TREE5, s1, Op.Dequeue(t, SHARES5))
    requires ReachesTested(TREE5, s2, ops, r)
    ensures ReachesTested(TREE5, s, all, r)
  {
    hide *;
    Prepend(TREE5, s1, Op.Dequeue(t, SHARES5), ops, r);
    Prepend(TREE5, s, Op.Enqueue(t, SHARES5), [Op.Dequeue(t, SHARES5)] + ops, r);
    all := [Op.Enqueue(t, SHARES5)] + ([Op.Dequeue(t, SHARES5)] + ops);
  }

  /**
   * With the kernel's own test the order breaks. After a task has come and gone in each
   * of 1, 2 and 4, the test lets 3 and then 2 go although 4 is still listed, and the next
   * task in 4 puts 3 before its child 4.
   */
  lemma TestBreaksOrder() returns (ops: seq<Op>, s: State)
    ensures Wf(TREE5) && Fresh(TREE5, FRESH5) && ReachesTested(TREE5, FRESH5, ops, s)
    ensures s.leaf.list == [3, 4, 1, 2, 0] && TREE5.up[4] == 3 && Before(s.leaf.list, 3, 4)
  {
    var s0 := FRESH5;
    hide *;
    Tree5();
    FreshTree();
    FirstWalk();
    SecondWalk();
    ThirdWalk();
    var s1, s2 := ComesAndGoes(s0, 0, Leaf([true, true, false, false, false], [1, 0], -1));
    var s3, s4 := ComesAndGoes(s2, 1, Leaf([true, true, true, false, false], [1, 2, 0], -1));
    var s5, s6 := ComesAndGoes(s4, 2, Leaf([true, true, true, true, true], [4, 1, 3, 2, 0], -1));
    QuietWithoutTasks(TREE5, s6);
    ops, s := RemoveBoth(s6);
    ops := PrependBoth(s4, s5, s6, 2, ops, s);
    ops := PrependBoth(s2, s3, s4, 1, ops, s);
    ops := PrependBoth(s0, s1, s2, 0, ops, s);
    ParentFirst();
  }

  lemma ParentFirst()
    ensures Before([3, 4, 1, 2, 0], 3, 4)
  {}

  lemma FreshTree()
    ensures Topology(UP5) && Wf(TREE5) && Fresh(TREE5, FRESH5) && Inv(TREE5, FRESH5) && NoTaskOn(TREE5, FRESH5)
    ensures |FRESH5.leaf.onList| == 5 && FRESH5.leaf == EmptyLeaf(5) && TREE5.up == UP5
  {
    FreshInv(TREE5, FRESH5);
    hide Inv;
  }

  /** Nothing is queued or runnable. */
  ghost predicate Quiet(tr: Tree, s: State) {
    Idle(tr, s) && NoTaskOn(tr, s) && forall q: nat :: q < |tr.up| ==> s.cfs[q].load == 0
  }

  lemma QuietWithoutTasks(tr: Tree, s: State)
    requires Inv(tr, s) && NoTaskOn(tr, s)
    ensures Quiet(tr, s)
  {
    IdleWithoutTasks(tr, s);
    forall q: nat | q < |tr.up|
      ensures s.cfs[q].load == 0
    {
      LoadVanishes(tr, s, q);
    }
    hide Balanced;
    hide Connected;
    hide Counted;
  }

  /** On a quiet CPU the removal needs nothing but the test. */
  lemma QuietRemove(tr: Tree, s: State, q: nat)
    requires Quiet(tr, s) && q < |tr.up| && !PreviousIsChild(tr.up, s.leaf, q)
    ensures var s' := ApplyTested(tr, s, Op.Remove(q));
            Quiet(tr, s') && s'.leaf == Del(s.leaf, q)
  {
    hide PreviousIsChild;
  }

  lemma QuietEnqueue(tr: Tree, s: State, t: nat, shares: seq<nat>)
    requires Quiet(tr, s) && t < |tr.home| && Shares(tr, shares)
    ensures ApplyTested(tr, s, Op.Enqueue(t, shares)).leaf == AddAll(tr.up, s.leaf, tr.home[t])
  {
    IdleEnqueueLeaf(tr, s, t, shares);
    hide EnqueueTask;
    hide AddAll;
  }

  /** Two removals that the test allows on a quiet CPU, and the next task. */
  lemma TwoRemovals(tr: Tree, s: State, a: nat, b: nat, t: nat, shares: seq<nat>) returns (ops: seq<Op>, s': State)
    requires Quiet(tr, s) && a < |tr.up| == |s.leaf.onList| && b < |tr.up| && t < |tr.home|
    requires Shares(tr, shares) && Topology(tr.up) && tr.home[t] < |tr.up|
    requires !PreviousIsChild(tr.up, s.leaf, a)
    requires |Del(s.leaf, a).onList| == |tr.up| && !PreviousIsChild(tr.up, Del(s.leaf, a), b)
    requires |Del(Del(s.leaf, a), b).onList| == |tr.up|
    ensures ReachesTested(tr, s, ops, s')
    ensures s'.leaf == AddAll(tr.up, Del(Del(s.leaf, a), b), tr.home[t])
  {
    QuietSized(tr, s);
    hide *;
    QuietRemove(tr, s, a);
    var s1 := ApplyTested(tr, s, Op.Remove(a));
    QuietSized(tr, s1);
    QuietRemove(tr, s1, b);
    var s2 := ApplyTested(tr, s1, Op.Remove(b));
    QuietSized(tr, s2);
    QuietEnqueue(tr, s2, t, shares);
    s' := ApplyTested(tr, s2, Op.Enqueue(t, shares));
    NoSteps(tr, s');
    Prepend(tr, s2, Op.Enqueue(t, shares), [], s');
    Prepend(tr, s1, Op.Remove(b), [Op.Enqueue(t, shares)] + [], s');
    Prepend(tr, s, Op.Remove(a), [Op.Remove(b)] + ([Op.Enqueue(t, shares)] + []), s');
    ops := [Op.Remove(a)] + ([Op.Remove(b)] + ([Op.Enqueue(t, shares)] + []));
  }

  lemma RemoveBoth(s6: State) returns (ops: seq<Op>, s: State)
    requires Quiet(TREE5, s6) && s6.leaf == Leaf([true, true, true, true, true], [4, 1, 3, 2, 0], -1)
    ensures ReachesTested(TREE5, s6, ops, s)
    ensures s.leaf == Leaf([true, true, true, true, true], [3, 4, 1, 2, 0], -1)
  {
    hide *;
    Tree5();
    FirstRemoval();
    SecondRemoval();
    LastWalk();
    ops, s := TwoRemovals(TREE5, s6, 3, 2, 2, SHARES5);
  }

  lemma QuietSized(tr: Tree, s: State)
    requires Quiet(tr, s)
    ensures Sized(tr, s)
  {}

  lemma NoSteps(tr: Tree, s: State)
    ensures ReachesTested(tr, s, [], s)
  {}
}

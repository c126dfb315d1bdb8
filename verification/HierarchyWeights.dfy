/**
 * Which weights a walk of enqueue_task_fair or dequeue_task_fair leaves behind: every
 * group entity on the way to the root takes the share computed for it, queued or not, and
 * nothing else changes its weight. With the sums of HierarchyAccounting this fixes load.weight.
 */
module HierarchyWeights {
  import opened LeafList
  import opened Hierarchy
  import opened HierarchyAccounting

  /** The groups from queue c up have the weights of their shares, all other entities keep theirs. */
  ghost predicate Reweighted(tr: Tree, s: State, s': State, shares: seq<nat>, c: nat)
    requires Sized(tr, s) && Sized(tr, s') && |shares| == |tr.up| && c < |tr.up|
  {
    && (forall g: nat :: 0 < g < |tr.up| ==>
         s'.groupSe[g].weight == if Under(tr.up, c, g) then shares[g] else s.groupSe[g].weight)
    && (forall t: nat :: t < |tr.home| ==> s'.taskSe[t].weight == s.taskSe[t].weight)
  }

  /** One step of a walk: group c takes its share. */
  ghost predicate TakesShare(tr: Tree, s: State, s': State, shares: seq<nat>, c: nat)
    requires Sized(tr, s) && Sized(tr, s') && |shares| == |tr.up| && c < |tr.up|
  {
    && (forall g: nat :: 0 < g < |tr.up| ==> s'.groupSe[g].weight == if g == c then shares[g] else s.groupSe[g].weight)
    && (forall t: nat :: t < |tr.home| ==> s'.taskSe[t].weight == s.taskSe[t].weight)
  }

  /** A step at c and a walk from the parent of c make a walk from c. */
  lemma WalkFrom(tr: Tree, s: State, s1: State, s2: State, shares: seq<nat>, c: nat)
    requires Sized(tr, s) && Sized(tr, s1) && Sized(tr, s2) && |shares| == |tr.up| && 0 < c < |tr.up|
    requires TakesShare(tr, s, s1, shares, c) && Reweighted(tr, s1, s2, shares, tr.up[c])
    ensures Reweighted(tr, s, s2, shares, c)
  {
    hide Under;
    forall g: nat | 0 < g < |tr.up|
      ensures s2.groupSe[g].weight == if Under(tr.up, c, g) then shares[g] else s.groupSe[g].weight
    {
      AboveParent(tr.up, c, g);
      UnderSelf(tr.up, c);
      if Under(tr.up, tr.up[c], c) {
        UnderSmaller(tr.up, tr.up[c], c);
      }
    }
  }

  /** Nothing lies above the root. */
  lemma WalkAtRoot(tr: Tree, s: State, shares: seq<nat>)
    requires Sized(tr, s) && |shares| == |tr.up|
    ensures Reweighted(tr, s, s, shares, 0)
  {}

  lemma {:induction false} PropagateWeights(tr: Tree, s: State, c: nat, shares: seq<nat>, d: int)
    requires Sized(tr, s) && c < |tr.up| && Shares(tr, shares)
    ensures Reweighted(tr, s, Propagate(tr, s, Owner(c), shares, d), shares, c)
    decreases c
  {
    if c == 0 {
      WalkAtRoot(tr, s, shares);
    } else {
      var e := GroupSe(c);
      var s1 := BumpH(tr, UpdateCfsGroup(tr, s, e, shares), e, d);
      assert TakesShare(tr, s, s1, shares, c);
      hide UpdateCfsGroup;
      hide BumpH;
      PropagateWeights(tr, s1, tr.up[c], shares, d);
      WalkFrom(tr, s, s1, Propagate(tr, s1, Owner(tr.up[c]), shares, d), shares, c);
    }
  }

  lemma EnqueueEntityTakesShare(tr: Tree, s: State, c: nat, shares: seq<nat>)
    requires Sized(tr, s) && 0 < c < |tr.up| && Shares(tr, shares)
    ensures TakesShare(tr, s, BumpH(tr, EnqueueEntity(tr, s, GroupSe(c), shares), GroupSe(c), 1), shares, c)
  {
    hide Add;
  }

  lemma {:induction false} EnqueueWalkWeights(tr: Tree, s: State, c: nat, shares: seq<nat>)
    requires Sized(tr, s) && c < |tr.up| && Shares(tr, shares)
    ensures Reweighted(tr, s, EnqueueWalk(tr, s, Owner(c), shares), shares, c)
    decreases c
  {
    hide EnqueueEntity;
    hide BumpH;
    hide Reweighted;
    if c == 0 {
      WalkAtRoot(tr, s, shares);
    } else if s.groupSe[c].onRq {
      PropagateWeights(tr, s, c, shares, 1);
    } else {
      EnqueueEntityTakesShare(tr, s, c, shares);
      var s1 := BumpH(tr, EnqueueEntity(tr, s, GroupSe(c), shares), GroupSe(c), 1);
      EnqueueWalkWeights(tr, s1, tr.up[c], shares);
      WalkFrom(tr, s, s1, EnqueueWalk(tr, s1, Owner(tr.up[c]), shares), shares, c);
    }
  }

  lemma DequeueEntityTakesShare(tr: Tree, s: State, c: nat, shares: seq<nat>)
    requires Sized(tr, s) && 0 < c < |tr.up| && Shares(tr, shares)
    ensures TakesShare(tr, s, BumpH(tr, DequeueEntity(tr, s, GroupSe(c), shares), GroupSe(c), -1), shares, c)
  {}

  lemma {:induction false} DequeueWalkWeights(tr: Tree, s: State, c: nat, shares: seq<nat>)
    requires Sized(tr, s) && c < |tr.up| && Shares(tr, shares)
    ensures Reweighted(tr, s, DequeueWalk(tr, s, Owner(c), shares), shares, c)
    decreases c
  {
    hide DequeueEntity;
    hide BumpH;
    hide Reweighted;
    if c == 0 {
      WalkAtRoot(tr, s, shares);
    } else {
      DequeueEntityTakesShare(tr, s, c, shares);
      var s1 := BumpH(tr, DequeueEntity(tr, s, GroupSe(c), shares), GroupSe(c), -1);
      PropagateWeights(tr, s1, tr.up[c], shares, -1);
      DequeueWalkWeights(tr, s1, tr.up[c], shares);
      WalkFrom(tr, s, s1, DequeueRest(tr, s1, tr.up[c], shares), shares, c);
    }
  }

  /** No weight changes. */
  ghost predicate SameWeights(tr: Tree, s: State, s': State)
    requires Sized(tr, s) && Sized(tr, s')
  {
    && (forall g: nat :: 0 < g < |tr.up| ==> s'.groupSe[g].weight == s.groupSe[g].weight)
    && (forall t: nat :: t < |tr.home| ==> s'.taskSe[t].weight == s.taskSe[t].weight)
  }

  /** The task itself brings its weight along. */
  lemma TaskKeepsWeights(tr: Tree, s: State, t: nat, shares: seq<nat>)
    requires Sized(tr, s) && t < |tr.home| && Shares(tr, shares)
    ensures SameWeights(tr, s, BumpH(tr, EnqueueEntity(tr, s, TaskSe(t), shares), TaskSe(t), 1))
    ensures SameWeights(tr, s, BumpH(tr, DequeueEntity(tr, s, TaskSe(t), shares), TaskSe(t), -1))
  {
    hide Add;
  }

  lemma AfterSameWeights(tr: Tree, s: State, s1: State, s2: State, shares: seq<nat>, c: nat, n: int)
    requires Sized(tr, s) && Sized(tr, s1) && Sized(tr, s2) && |shares| == |tr.up| && c < |tr.up|
    requires SameWeights(tr, s, s1) && Reweighted(tr, s1, s2, shares, c)
    ensures Reweighted(tr, s, s2.(nrRunning := n), shares, c)
  {
    hide Under;
  }

  /**
   * After enqueue_task_fair every group entity above the task weighs what its share gives, also
   * one that has just been queued, and no other entity has changed its weight.
   */
  lemma EnqueueTaskWeights(tr: Tree, s: State, t: nat, shares: seq<nat>)
    requires Sized(tr, s) && t < |tr.home| && Shares(tr, shares) && !s.taskSe[t].onRq
    ensures Reweighted(tr, s, EnqueueTask(tr, s, t, shares), shares, tr.home[t])
  {
    EnqueueTaskIs(tr, s, t, shares);
    TaskKeepsWeights(tr, s, t, shares);
    var s1 := BumpH(tr, EnqueueEntity(tr, s, TaskSe(t), shares), TaskSe(t), 1);
    assert EnqueueWalk(tr, s, TaskSe(t), shares) == EnqueueWalk(tr, s1, Owner(tr.home[t]), shares) by {
      hide EnqueueEntity;
      hide BumpH;
    }
    hide EnqueueEntity;
    hide BumpH;
    hide Reweighted;
    hide SameWeights;
    hide EnqueueWalk;
    EnqueueWalkWeights(tr, s1, tr.home[t], shares);
    var s2 := EnqueueWalk(tr, s1, Owner(tr.home[t]), shares);
    AfterSameWeights(tr, s, s1, s2, shares, tr.home[t], s2.nrRunning + 1);
  }

  /** The same of dequeue_task_fair, also for a group entity that has just left its queue. */
  lemma DequeueTaskWeights(tr: Tree, s: State, t: nat, shares: seq<nat>)
    requires Sized(tr, s) && t < |tr.home| && Shares(tr, shares) && s.taskSe[t].onRq
    ensures Reweighted(tr, s, DequeueTask(tr, s, t, shares), shares, tr.home[t])
  {
    DequeueTaskIs(tr, s, t, shares);
    TaskKeepsWeights(tr, s, t, shares);
    var s1 := BumpH(tr, DequeueEntity(tr, s, TaskSe(t), shares), TaskSe(t), -1);
    var h := tr.home[t];
    assert DequeueWalk(tr, s, TaskSe(t), shares) == DequeueRest(tr, s1, h, shares) by {
      hide DequeueEntity;
      hide BumpH;
    }
    hide DequeueEntity;
    hide BumpH;
    hide Reweighted;
    hide SameWeights;
    DequeueWalkWeights(tr, s1, h, shares);
    PropagateWeights(tr, s1, h, shares, -1);
    var s2 := DequeueRest(tr, s1, h, shares);
    AfterSameWeights(tr, s, s1, s2, shares, h, s2.nrRunning - 1);
  }
}

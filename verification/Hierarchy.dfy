/**
 * Group scheduling on one CPU (fair.c): the walks of enqueue_task_fair and
 * dequeue_task_fair over a tree of runqueues, with the accounting of each queue and
 * the leaf list, for groups that are not throttled. Queues are numbered as in
 * LeafList; the entity of group q is the one that queues q at its parent.
 */
module Hierarchy {
  import opened Lists
  import opened LeafList

  /** The groups and where each task belongs. */
  datatype Tree = Tree(up: seq<nat>, home: seq<nat>)

  /** The fields of sched_entity and cfs_rq that the walks change. */
  datatype Se = Se(onRq: bool, weight: nat)
  datatype CfsRq = CfsRq(load: int, nrRunning: int, hNrRunning: int)

  datatype State = State(
    cfs: seq<CfsRq>, taskSe: seq<Se>, groupSe: seq<Se>, leaf: Leaf, nrRunning: int)

  /** A pointer to a sched_entity, or null. */
  datatype Entity = TaskSe(t: nat) | GroupSe(q: nat) | NoSe

  ghost predicate Wf(tr: Tree) {
    Topology(tr.up) && forall t: nat :: t < |tr.home| ==> tr.home[t] < |tr.up|
  }

  ghost predicate Sized(tr: Tree, s: State) {
    && Wf(tr)
    && |s.cfs| == |s.groupSe| == |s.leaf.onList| == |tr.up|
    && |s.taskSe| == |tr.home|
  }

  /** Not null and inside the tree. */
  predicate IsSe(tr: Tree, e: Entity) {
    match e
    case TaskSe(t) => t < |tr.home|
    case GroupSe(q) => 0 < q < |tr.up|
    case NoSe => false
  }

  /** cfs_rq_of. */
  function QueueOf(tr: Tree, e: Entity): (q: nat)
    requires Wf(tr) && IsSe(tr, e)
    ensures q < |tr.up|
  {
    match e
    case TaskSe(t) => tr.home[t]
    case GroupSe(q) => tr.up[q]
  }

  /** se->parent: the entity that owns the queue e is on. */
  function Parent(tr: Tree, e: Entity): (p: Entity)
    requires Wf(tr) && IsSe(tr, e)
    ensures p == NoSe || IsSe(tr, p)
  {
    var q := QueueOf(tr, e);
    if q == 0 then NoSe else GroupSe(q)
  }

  /** Steps left in a walk from e to the root. */
  function Rank(tr: Tree, e: Entity): nat {
    match e
    case TaskSe(_) => |tr.up|
    case GroupSe(q) => q
    case NoSe => 0
  }

  function SeOf(tr: Tree, s: State, e: Entity): Se
    requires Sized(tr, s) && IsSe(tr, e)
  {
    match e
    case TaskSe(t) => s.taskSe[t]
    case GroupSe(q) => s.groupSe[q]
  }

  function WithSe(tr: Tree, s: State, e: Entity, se: Se): (s': State)
    requires Sized(tr, s) && IsSe(tr, e)
    ensures Sized(tr, s')
  {
    match e
    case TaskSe(t) => s.(taskSe := s.taskSe[t := se])
    case GroupSe(q) => s.(groupSe := s.groupSe[q := se])
  }

  /** The queue of e with d more weight and n more entities. */
  function WithLoad(tr: Tree, s: State, e: Entity, d: int, n: int): (s': State)
    requires Sized(tr, s) && IsSe(tr, e)
    ensures Sized(tr, s')
  {
    var q := QueueOf(tr, e);
    var c := s.cfs[q];
    s.(cfs := s.cfs[q := c.(load := c.load + d, nrRunning := c.nrRunning + n)])
  }

  /** cfs_rq->h_nr_running += d on the queue of e. */
  function BumpH(tr: Tree, s: State, e: Entity, d: int): (s': State)
    requires Sized(tr, s) && IsSe(tr, e)
    ensures Sized(tr, s')
  {
    var q := QueueOf(tr, e);
    s.(cfs := s.cfs[q := s.cfs[q].(hNrRunning := s.cfs[q].hNrRunning + d)])
  }

  /** The weights update_cfs_group computes for the groups; calc_group_shares never returns less than 2. */
  ghost predicate Shares(tr: Tree, shares: seq<nat>) {
    |shares| == |tr.up| && forall q: nat :: q < |shares| ==> shares[q] > 0
  }

  /** update_cfs_group: reweight_entity of a group entity, nothing for a task. */
  function UpdateCfsGroup(tr: Tree, s: State, e: Entity, shares: seq<nat>): (s': State)
    requires Sized(tr, s) && IsSe(tr, e) && Shares(tr, shares)
    ensures Sized(tr, s')
  {
    if e.TaskSe? then s
    else
      var se := s.groupSe[e.q];
      var s1 := if se.onRq then WithLoad(tr, s, e, shares[e.q] - se.weight, 0) else s;
      WithSe(tr, s1, e, se.(weight := shares[e.q]))
  }

  /** enqueue_entity. */
  function EnqueueEntity(tr: Tree, s: State, e: Entity, shares: seq<nat>): (s': State)
    requires Sized(tr, s) && IsSe(tr, e) && Shares(tr, shares)
    ensures Sized(tr, s')
  {
    var s1 := UpdateCfsGroup(tr, s, e, shares);
    var se := SeOf(tr, s1, e);
    var s2 := WithSe(tr, WithLoad(tr, s1, e, se.weight, 1), e, se.(onRq := true));
    var q := QueueOf(tr, e);
    AddKeepsSize(tr.up, s2.leaf, q);
    if s2.cfs[q].nrRunning == 1 then s2.(leaf := Add(tr.up, s2.leaf, q).0) else s2
  }

  lemma AddKeepsSize(up: seq<nat>, l: Leaf, q: nat)
    requires q < |up| == |l.onList| && (q > 0 ==> up[q] < |up|)
    ensures |Add(up, l, q).0.onList| == |up|
  {}

  /** dequeue_entity. */
  function DequeueEntity(tr: Tree, s: State, e: Entity, shares: seq<nat>): (s': State)
    requires Sized(tr, s) && IsSe(tr, e) && Shares(tr, shares)
    ensures Sized(tr, s')
  {
    var se := SeOf(tr, s, e);
    var s1 := WithSe(tr, WithLoad(tr, s, e, 0 - se.weight, -1), e, se.(onRq := false));
    UpdateCfsGroup(tr, s1, e, shares)
  }

  /** The second loop of both walks: these queues keep their entity, only the totals move. */
  function Propagate(tr: Tree, s: State, e: Entity, shares: seq<nat>, d: int): (s': State)
    requires Sized(tr, s) && (e == NoSe || IsSe(tr, e)) && Shares(tr, shares)
    ensures Sized(tr, s')
    decreases Rank(tr, e)
  {
    if e == NoSe then s
    else Propagate(tr, BumpH(tr, UpdateCfsGroup(tr, s, e, shares), e, d), Parent(tr, e), shares, d)
  }

  /** Both loops of enqueue_task_fair, from se on. */
  function EnqueueWalk(tr: Tree, s: State, e: Entity, shares: seq<nat>): (s': State)
    requires Sized(tr, s) && (e == NoSe || IsSe(tr, e)) && Shares(tr, shares)
    ensures Sized(tr, s')
    decreases Rank(tr, e)
  {
    if e == NoSe then s
    else if SeOf(tr, s, e).onRq then Propagate(tr, s, e, shares, 1)
    else EnqueueWalk(tr, BumpH(tr, EnqueueEntity(tr, s, e, shares), e, 1), Parent(tr, e), shares)
  }

  /** Both loops of dequeue_task_fair, from se on: stop dequeuing at a queue that still has weight. */
  function DequeueWalk(tr: Tree, s: State, e: Entity, shares: seq<nat>): (s': State)
    requires Sized(tr, s) && (e == NoSe || IsSe(tr, e)) && Shares(tr, shares)
    ensures Sized(tr, s')
    decreases Rank(tr, e)
  {
    if e == NoSe then s
    else
      var s' := BumpH(tr, DequeueEntity(tr, s, e, shares), e, -1);
      if s'.cfs[QueueOf(tr, e)].load != 0 then Propagate(tr, s', Parent(tr, e), shares, -1)
      else DequeueWalk(tr, s', Parent(tr, e), shares)
  }

  /** enqueue_task_fair, for a task that is not queued. */
  function EnqueueTask(tr: Tree, s: State, t: nat, shares: seq<nat>): (s': State)
    requires Sized(tr, s) && t < |tr.home| && Shares(tr, shares)
    ensures Sized(tr, s')
  {
    var s' := EnqueueWalk(tr, s, TaskSe(t), shares);
    s'.(nrRunning := s'.nrRunning + 1)
  }

  /** dequeue_task_fair, for a task that is queued. */
  function DequeueTask(tr: Tree, s: State, t: nat, shares: seq<nat>): (s': State)
    requires Sized(tr, s) && t < |tr.home| && Shares(tr, shares)
    ensures Sized(tr, s')
  {
    var s' := DequeueWalk(tr, s, TaskSe(t), shares);
    s'.(nrRunning := s'.nrRunning - 1)
  }

  /**
   * The fair-class part of struct rq with the cfs_rq and sched_entity records it reaches;
   * an index stands for a pointer. The methods follow parent pointers and update records
   * step by step.
   */
  class Rq {
    const tree: Tree
    var cfs: seq<CfsRq>
    var taskSe: seq<Se>
    var groupSe: seq<Se>
    var onList: seq<bool>
    var leafList: seq<nat>
    var tmpAloneBranch: int
    var nrRunning: int

    ghost function View(): State
      reads this
    {
      State(cfs, taskSe, groupSe, Leaf(onList, leafList, tmpAloneBranch), nrRunning)
    }

    ghost predicate Valid()
      reads this
    {
      Sized(tree, View())
    }

    constructor (tr: Tree, taskWeights: seq<nat>, groupWeights: seq<nat>)
      requires Wf(tr) && |taskWeights| == |tr.home| && |groupWeights| == |tr.up|
      ensures Valid() && tree == tr
      ensures View() == State(seq(|tr.up|, i => CfsRq(0, 0, 0)),
                              seq(|tr.home|, i requires 0 <= i < |taskWeights| => Se(false, taskWeights[i])),
                              seq(|tr.up|, i requires 0 <= i < |groupWeights| => Se(false, groupWeights[i])),
                              EmptyLeaf(|tr.up|), 0)
    {
      tree := tr;
      cfs := seq(|tr.up|, i => CfsRq(0, 0, 0));
      taskSe := seq(|tr.home|, i requires 0 <= i < |taskWeights| => Se(false, taskWeights[i]));
      groupSe := seq(|tr.up|, i requires 0 <= i < |groupWeights| => Se(false, groupWeights[i]));
      onList := seq(|tr.up|, i => false);
      leafList := [];
      tmpAloneBranch := -1;
      nrRunning := 0;
    }

    method ListAddLeafCfsRq(q: nat) returns (connected: bool)
      requires Valid() && q < |tree.up|
      modifies this`onList, this`leafList, this`tmpAloneBranch
      ensures Valid()
      ensures (View().leaf, connected) == Add(tree.up, old(View().leaf), q)
    {
      if onList[q] {
        return tmpAloneBranch < 0;
      }
      ghost var before := View().leaf;
      if q > 0 && onList[tree.up[q]] {
        leafList := Insert(leafList, IndexOf(leafList, tree.up[q]), q);
        tmpAloneBranch := -1;
        connected := true;
      } else if q == 0 {
        leafList := leafList + [q];
        tmpAloneBranch := -1;
        connected := true;
      } else {
        leafList := Insert(leafList, AfterTmp(Leaf(onList, leafList, tmpAloneBranch)), q);
        tmpAloneBranch := q;
        connected := false;
      }
      onList := onList[q := true];
    }

    method ListDelLeafCfsRq(q: nat)
      requires Valid() && q < |tree.up|
      modifies this`onList, this`leafList, this`tmpAloneBranch
      ensures Valid() && View().leaf == Del(old(View().leaf), q)
    {
      if onList[q] {
        if tmpAloneBranch == q {
          var k := IndexOf(leafList, q);
          tmpAloneBranch := if k > 0 then leafList[k - 1] else -1;
        }
        leafList := Without(leafList, q);
        onList := onList[q := false];
      }
    }

    function EntityOf(e: Entity): Se
      requires Valid() && IsSe(tree, e)
      reads this
      ensures EntityOf(e) == SeOf(tree, View(), e)
    {
      if e.TaskSe? then taskSe[e.t] else groupSe[e.q]
    }

    method SetEntity(e: Entity, se: Se)
      requires Valid() && IsSe(tree, e)
      modifies this`taskSe, this`groupSe
      ensures Valid() && View() == WithSe(tree, old(View()), e, se)
    {
      if e.TaskSe? {
        taskSe := taskSe[e.t := se];
      } else {
        groupSe := groupSe[e.q := se];
      }
    }

    /** account_entity_enqueue (n == 1), account_entity_dequeue (n == -1) or a change of weight. */
    method AccountLoad(e: Entity, d: int, n: int)
      requires Valid() && IsSe(tree, e)
      modifies this`cfs
      ensures Valid() && View() == WithLoad(tree, old(View()), e, d, n)
    {
      var q := QueueOf(tree, e);
      var c := cfs[q];
      cfs := cfs[q := c.(load := c.load + d, nrRunning := c.nrRunning + n)];
    }

    method AddHNrRunning(e: Entity, d: int)
      requires Valid() && IsSe(tree, e)
      modifies this`cfs
      ensures Valid() && View() == BumpH(tree, old(View()), e, d)
    {
      var q := QueueOf(tree, e);
      cfs := cfs[q := cfs[q].(hNrRunning := cfs[q].hNrRunning + d)];
    }

    method ReweightGroup(e: Entity, shares: seq<nat>)
      requires Valid() && IsSe(tree, e) && Shares(tree, shares)
      modifies this
      ensures Valid() && View() == UpdateCfsGroup(tree, old(View()), e, shares)
    {
      if e.TaskSe? {
        return;
      }
      var se := EntityOf(e);
      if se.onRq {
        AccountLoad(e, shares[e.q] - se.weight, 0);
      }
      SetEntity(e, se.(weight := shares[e.q]));
    }

    method Enqueue(e: Entity, shares: seq<nat>)
      requires Valid() && IsSe(tree, e) && Shares(tree, shares)
      modifies this
      ensures Valid() && View() == EnqueueEntity(tree, old(View()), e, shares)
    {
      hide Add;
      ReweightGroup(e, shares);
      var se := EntityOf(e);
      AccountLoad(e, se.weight, 1);
      SetEntity(e, se.(onRq := true));
      var q := QueueOf(tree, e);
      if cfs[q].nrRunning == 1 {
        var _ := ListAddLeafCfsRq(q);
      }
    }

    method Dequeue(e: Entity, shares: seq<nat>)
      requires Valid() && IsSe(tree, e) && Shares(tree, shares)
      modifies this
      ensures Valid() && View() == DequeueEntity(tree, old(View()), e, shares)
    {
      var se := EntityOf(e);
      AccountLoad(e, 0 - se.weight, -1);
      SetEntity(e, se.(onRq := false));
      ReweightGroup(e, shares);
    }

    /** The second loop of both walks. */
    method PropagateUp(e: Entity, shares: seq<nat>, d: int)
      requires Valid() && (e == NoSe || IsSe(tree, e)) && Shares(tree, shares)
      modifies this
      ensures Valid() && View() == Propagate(tree, old(View()), e, shares, d)
    {
      hide UpdateCfsGroup;
      hide BumpH;
      var se := e;
      while se != NoSe
        invariant Valid() && (se == NoSe || IsSe(tree, se))
        invariant Propagate(tree, View(), se, shares, d) == Propagate(tree, old(View()), e, shares, d)
        decreases Rank(tree, se)
      {
        ReweightGroup(se, shares);
        AddHNrRunning(se, d);
        se := Parent(tree, se);
      }
    }

    method EnqueueTaskFair(t: nat, shares: seq<nat>)
      requires Valid() && t < |tree.home| && Shares(tree, shares)
      modifies this
      ensures Valid() && View() == EnqueueTask(tree, old(View()), t, shares)
    {
      hide EnqueueEntity;
      hide BumpH;
      var se: Entity := TaskSe(t);
      while se != NoSe && !EntityOf(se).onRq
        invariant Valid() && (se == NoSe || IsSe(tree, se))
        invariant EnqueueWalk(tree, View(), se, shares) == EnqueueWalk(tree, old(View()), TaskSe(t), shares)
        decreases Rank(tree, se)
      {
        Enqueue(se, shares);
        AddHNrRunning(se, 1);
        se := Parent(tree, se);
      }
      PropagateUp(se, shares, 1);
      nrRunning := nrRunning + 1;
    }

    method DequeueTaskFair(t: nat, shares: seq<nat>)
      requires Valid() && t < |tree.home| && Shares(tree, shares)
      modifies this
      ensures Valid() && View() == DequeueTask(tree, old(View()), t, shares)
    {
      hide DequeueEntity;
      hide BumpH;
      var se: Entity := TaskSe(t);
      var stop := false;
      while se != NoSe && !stop
        invariant Valid() && (se == NoSe || IsSe(tree, se))
        invariant DequeueWalk(tree, old(View()), TaskSe(t), shares)
               == if stop then Propagate(tree, View(), se, shares, -1) else DequeueWalk(tree, View(), se, shares)
        decreases Rank(tree, se), if stop then 0 else 1
      {
        Dequeue(se, shares);
        AddHNrRunning(se, -1);
        if cfs[QueueOf(tree, se)].load != 0 {
          stop := true;
        }
        se := Parent(tree, se);
      }
      PropagateUp(se, shares, -1);
      nrRunning := nrRunning - 1;
    }
  }
}

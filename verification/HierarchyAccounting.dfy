/**
 * What every sequence of enqueues, dequeues and leaf-list removals keeps: each queue's
 * load and counters describe exactly what is queued in it and below it, a group is
 * queued exactly when it has something to run, and the leaf list stays ordered.
 */
module HierarchyAccounting {
  import opened Lists
  import opened LeafList
  import opened Hierarchy

  function Total(xs: seq<nat>): nat {
    if xs == [] then 0 else Total(xs[..|xs| - 1]) + xs[|xs| - 1]
  }

  /** Changing one summand changes the total by as much. */
  lemma {:induction false} TotalUpdate(xs: seq<nat>, ys: seq<nat>, i: nat)
    requires |xs| == |ys| && i < |xs|
    requires forall j: nat :: j < |xs| && j != i ==> xs[j] == ys[j]
    ensures Total(ys) == Total(xs) + ys[i] - xs[i]
  {
    var n := |xs| - 1;
    if i == n {
      assert xs[..n] == ys[..n];
    } else {
      TotalUpdate(xs[..n], ys[..n], i);
    }
  }

  lemma {:induction false} TotalAtLeast(xs: seq<nat>, i: nat)
    requires i < |xs|
    ensures Total(xs) >= xs[i]
  {
    if i < |xs| - 1 {
      TotalAtLeast(xs[..|xs| - 1], i);
    }
  }

  /** Weights that are positive where the entity counts have a zero total exactly when nothing counts. */
  lemma {:induction false} TotalsVanishTogether(weights: seq<nat>, ones: seq<nat>)
    requires |weights| == |ones| && forall j: nat :: j < |ones| ==> (weights[j] > 0 <==> ones[j] > 0)
    ensures Total(weights) == 0 <==> Total(ones) == 0
  {
    if ones == [] {
    } else {
      TotalsVanishTogether(weights[..|ones| - 1], ones[..|ones| - 1]);
    }
  }

  /** What an entity of this weight adds to a sum of weights, or of ones. */
  function Part(se: Se, counted: bool, byWeight: bool): nat {
    if !counted || !se.onRq then 0 else if byWeight then se.weight else 1
  }

  function TaskParts(tr: Tree, ses: seq<Se>, q: nat, byWeight: bool): (r: seq<nat>)
    requires |ses| == |tr.home|
    ensures |r| == |ses|
  {
    seq(|ses|, t requires 0 <= t < |ses| => Part(ses[t], tr.home[t] == q, byWeight))
  }

  function GroupParts(tr: Tree, ses: seq<Se>, q: nat, byWeight: bool): (r: seq<nat>)
    requires |ses| == |tr.up|
    ensures |r| == |ses|
  {
    seq(|ses|, c requires 0 <= c < |ses| => Part(ses[c], c > 0 && tr.up[c] == q, byWeight))
  }

  /** The total weight, or the number, of the entities queued in q. */
  function Queued(tr: Tree, s: State, q: nat, byWeight: bool): nat
    requires Sized(tr, s)
  {
    Total(TaskParts(tr, s.taskSe, q, byWeight)) + Total(GroupParts(tr, s.groupSe, q, byWeight))
  }

  /** Queue a lies in the subtree of q. */
  predicate Under(up: seq<nat>, a: nat, q: nat)
    requires Topology(up) && a < |up|
  {
    a == q || (a > 0 && Under(up, up[a], q))
  }

  function BelowParts(tr: Tree, ses: seq<Se>, q: nat): (r: seq<nat>)
    requires Wf(tr) && |ses| == |tr.home|
    ensures |r| == |ses|
  {
    seq(|ses|, t requires 0 <= t < |ses| => Part(ses[t], Under(tr.up, tr.home[t], q), false))
  }

  /** The number of runnable tasks in the subtree of q. */
  function Below(tr: Tree, s: State, q: nat): nat
    requires Sized(tr, s)
  {
    Total(BelowParts(tr, s.taskSe, q))
  }

  ghost predicate PositiveWeights(s: State) {
    && (forall t: nat :: t < |s.taskSe| ==> s.taskSe[t].weight > 0)
    && (forall g: nat :: g < |s.groupSe| ==> s.groupSe[g].weight > 0)
  }

  /** load.weight and nr_running of every queue describe what is queued there. */
  ghost predicate Balanced(tr: Tree, s: State)
    requires Sized(tr, s)
  {
    forall q: nat :: q < |tr.up| ==>
      s.cfs[q].load == Queued(tr, s, q, true) && s.cfs[q].nrRunning == Queued(tr, s, q, false)
  }

  /** h_nr_running of every queue counts the runnable tasks below it, off by d above c. */
  ghost predicate Counted(tr: Tree, s: State, c: nat, d: int)
    requires Sized(tr, s) && c < |tr.up|
  {
    forall q: nat :: q < |tr.up| ==>
      s.cfs[q].hNrRunning == Below(tr, s, q) + if q != c && Under(tr.up, c, q) then d else 0
  }

  /** A group entity is queued exactly when its own queue is not empty. */
  ghost predicate GroupsMatch(tr: Tree, s: State, except: int)
    requires Sized(tr, s)
  {
    forall g: nat :: 0 < g < |tr.up| && g != except ==> (s.groupSe[g].onRq <==> s.cfs[g].nrRunning > 0)
  }

  /** Every queue with something to run is on the leaf list. */
  ghost predicate Listed(tr: Tree, s: State)
    requires Sized(tr, s)
  {
    forall q: nat :: q < |tr.up| && s.cfs[q].nrRunning > 0 ==> s.leaf.onList[q]
  }

  /** The invariant between operations. */
  ghost predicate Inv(tr: Tree, s: State) {
    && Sized(tr, s) && PositiveWeights(s) && Balanced(tr, s)
    && Counted(tr, s, 0, 0) && GroupsMatch(tr, s, -1)
    && Listed(tr, s) && Connected(tr.up, s.leaf)
    && s.nrRunning == Below(tr, s, 0)
  }

  /** Replacing the record of one task. */
  lemma TaskPartsUpdate(tr: Tree, ses: seq<Se>, t: nat, se: Se, q: nat, byWeight: bool)
    requires |ses| == |tr.home| && t < |ses|
    ensures Total(TaskParts(tr, ses[t := se], q, byWeight))
         == Total(TaskParts(tr, ses, q, byWeight))
            + Part(se, tr.home[t] == q, byWeight) - Part(ses[t], tr.home[t] == q, byWeight)
  {
    TotalUpdate(TaskParts(tr, ses, q, byWeight), TaskParts(tr, ses[t := se], q, byWeight), t);
  }

  lemma GroupPartsUpdate(tr: Tree, ses: seq<Se>, g: nat, se: Se, q: nat, byWeight: bool)
    requires |ses| == |tr.up| && 0 < g < |ses|
    ensures Total(GroupParts(tr, ses[g := se], q, byWeight))
         == Total(GroupParts(tr, ses, q, byWeight))
            + Part(se, tr.up[g] == q, byWeight) - Part(ses[g], tr.up[g] == q, byWeight)
  {
    TotalUpdate(GroupParts(tr, ses, q, byWeight), GroupParts(tr, ses[g := se], q, byWeight), g);
  }

  /** Replacing the record of any entity changes the sums of its own queue alone. */
  lemma QueuedUpdate(tr: Tree, s: State, e: Entity, se: Se, q: nat, byWeight: bool)
    requires Sized(tr, s) && IsSe(tr, e)
    ensures Queued(tr, WithSe(tr, s, e, se), q, byWeight)
         == Queued(tr, s, q, byWeight)
            + Part(se, QueueOf(tr, e) == q, byWeight) - Part(SeOf(tr, s, e), QueueOf(tr, e) == q, byWeight)
  {
    hide TaskParts;
    hide GroupParts;
    hide Part;
    match e {
      case TaskSe(t) => TaskPartsUpdate(tr, s.taskSe, t, se, q, byWeight);
      case GroupSe(g) => GroupPartsUpdate(tr, s.groupSe, g, se, q, byWeight);
    }
  }

  lemma BelowUpdate(tr: Tree, s: State, t: nat, se: Se, q: nat)
    requires Sized(tr, s) && t < |tr.home|
    ensures Below(tr, WithSe(tr, s, TaskSe(t), se), q)
         == Below(tr, s, q)
            + Part(se, Under(tr.up, tr.home[t], q), false) - Part(s.taskSe[t], Under(tr.up, tr.home[t], q), false)
  {
    TotalUpdate(BelowParts(tr, s.taskSe, q), BelowParts(tr, s.taskSe[t := se], q), t);
  }

  /** Adding d weight and n entities to a queue whose sums change by as much. */
  lemma BalancedUpdate(tr: Tree, s: State, e: Entity, se: Se, d: int, n: int)
    requires Sized(tr, s) && IsSe(tr, e) && Balanced(tr, s)
    requires d == Part(se, true, true) - Part(SeOf(tr, s, e), true, true)
    requires n == Part(se, true, false) - Part(SeOf(tr, s, e), true, false)
    ensures Balanced(tr, WithSe(tr, WithLoad(tr, s, e, d, n), e, se))
  {
    hide Queued;
    var s1 := WithLoad(tr, s, e, d, n);
    var s2 := WithSe(tr, s1, e, se);
    forall q: nat | q < |tr.up|
      ensures s2.cfs[q].load == Queued(tr, s2, q, true) && s2.cfs[q].nrRunning == Queued(tr, s2, q, false)
    {
      QueuedUpdate(tr, s, e, se, q, true);
      QueuedUpdate(tr, s, e, se, q, false);
      SameQueued(tr, s2, WithSe(tr, s, e, se), q, true);
      SameQueued(tr, s2, WithSe(tr, s, e, se), q, false);
    }
  }

  /** The sums depend on the entities alone. */
  lemma SameQueued(tr: Tree, s: State, s': State, q: nat, byWeight: bool)
    requires Sized(tr, s) && Sized(tr, s') && s.taskSe == s'.taskSe && s.groupSe == s'.groupSe
    ensures Queued(tr, s, q, byWeight) == Queued(tr, s', q, byWeight)
  {}

  lemma SameBelow(tr: Tree, s: State, s': State, q: nat)
    requires Sized(tr, s) && Sized(tr, s') && s.taskSe == s'.taskSe
    ensures Below(tr, s, q) == Below(tr, s', q)
  {}

  /** What the steps of a walk have in common; d is still owed to the h_nr_running above c. */
  ghost predicate Mid(tr: Tree, s: State, c: nat, d: int, except: int) {
    && Sized(tr, s) && c < |tr.up| && PositiveWeights(s) && Balanced(tr, s)
    && Counted(tr, s, c, d) && GroupsMatch(tr, s, except) && Listed(tr, s)
  }

  /** Enqueuing, first loop: c has just received an entity; its own entity may still be off. */
  ghost predicate MidUp(tr: Tree, s: State, c: nat) {
    Mid(tr, s, c, -1, c) && s.cfs[c].nrRunning > 0 && Building(tr.up, s.leaf, c)
  }

  /** Second loop of either walk. */
  ghost predicate MidFlat(tr: Tree, s: State, c: nat, d: int) {
    Mid(tr, s, c, d, -1) && Connected(tr.up, s.leaf)
  }

  /** Dequeuing, first loop: c has just lost its last entity; its own entity is still queued. */
  ghost predicate MidDown(tr: Tree, s: State, c: nat) {
    && Mid(tr, s, c, 1, c) && Connected(tr.up, s.leaf)
    && s.cfs[c].nrRunning == 0 && (c > 0 ==> s.groupSe[c].onRq)
  }

  /** The entity that owns queue c. */
  function Owner(c: nat): Entity {
    if c == 0 then NoSe else GroupSe(c)
  }

  lemma {:induction false} UnderSmaller(up: seq<nat>, a: nat, q: nat)
    requires Topology(up) && a < |up| && Under(up, a, q)
    ensures q <= a
  {
    if a != q {
      UnderSmaller(up, up[a], q);
    }
  }

  /** The queues above c are those from its parent on. */
  lemma AboveParent(up: seq<nat>, c: nat, q: nat)
    requires Topology(up) && 0 < c < |up|
    ensures q != c && Under(up, c, q) <==> Under(up, up[c], q)
  {
    if Under(up, up[c], q) {
      UnderSmaller(up, up[c], q);
    }
  }

  lemma {:induction false} RootAbove(up: seq<nat>, a: nat)
    requires Topology(up) && a < |up|
    ensures Under(up, a, 0)
  {
    if a == 0 {
    } else {
      RootAbove(up, up[a]);
    }
  }

  /** Reweighting a group entity moves load.weight of its queue and nothing else. */
  lemma UpdateCfsGroupEffect(tr: Tree, s: State, e: Entity, shares: seq<nat>)
    requires Sized(tr, s) && IsSe(tr, e) && Shares(tr, shares) && PositiveWeights(s) && Balanced(tr, s)
    ensures var s' := UpdateCfsGroup(tr, s, e, shares);
            && PositiveWeights(s') && Balanced(tr, s')
            && s'.leaf == s.leaf && s'.taskSe == s.taskSe && s'.nrRunning == s.nrRunning
            && (forall g: nat :: g < |tr.up| ==> s'.groupSe[g].onRq == s.groupSe[g].onRq)
            && (forall q: nat :: q < |tr.up| ==>
                 s'.cfs[q].nrRunning == s.cfs[q].nrRunning && s'.cfs[q].hNrRunning == s.cfs[q].hNrRunning)
  {
    if e.GroupSe? {
      var se := s.groupSe[e.q];
      BalancedUpdate(tr, s, e, se.(weight := shares[e.q]), if se.onRq then shares[e.q] - se.weight else 0, 0);
      hide Balanced;
      if !se.onRq {
        assert WithLoad(tr, s, e, 0, 0) == s by {
          assert s.cfs[tr.up[e.q] := s.cfs[tr.up[e.q]]] == s.cfs;
        }
      }
    }
  }

  /** The h_nr_running still owed, one queue further up. */
  lemma CountedUp(tr: Tree, s: State, c: nat, d: int)
    requires Sized(tr, s) && 0 < c < |tr.up| && Counted(tr, s, c, d)
    ensures Counted(tr, BumpH(tr, s, GroupSe(c), -d), tr.up[c], d)
  {
    hide Below;
    hide Under;
    var s' := BumpH(tr, s, GroupSe(c), -d);
    forall q: nat | q < |tr.up|
      ensures s'.cfs[q].hNrRunning == Below(tr, s', q) + if q != tr.up[c] && Under(tr.up, tr.up[c], q) then d else 0
    {
      SameBelow(tr, s, s', q);
      AboveParent(tr.up, c, q);
      UnderSelf(tr.up, tr.up[c]);
    }
  }

  lemma UnderSelf(up: seq<nat>, a: nat)
    requires Topology(up) && a < |up|
    ensures Under(up, a, a)
  {}

  /** Counting does not look at the group entities or the loads. */
  lemma CountedSame(tr: Tree, s: State, s': State, c: nat, d: int)
    requires Sized(tr, s) && Sized(tr, s') && c < |tr.up| && Counted(tr, s, c, d)
    requires s'.taskSe == s.taskSe
    requires forall q: nat :: q < |tr.up| ==> s'.cfs[q].hNrRunning == s.cfs[q].hNrRunning
    ensures Counted(tr, s', c, d)
  {
    hide Below;
    forall q: nat | q < |tr.up|
      ensures Below(tr, s', q) == Below(tr, s, q)
    {
      SameBelow(tr, s, s', q);
    }
  }

  lemma BumpKeepsBalanced(tr: Tree, s: State, e: Entity, d: int)
    requires Sized(tr, s) && IsSe(tr, e) && Balanced(tr, s)
    ensures Balanced(tr, BumpH(tr, s, e, d))
  {
    hide Queued;
    var s' := BumpH(tr, s, e, d);
    forall q: nat | q < |tr.up|
      ensures s'.cfs[q].load == Queued(tr, s', q, true) && s'.cfs[q].nrRunning == Queued(tr, s', q, false)
    {
      SameQueued(tr, s, s', q, true);
      SameQueued(tr, s, s', q, false);
    }
  }

  /** The same entities queued and the same numbers of them. */
  ghost predicate SameShape(tr: Tree, s: State, s': State)
    requires Sized(tr, s) && Sized(tr, s')
  {
    && s'.leaf == s.leaf
    && (forall g: nat :: g < |tr.up| ==> s'.groupSe[g].onRq == s.groupSe[g].onRq)
    && (forall q: nat :: q < |tr.up| ==> s'.cfs[q].nrRunning == s.cfs[q].nrRunning)
  }

  lemma ShapeKeeps(tr: Tree, s: State, s': State, except: int)
    requires Sized(tr, s) && Sized(tr, s') && SameShape(tr, s, s')
    requires GroupsMatch(tr, s, except) && Listed(tr, s)
    ensures GroupsMatch(tr, s', except) && Listed(tr, s')
  {}

  lemma UpdateKeepsMid(tr: Tree, s: State, c: nat, d: int, except: int, e: Entity, shares: seq<nat>)
    requires Mid(tr, s, c, d, except) && IsSe(tr, e) && Shares(tr, shares)
    ensures Mid(tr, UpdateCfsGroup(tr, s, e, shares), c, d, except)
    ensures SameShape(tr, s, UpdateCfsGroup(tr, s, e, shares))
  {
    hide Balanced;
    hide GroupsMatch;
    hide Listed;
    hide Counted;
    hide PositiveWeights;
    var s1 := UpdateCfsGroup(tr, s, e, shares);
    UpdateCfsGroupEffect(tr, s, e, shares);
    hide UpdateCfsGroup;
    CountedSame(tr, s, s1, c, d);
    ShapeKeeps(tr, s, s1, except);
  }

  lemma BumpKeepsShape(tr: Tree, s: State, e: Entity, d: int)
    requires Sized(tr, s) && IsSe(tr, e)
    ensures SameShape(tr, s, BumpH(tr, s, e, d))
    ensures PositiveWeights(s) ==> PositiveWeights(BumpH(tr, s, e, d))
  {}

  lemma BumpMovesUp(tr: Tree, s: State, c: nat, d: int, except: int)
    requires Mid(tr, s, c, d, except) && c > 0
    ensures Mid(tr, BumpH(tr, s, GroupSe(c), -d), tr.up[c], d, except)
    ensures SameShape(tr, s, BumpH(tr, s, GroupSe(c), -d))
  {
    hide Balanced;
    hide GroupsMatch;
    hide Listed;
    hide Counted;
    hide PositiveWeights;
    hide SameShape;
    CountedUp(tr, s, c, d);
    BumpKeepsBalanced(tr, s, GroupSe(c), -d);
    BumpKeepsShape(tr, s, GroupSe(c), -d);
    hide BumpH;
    ShapeKeeps(tr, s, BumpH(tr, s, GroupSe(c), -d), except);
  }

  lemma StepKeepsRest(tr: Tree, s: State, e: Entity, shares: seq<nat>, d: int)
    requires Sized(tr, s) && IsSe(tr, e) && Shares(tr, shares)
    ensures var s' := BumpH(tr, UpdateCfsGroup(tr, s, e, shares), e, d);
            s'.nrRunning == s.nrRunning && s'.taskSe == s.taskSe && s'.leaf == s.leaf
  {}

  /** One step of the second loop of either walk. */
  lemma FlatStep(tr: Tree, s: State, c: nat, d: int, shares: seq<nat>)
    requires MidFlat(tr, s, c, d) && c > 0 && Shares(tr, shares)
    ensures var s' := BumpH(tr, UpdateCfsGroup(tr, s, GroupSe(c), shares), GroupSe(c), -d);
            MidFlat(tr, s', tr.up[c], d) && s'.nrRunning == s.nrRunning && s'.taskSe == s.taskSe
  {
    UpdateKeepsMid(tr, s, c, d, -1, GroupSe(c), shares);
    BumpMovesUp(tr, UpdateCfsGroup(tr, s, GroupSe(c), shares), c, d, -1);
    StepKeepsRest(tr, s, GroupSe(c), shares, -d);
    hide UpdateCfsGroup;
    hide BumpH;
    hide Balanced;
    hide Counted;
    hide GroupsMatch;
    hide Listed;
  }

  /** The second loop brings every h_nr_running above c up to date. */
  lemma {:induction false} PropagateKeeps(tr: Tree, s: State, c: nat, d: int, shares: seq<nat>)
    requires MidFlat(tr, s, c, d) && Shares(tr, shares)
    ensures var s' := Propagate(tr, s, Owner(c), shares, -d);
            MidFlat(tr, s', 0, d) && s'.nrRunning == s.nrRunning && s'.taskSe == s.taskSe
    decreases c
  {
    hide MidFlat;
    hide UpdateCfsGroup;
    hide BumpH;
    assert Sized(tr, s) && c < |tr.up| by {
      FlatIsSized(tr, s, c, d);
    }
    if c == 0 {
    } else {
      FlatStep(tr, s, c, d, shares);
      var s' := BumpH(tr, UpdateCfsGroup(tr, s, GroupSe(c), shares), GroupSe(c), -d);
      PropagateKeeps(tr, s', tr.up[c], d, shares);
    }
  }

  lemma FlatIsSized(tr: Tree, s: State, c: nat, d: int)
    requires MidFlat(tr, s, c, d)
    ensures Sized(tr, s) && c < |tr.up|
  {}

  /** enqueue_entity of an entity that is off its queue. */
  lemma EnqueueEntityBalanced(tr: Tree, s: State, e: Entity, shares: seq<nat>)
    requires Sized(tr, s) && IsSe(tr, e) && Shares(tr, shares) && PositiveWeights(s) && Balanced(tr, s)
    requires !SeOf(tr, s, e).onRq
    ensures Balanced(tr, EnqueueEntity(tr, s, e, shares)) && PositiveWeights(EnqueueEntity(tr, s, e, shares))
  {
    UpdateCfsGroupEffect(tr, s, e, shares);
    var s1 := UpdateCfsGroup(tr, s, e, shares);
    var se := SeOf(tr, s1, e);
    assert !se.onRq;
    BalancedUpdate(tr, s1, e, se.(onRq := true), se.weight, 1);
    var s2 := WithSe(tr, WithLoad(tr, s1, e, se.weight, 1), e, se.(onRq := true));
    BalancedLeaf(tr, s2, EnqueueEntity(tr, s, e, shares));
    hide Balanced;
  }

  lemma BalancedLeaf(tr: Tree, s: State, s': State)
    requires Sized(tr, s) && Sized(tr, s') && Balanced(tr, s) && s' == s.(leaf := s'.leaf)
    ensures Balanced(tr, s')
  {
    hide Queued;
    forall q: nat | q < |tr.up|
      ensures s'.cfs[q].load == Queued(tr, s', q, true) && s'.cfs[q].nrRunning == Queued(tr, s', q, false)
    {
      SameQueued(tr, s, s', q, true);
      SameQueued(tr, s, s', q, false);
    }
  }

  /** What enqueue_entity changes besides the load. */
  lemma EnqueueEntityEffect(tr: Tree, s: State, e: Entity, shares: seq<nat>)
    requires Sized(tr, s) && IsSe(tr, e) && Shares(tr, shares)
    ensures var s', qe := EnqueueEntity(tr, s, e, shares), QueueOf(tr, e);
            && s'.nrRunning == s.nrRunning
            && s'.taskSe == (if e.TaskSe? then s.taskSe[e.t := s.taskSe[e.t].(onRq := true)] else s.taskSe)
            && (forall g: nat :: g < |tr.up| ==> s'.groupSe[g].onRq == (e == GroupSe(g) || s.groupSe[g].onRq))
            && (forall q: nat :: q < |tr.up| ==>
                 && s'.cfs[q].nrRunning == s.cfs[q].nrRunning + (if q == qe then 1 else 0)
                 && s'.cfs[q].hNrRunning == s.cfs[q].hNrRunning)
            && s'.leaf == if s'.cfs[qe].nrRunning == 1 then Add(tr.up, s.leaf, qe).0 else s.leaf
  {
    hide Add;
  }

  /** The queue that receives an entity is listed, and only its own entity can be out of step. */
  lemma EnqueueShape(tr: Tree, s: State, e: Entity, shares: seq<nat>, except: int)
    requires Sized(tr, s) && IsSe(tr, e) && Shares(tr, shares)
    requires GroupsMatch(tr, s, except) && Listed(tr, s) && s.cfs[QueueOf(tr, e)].nrRunning >= 0
    requires match e case TaskSe(_) => except == -1 case GroupSe(g) => except == g && s.cfs[g].nrRunning > 0
    ensures var s', qe := EnqueueEntity(tr, s, e, shares), QueueOf(tr, e);
            GroupsMatch(tr, s', qe) && Listed(tr, s') && s'.cfs[qe].nrRunning > 0
  {
    EnqueueEntityEffect(tr, s, e, shares);
    hide EnqueueEntity;
    AddLists(tr.up, s.leaf, QueueOf(tr, e));
    hide Add;
  }

  lemma AddLists(up: seq<nat>, l: Leaf, q: nat)
    requires q < |up| == |l.onList| && (q > 0 ==> up[q] < |up|)
    ensures Add(up, l, q).0.onList == l.onList[q := true]
  {}

  /** The leaf list after a queue above a connected or pending branch has received an entity. */
  lemma EnqueueLeaf(tr: Tree, s: State, e: Entity, shares: seq<nat>)
    requires Sized(tr, s) && IsSe(tr, e) && Shares(tr, shares)
    requires Listed(tr, s) && s.cfs[QueueOf(tr, e)].nrRunning >= 0
    requires match e case TaskSe(_) => Connected(tr.up, s.leaf) case GroupSe(g) => Building(tr.up, s.leaf, g)
    ensures Building(tr.up, EnqueueEntity(tr, s, e, shares).leaf, QueueOf(tr, e))
  {
    EnqueueEntityEffect(tr, s, e, shares);
    hide EnqueueEntity;
    var qe := QueueOf(tr, e);
    if s.cfs[qe].nrRunning == 0 {
      match e {
        case TaskSe(_) => AddToConnected(tr.up, s.leaf, qe);
        case GroupSe(g) => AddKeepsBuilding(tr.up, s.leaf, g);
      }
    } else if e.GroupSe? {
      assert s.leaf.onList[qe];
      WalkEndsConnected(tr.up, s.leaf, e.q);
    }
  }

  /** A task that becomes runnable counts in every queue above it; its own queue is brought up to date first. */
  lemma CountedStart(tr: Tree, s: State, t: nat, shares: seq<nat>)
    requires Sized(tr, s) && t < |tr.home| && Shares(tr, shares)
    requires Counted(tr, s, 0, 0) && !s.taskSe[t].onRq
    ensures Counted(tr, BumpH(tr, EnqueueEntity(tr, s, TaskSe(t), shares), TaskSe(t), 1), tr.home[t], -1)
  {
    hide Under;
    EnqueueEntityEffect(tr, s, TaskSe(t), shares);
    var s1 := EnqueueEntity(tr, s, TaskSe(t), shares);
    hide EnqueueEntity;
    var s2 := BumpH(tr, s1, TaskSe(t), 1);
    var se := s.taskSe[t].(onRq := true);
    forall q: nat | q < |tr.up|
      ensures s2.cfs[q].hNrRunning
           == Below(tr, s2, q) + if q != tr.home[t] && Under(tr.up, tr.home[t], q) then -1 else 0
    {
      BelowUpdate(tr, s, t, se, q);
      SameBelow(tr, s2, WithSe(tr, s, TaskSe(t), se), q);
      UnderSelf(tr.up, tr.home[t]);
      hide Below;
    }
  }

  lemma NrNonNegative(tr: Tree, s: State, q: nat)
    requires Sized(tr, s) && Balanced(tr, s) && q < |tr.up|
    ensures s.cfs[q].nrRunning >= 0 && s.cfs[q].load >= 0
  {}

  /** The first step of enqueue_task_fair. */
  lemma EnqueueStart(tr: Tree, s: State, t: nat, shares: seq<nat>)
    requires Inv(tr, s) && t < |tr.home| && Shares(tr, shares) && !s.taskSe[t].onRq
    ensures MidUp(tr, BumpH(tr, EnqueueEntity(tr, s, TaskSe(t), shares), TaskSe(t), 1), tr.home[t])
  {
    var e := TaskSe(t);
    var s1 := EnqueueEntity(tr, s, e, shares);
    NrNonNegative(tr, s, tr.home[t]);
    EnqueueEntityBalanced(tr, s, e, shares);
    EnqueueShape(tr, s, e, shares, -1);
    EnqueueLeaf(tr, s, e, shares);
    CountedStart(tr, s, t, shares);
    BumpAfterEnqueue(tr, s1, e, tr.home[t]);
  }

  /** The bump of h_nr_running after an enqueue leaves everything else alone. */
  lemma BumpAfterEnqueue(tr: Tree, s: State, e: Entity, c: nat)
    requires Sized(tr, s) && IsSe(tr, e) && c == QueueOf(tr, e)
    requires PositiveWeights(s) && Balanced(tr, s) && GroupsMatch(tr, s, c) && Listed(tr, s)
    requires s.cfs[c].nrRunning > 0 && Building(tr.up, s.leaf, c)
    requires Counted(tr, BumpH(tr, s, e, 1), c, -1)
    ensures MidUp(tr, BumpH(tr, s, e, 1), c)
  {
    hide Balanced;
    hide GroupsMatch;
    hide Listed;
    hide Counted;
    hide PositiveWeights;
    hide Building;
    BumpKeepsBalanced(tr, s, e, 1);
    BumpKeepsShape(tr, s, e, 1);
    hide BumpH;
    ShapeKeeps(tr, s, BumpH(tr, s, e, 1), c);
  }

  /** A further step: the entity of the queue that has just received one was off. */
  lemma EnqueueStep(tr: Tree, s: State, c: nat, shares: seq<nat>)
    requires MidUp(tr, s, c) && c > 0 && Shares(tr, shares) && !s.groupSe[c].onRq
    ensures MidUp(tr, BumpH(tr, EnqueueEntity(tr, s, GroupSe(c), shares), GroupSe(c), 1), tr.up[c])
  {
    var e := GroupSe(c);
    var s1 := EnqueueEntity(tr, s, e, shares);
    NrNonNegative(tr, s, tr.up[c]);
    EnqueueEntityBalanced(tr, s, e, shares);
    EnqueueShape(tr, s, e, shares, c);
    EnqueueLeaf(tr, s, e, shares);
    EnqueueEntityEffect(tr, s, e, shares);
    hide EnqueueEntity;
    CountedSame(tr, s, s1, c, -1);
    CountedUp(tr, s1, c, -1);
    BumpAfterEnqueue(tr, s1, e, tr.up[c]);
  }

  /** The walk stops at an entity that is already queued: its queue is listed, so nothing is pending. */
  lemma EnqueueStops(tr: Tree, s: State, c: nat)
    requires MidUp(tr, s, c) && (c == 0 || s.groupSe[c].onRq)
    ensures MidFlat(tr, s, c, -1)
  {
    if c > 0 {
      GroupIsCounted(tr, s, c);
      assert s.leaf.onList[tr.up[c]];
    }
    WalkEndsConnected(tr.up, s.leaf, c);
    hide Balanced;
    hide Counted;
    hide Connected;
    hide Building;
  }

  /** A queued group entity is one of the entities of its parent queue. */
  lemma GroupIsCounted(tr: Tree, s: State, g: nat)
    requires Sized(tr, s) && Balanced(tr, s) && 0 < g < |tr.up| && s.groupSe[g].onRq
    ensures s.cfs[tr.up[g]].nrRunning > 0
  {
    TotalAtLeast(GroupParts(tr, s.groupSe, tr.up[g], false), g);
  }

  lemma UpIsSized(tr: Tree, s: State, c: nat)
    requires MidUp(tr, s, c)
    ensures Sized(tr, s) && c < |tr.up|
  {}

  lemma EnqueueKeepsRest(tr: Tree, s: State, g: nat, shares: seq<nat>)
    requires Sized(tr, s) && 0 < g < |tr.up| && Shares(tr, shares)
    ensures var s' := BumpH(tr, EnqueueEntity(tr, s, GroupSe(g), shares), GroupSe(g), 1);
            s'.nrRunning == s.nrRunning && s'.taskSe == s.taskSe
  {
    hide Add;
  }

  /** What is left of enqueue_task_fair once queue c has received an entity. */
  function EnqueueRest(tr: Tree, s: State, c: nat, shares: seq<nat>): (s': State)
    requires Sized(tr, s) && c < |tr.up| && Shares(tr, shares)
    ensures Sized(tr, s')
  {
    EnqueueWalk(tr, s, Owner(c), shares)
  }

  lemma {:induction false} EnqueueRestKeeps(tr: Tree, s: State, c: nat, shares: seq<nat>)
    requires MidUp(tr, s, c) && Shares(tr, shares)
    ensures Sized(tr, s) && c < |tr.up|
    ensures var s' := EnqueueRest(tr, s, c, shares);
            MidFlat(tr, s', 0, -1) && s'.nrRunning == s.nrRunning && s'.taskSe == s.taskSe
    decreases c
  {
    hide MidUp;
    hide MidFlat;
    hide EnqueueEntity;
    hide BumpH;
    UpIsSized(tr, s, c);
    if c == 0 {
      EnqueueStops(tr, s, c);
    } else if s.groupSe[c].onRq {
      EnqueueStops(tr, s, c);
      PropagateKeeps(tr, s, c, -1, shares);
      hide Propagate;
    } else {
      EnqueueStep(tr, s, c, shares);
      EnqueueKeepsRest(tr, s, c, shares);
      var s' := BumpH(tr, EnqueueEntity(tr, s, GroupSe(c), shares), GroupSe(c), 1);
      EnqueueRestKeeps(tr, s', tr.up[c], shares);
      hide Propagate;
    }
  }

  /** Nothing is owed above the root. */
  lemma FlatAtRoot(tr: Tree, s: State, d: int)
    requires MidFlat(tr, s, 0, d)
    ensures Counted(tr, s, 0, 0)
  {}

  /** The state after the first iteration, from which the rest of the walk goes on. */
  lemma EnqueueFirst(tr: Tree, s: State, t: nat, shares: seq<nat>) returns (s1: State)
    requires Inv(tr, s) && t < |tr.home| && Shares(tr, shares) && !s.taskSe[t].onRq
    ensures MidUp(tr, s1, tr.home[t]) && Sized(tr, s1)
    ensures EnqueueWalk(tr, s, TaskSe(t), shares) == EnqueueRest(tr, s1, tr.home[t], shares)
    ensures s1.nrRunning == s.nrRunning && s1.taskSe == s.taskSe[t := s.taskSe[t].(onRq := true)]
  {
    s1 := BumpH(tr, EnqueueEntity(tr, s, TaskSe(t), shares), TaskSe(t), 1);
    EnqueueStart(tr, s, t, shares);
    EnqueueEntityEffect(tr, s, TaskSe(t), shares);
    hide EnqueueEntity;
    hide MidUp;
    hide Inv;
  }

  lemma InvRoot(tr: Tree, s: State)
    requires Inv(tr, s)
    ensures Sized(tr, s) && s.nrRunning == Below(tr, s, 0)
  {}

  /** From the end of a walk that has turned task t's record into se back to the invariant. */
  lemma WalkDone(tr: Tree, s: State, s2: State, t: nat, se: Se, d: int)
    requires Sized(tr, s) && t < |tr.home| && s.nrRunning == Below(tr, s, 0)
    requires MidFlat(tr, s2, 0, d) && s2.nrRunning == s.nrRunning && s2.taskSe == s.taskSe[t := se]
    requires (d == -1 && se.onRq && !s.taskSe[t].onRq) || (d == 1 && !se.onRq && s.taskSe[t].onRq)
    ensures Inv(tr, s2.(nrRunning := s2.nrRunning - d))
  {
    hide MidFlat;
    hide Below;
    hide Inv;
    AfterFlatIsSized(tr, s2, d);
    hide Sized;
    RootCount(tr, s, s2, t, se);
    FinishWalk(tr, s2, s2.(nrRunning := s2.nrRunning - d), d);
  }

  lemma AfterFlatIsSized(tr: Tree, s: State, d: int)
    requires MidFlat(tr, s, 0, d)
    ensures Sized(tr, s)
  {}

  lemma EnqueueTaskIs(tr: Tree, s: State, t: nat, shares: seq<nat>)
    requires Sized(tr, s) && t < |tr.home| && Shares(tr, shares)
    ensures EnqueueTask(tr, s, t, shares)
         == EnqueueWalk(tr, s, TaskSe(t), shares).(nrRunning := EnqueueWalk(tr, s, TaskSe(t), shares).nrRunning + 1)
  {
    hide EnqueueWalk;
  }

  /** enqueue_task_fair keeps the invariant and makes exactly this task runnable. */
  lemma EnqueueTaskKeeps(tr: Tree, s: State, t: nat, shares: seq<nat>)
    requires Inv(tr, s) && t < |tr.home| && Shares(tr, shares) && !s.taskSe[t].onRq
    ensures Inv(tr, EnqueueTask(tr, s, t, shares))
    ensures EnqueueTask(tr, s, t, shares).taskSe == s.taskSe[t := s.taskSe[t].(onRq := true)]
  {
    hide *;
    InvRoot(tr, s);
    var s1 := EnqueueFirst(tr, s, t, shares);
    EnqueueRestKeeps(tr, s1, tr.home[t], shares);
    EnqueueTaskIs(tr, s, t, shares);
    WalkDone(tr, s, EnqueueRest(tr, s1, tr.home[t], shares), t, s.taskSe[t].(onRq := true), -1);
  }

  /** How one task's record changes the count at the root. */
  lemma RootCount(tr: Tree, s: State, s': State, t: nat, se: Se)
    requires Sized(tr, s) && Sized(tr, s') && t < |tr.home| && s'.taskSe == s.taskSe[t := se]
    ensures Below(tr, s', 0) == Below(tr, s, 0) + Part(se, true, false) - Part(s.taskSe[t], true, false)
  {
    BelowUpdate(tr, s, t, se, 0);
    SameBelow(tr, s', WithSe(tr, s, TaskSe(t), se), 0);
    RootAbove(tr.up, tr.home[t]);
  }

  /** At the root, only the runqueue's own nr_running is left to adjust. */
  lemma FinishWalk(tr: Tree, s: State, s': State, d: int)
    requires MidFlat(tr, s, 0, d) && s' == s.(nrRunning := s'.nrRunning) && s'.nrRunning == Below(tr, s, 0)
    ensures Inv(tr, s')
  {
    FlatAtRoot(tr, s, d);
    BalancedSame(tr, s, s');
    CountedSame(tr, s, s', 0, 0);
    SameBelow(tr, s, s', 0);
    hide Balanced;
    hide Counted;
    hide Below;
  }

  lemma BalancedSame(tr: Tree, s: State, s': State)
    requires Sized(tr, s) && Balanced(tr, s) && s' == s.(nrRunning := s'.nrRunning)
    ensures Balanced(tr, s')
  {
    hide Queued;
    forall q: nat | q < |tr.up|
      ensures s'.cfs[q].load == Queued(tr, s', q, true) && s'.cfs[q].nrRunning == Queued(tr, s', q, false)
    {
      SameQueued(tr, s, s', q, true);
      SameQueued(tr, s, s', q, false);
    }
  }

  /** A queue has weight exactly when it has an entity: no entity weighs nothing. */
  lemma LoadVanishes(tr: Tree, s: State, q: nat)
    requires Sized(tr, s) && PositiveWeights(s) && Balanced(tr, s) && q < |tr.up|
    ensures s.cfs[q].load == 0 <==> s.cfs[q].nrRunning == 0
  {
    TotalsVanishTogether(TaskParts(tr, s.taskSe, q, true), TaskParts(tr, s.taskSe, q, false));
    TotalsVanishTogether(GroupParts(tr, s.groupSe, q, true), GroupParts(tr, s.groupSe, q, false));
  }

  lemma DequeueEntityBalanced(tr: Tree, s: State, e: Entity, shares: seq<nat>)
    requires Sized(tr, s) && IsSe(tr, e) && Shares(tr, shares) && PositiveWeights(s) && Balanced(tr, s)
    requires SeOf(tr, s, e).onRq
    ensures Balanced(tr, DequeueEntity(tr, s, e, shares)) && PositiveWeights(DequeueEntity(tr, s, e, shares))
  {
    var se := SeOf(tr, s, e);
    BalancedUpdate(tr, s, e, se.(onRq := false), 0 - se.weight, -1);
    var s1 := WithSe(tr, WithLoad(tr, s, e, 0 - se.weight, -1), e, se.(onRq := false));
    UpdateCfsGroupEffect(tr, s1, e, shares);
    hide Balanced;
  }

  /** What dequeue_entity changes besides the load. */
  lemma DequeueEntityEffect(tr: Tree, s: State, e: Entity, shares: seq<nat>)
    requires Sized(tr, s) && IsSe(tr, e) && Shares(tr, shares)
    ensures var s', qe := DequeueEntity(tr, s, e, shares), QueueOf(tr, e);
            && s'.nrRunning == s.nrRunning && s'.leaf == s.leaf
            && s'.taskSe == (if e.TaskSe? then s.taskSe[e.t := s.taskSe[e.t].(onRq := false)] else s.taskSe)
            && (forall g: nat :: g < |tr.up| ==> s'.groupSe[g].onRq == (e != GroupSe(g) && s.groupSe[g].onRq))
            && (forall q: nat :: q < |tr.up| ==>
                 && s'.cfs[q].nrRunning == s.cfs[q].nrRunning - (if q == qe then 1 else 0)
                 && s'.cfs[q].hNrRunning == s.cfs[q].hNrRunning)
  {}

  /** After a dequeue only the entity of the queue that lost one can be out of step. */
  lemma DequeueShape(tr: Tree, s: State, e: Entity, shares: seq<nat>, except: int)
    requires Sized(tr, s) && IsSe(tr, e) && Shares(tr, shares)
    requires GroupsMatch(tr, s, except) && Listed(tr, s) && s.cfs[QueueOf(tr, e)].nrRunning > 0
    requires match e case TaskSe(_) => except == -1 case GroupSe(g) => except == g && s.cfs[g].nrRunning == 0
    ensures var s', qe := DequeueEntity(tr, s, e, shares), QueueOf(tr, e);
            && GroupsMatch(tr, s', qe) && Listed(tr, s')
            && (qe > 0 ==> s'.groupSe[qe].onRq)
            && (s'.cfs[qe].nrRunning > 0 ==> GroupsMatch(tr, s', -1))
  {
    DequeueEntityEffect(tr, s, e, shares);
    hide DequeueEntity;
  }

  /** A task that stops being runnable is still counted above its own queue. */
  lemma CountedStop(tr: Tree, s: State, t: nat, shares: seq<nat>)
    requires Sized(tr, s) && t < |tr.home| && Shares(tr, shares)
    requires Counted(tr, s, 0, 0) && s.taskSe[t].onRq
    ensures Counted(tr, BumpH(tr, DequeueEntity(tr, s, TaskSe(t), shares), TaskSe(t), -1), tr.home[t], 1)
  {
    hide Under;
    DequeueEntityEffect(tr, s, TaskSe(t), shares);
    var s1 := DequeueEntity(tr, s, TaskSe(t), shares);
    hide DequeueEntity;
    var s2 := BumpH(tr, s1, TaskSe(t), -1);
    var se := s.taskSe[t].(onRq := false);
    forall q: nat | q < |tr.up|
      ensures s2.cfs[q].hNrRunning
           == Below(tr, s2, q) + if q != tr.home[t] && Under(tr.up, tr.home[t], q) then 1 else 0
    {
      BelowUpdate(tr, s, t, se, q);
      SameBelow(tr, s2, WithSe(tr, s, TaskSe(t), se), q);
      UnderSelf(tr.up, tr.home[t]);
      hide Below;
    }
  }

  lemma TaskIsCounted(tr: Tree, s: State, t: nat)
    requires Sized(tr, s) && Balanced(tr, s) && t < |tr.home| && s.taskSe[t].onRq
    ensures s.cfs[tr.home[t]].nrRunning > 0
  {
    TotalAtLeast(TaskParts(tr, s.taskSe, tr.home[t], false), t);
  }

  /** Where a dequeue leaves the walk: done with dequeuing, or on to the queue's own entity. */
  ghost predicate AfterDequeue(tr: Tree, s: State, c: nat) {
    && Sized(tr, s) && c < |tr.up|
    && if s.cfs[c].load != 0 then MidFlat(tr, s, c, 1) else MidDown(tr, s, c)
  }

  lemma BumpAfterDequeue(tr: Tree, s: State, e: Entity, c: nat)
    requires Sized(tr, s) && IsSe(tr, e) && c == QueueOf(tr, e)
    requires PositiveWeights(s) && Balanced(tr, s) && GroupsMatch(tr, s, c) && Listed(tr, s)
    requires (c > 0 ==> s.groupSe[c].onRq) && (s.cfs[c].nrRunning > 0 ==> GroupsMatch(tr, s, -1))
    requires Connected(tr.up, s.leaf)
    requires Counted(tr, BumpH(tr, s, e, -1), c, 1)
    ensures AfterDequeue(tr, BumpH(tr, s, e, -1), c)
  {
    hide Balanced;
    hide GroupsMatch;
    hide Listed;
    hide Counted;
    hide PositiveWeights;
    hide Connected;
    var s' := BumpH(tr, s, e, -1);
    BumpKeepsBalanced(tr, s, e, -1);
    BumpKeepsShape(tr, s, e, -1);
    LoadVanishes(tr, s', c);
    NrNonNegative(tr, s', c);
    hide BumpH;
    ShapeKeeps(tr, s, s', c);
    if s'.cfs[c].nrRunning > 0 {
      ShapeKeeps(tr, s, s', -1);
    }
  }

  /** The first step of dequeue_task_fair. */
  lemma DequeueStart(tr: Tree, s: State, t: nat, shares: seq<nat>)
    requires Inv(tr, s) && t < |tr.home| && Shares(tr, shares) && s.taskSe[t].onRq
    ensures AfterDequeue(tr, BumpH(tr, DequeueEntity(tr, s, TaskSe(t), shares), TaskSe(t), -1), tr.home[t])
  {
    var e := TaskSe(t);
    var s1 := DequeueEntity(tr, s, e, shares);
    TaskIsCounted(tr, s, t);
    DequeueEntityBalanced(tr, s, e, shares);
    DequeueShape(tr, s, e, shares, -1);
    DequeueEntityEffect(tr, s, e, shares);
    CountedStop(tr, s, t, shares);
    hide DequeueEntity;
    hide AfterDequeue;
    BumpAfterDequeue(tr, s1, e, tr.home[t]);
  }

  /** A further step: the queue that has just run empty takes its own entity off. */
  lemma DequeueStep(tr: Tree, s: State, c: nat, shares: seq<nat>)
    requires MidDown(tr, s, c) && c > 0 && Shares(tr, shares)
    ensures AfterDequeue(tr, BumpH(tr, DequeueEntity(tr, s, GroupSe(c), shares), GroupSe(c), -1), tr.up[c])
  {
    var e := GroupSe(c);
    var s1 := DequeueEntity(tr, s, e, shares);
    GroupIsCounted(tr, s, c);
    DequeueEntityBalanced(tr, s, e, shares);
    DequeueShape(tr, s, e, shares, c);
    DequeueEntityEffect(tr, s, e, shares);
    hide DequeueEntity;
    hide AfterDequeue;
    CountedSame(tr, s, s1, c, 1);
    CountedUp(tr, s1, c, 1);
    BumpAfterDequeue(tr, s1, e, tr.up[c]);
  }

  lemma DequeueKeepsRest(tr: Tree, s: State, g: nat, shares: seq<nat>)
    requires Sized(tr, s) && 0 < g < |tr.up| && Shares(tr, shares)
    ensures var s' := BumpH(tr, DequeueEntity(tr, s, GroupSe(g), shares), GroupSe(g), -1);
            s'.nrRunning == s.nrRunning && s'.taskSe == s.taskSe
  {}

  /** At the root there is no entity left to take off. */
  lemma DownAtRoot(tr: Tree, s: State)
    requires MidDown(tr, s, 0)
    ensures MidFlat(tr, s, 0, 1)
  {}

  /** What is left of dequeue_task_fair once queue c has lost an entity. */
  function DequeueRest(tr: Tree, s: State, c: nat, shares: seq<nat>): (s': State)
    requires Sized(tr, s) && c < |tr.up| && Shares(tr, shares)
    ensures Sized(tr, s')
  {
    if s.cfs[c].load != 0 then Propagate(tr, s, Owner(c), shares, -1)
    else DequeueWalk(tr, s, Owner(c), shares)
  }

  lemma {:induction false} DequeueRestKeeps(tr: Tree, s: State, c: nat, shares: seq<nat>)
    requires AfterDequeue(tr, s, c) && Shares(tr, shares)
    ensures var s' := DequeueRest(tr, s, c, shares);
            MidFlat(tr, s', 0, 1) && s'.nrRunning == s.nrRunning && s'.taskSe == s.taskSe
    decreases c
  {
    hide MidFlat;
    hide MidDown;
    hide DequeueEntity;
    hide BumpH;
    hide Propagate;
    if s.cfs[c].load != 0 {
      PropagateKeeps(tr, s, c, 1, shares);
    } else if c == 0 {
      DownAtRoot(tr, s);
    } else {
      DequeueStep(tr, s, c, shares);
      DequeueKeepsRest(tr, s, c, shares);
      var s' := BumpH(tr, DequeueEntity(tr, s, GroupSe(c), shares), GroupSe(c), -1);
      DequeueRestKeeps(tr, s', tr.up[c], shares);
    }
  }

  lemma DequeueFirst(tr: Tree, s: State, t: nat, shares: seq<nat>) returns (s1: State)
    requires Inv(tr, s) && t < |tr.home| && Shares(tr, shares) && s.taskSe[t].onRq
    ensures AfterDequeue(tr, s1, tr.home[t])
    ensures DequeueWalk(tr, s, TaskSe(t), shares) == DequeueRest(tr, s1, tr.home[t], shares)
    ensures s1.nrRunning == s.nrRunning && s1.taskSe == s.taskSe[t := s.taskSe[t].(onRq := false)]
  {
    s1 := BumpH(tr, DequeueEntity(tr, s, TaskSe(t), shares), TaskSe(t), -1);
    DequeueStart(tr, s, t, shares);
    DequeueEntityEffect(tr, s, TaskSe(t), shares);
    hide DequeueEntity;
    hide MidDown;
    hide MidFlat;
    hide Inv;
  }

  lemma DequeueTaskIs(tr: Tree, s: State, t: nat, shares: seq<nat>)
    requires Sized(tr, s) && t < |tr.home| && Shares(tr, shares)
    ensures DequeueTask(tr, s, t, shares)
         == DequeueWalk(tr, s, TaskSe(t), shares).(nrRunning := DequeueWalk(tr, s, TaskSe(t), shares).nrRunning - 1)
  {
    hide DequeueWalk;
  }

  /** dequeue_task_fair keeps the invariant and stops exactly this task from being runnable. */
  lemma DequeueTaskKeeps(tr: Tree, s: State, t: nat, shares: seq<nat>)
    requires Inv(tr, s) && t < |tr.home| && Shares(tr, shares) && s.taskSe[t].onRq
    ensures Inv(tr, DequeueTask(tr, s, t, shares))
    ensures DequeueTask(tr, s, t, shares).taskSe == s.taskSe[t := s.taskSe[t].(onRq := false)]
  {
    hide *;
    InvRoot(tr, s);
    var s1 := DequeueFirst(tr, s, t, shares);
    AfterIsSized(tr, s1, tr.home[t]);
    DequeueRestKeeps(tr, s1, tr.home[t], shares);
    DequeueTaskIs(tr, s, t, shares);
    WalkDone(tr, s, DequeueRest(tr, s1, tr.home[t], shares), t, s.taskSe[t].(onRq := false), 1);
  }

  lemma AfterIsSized(tr: Tree, s: State, c: nat)
    requires AfterDequeue(tr, s, c)
    ensures Sized(tr, s) && c < |tr.up|
  {}

  /** Taking an empty queue off the leaf list, as the periodic update of blocked averages does. */
  function RemoveLeaf(s: State, q: nat): State
    requires q < |s.leaf.onList|
  {
    s.(leaf := Del(s.leaf, q))
  }

  lemma RemoveKeepsShape(tr: Tree, s: State, q: nat)
    requires Sized(tr, s) && q < |tr.up| && GroupsMatch(tr, s, -1) && Listed(tr, s) && s.cfs[q].nrRunning == 0
    requires PositiveWeights(s)
    ensures var s' := RemoveLeaf(s, q);
            Sized(tr, s') && GroupsMatch(tr, s', -1) && Listed(tr, s') && PositiveWeights(s')
  {}

  /** Removing an empty queue keeps the invariant exactly when none of its children is listed. */
  lemma RemoveLeafKeeps(tr: Tree, s: State, q: nat)
    requires Inv(tr, s) && q < |tr.up| && s.cfs[q].load == 0 && s.leaf.onList[q]
    ensures Inv(tr, RemoveLeaf(s, q)) <==> !ChildOnList(tr.up, s.leaf, q)
  {
    hide Balanced;
    hide Counted;
    hide Below;
    hide Connected;
    hide ChildOnList;
    hide GroupsMatch;
    hide Listed;
    hide PositiveWeights;
    hide Del;
    var s' := RemoveLeaf(s, q);
    DelKeepsConnected(tr.up, s.leaf, q);
    LoadVanishes(tr, s, q);
    RemoveKeepsShape(tr, s, q);
    BalancedLeaf(tr, s, s');
    CountedSame(tr, s, s', 0, 0);
    SameBelow(tr, s, s', 0);
  }

  /** A CPU on which nothing has been queued yet. */
  predicate Fresh(tr: Tree, s: State) {
    && |s.cfs| == |s.groupSe| == |tr.up| && |s.taskSe| == |tr.home|
    && (forall q: nat :: q < |s.cfs| ==> s.cfs[q] == CfsRq(0, 0, 0))
    && (forall t: nat :: t < |s.taskSe| ==> !s.taskSe[t].onRq && s.taskSe[t].weight > 0)
    && (forall g: nat :: g < |s.groupSe| ==> !s.groupSe[g].onRq && s.groupSe[g].weight > 0)
    && s.leaf == EmptyLeaf(|tr.up|) && s.nrRunning == 0
  }

  lemma {:induction false} TotalOfZeros(xs: seq<nat>)
    requires forall i: nat :: i < |xs| ==> xs[i] == 0
    ensures Total(xs) == 0
  {
    if xs == [] {
    } else {
      TotalOfZeros(xs[..|xs| - 1]);
    }
  }

  lemma FreshInv(tr: Tree, s: State)
    requires Wf(tr) && Fresh(tr, s)
    ensures Inv(tr, s)
  {
    EmptyLeafConnected(tr.up);
    forall q: nat | q < |tr.up|
      ensures Queued(tr, s, q, true) == 0 && Queued(tr, s, q, false) == 0 && Below(tr, s, q) == 0
    {
      TotalOfZeros(TaskParts(tr, s.taskSe, q, true));
      TotalOfZeros(TaskParts(tr, s.taskSe, q, false));
      TotalOfZeros(GroupParts(tr, s.groupSe, q, true));
      TotalOfZeros(GroupParts(tr, s.groupSe, q, false));
      TotalOfZeros(BelowParts(tr, s.taskSe, q));
    }
    hide Connected;
    hide Queued;
    hide Below;
  }

  /** What happens on a CPU. A request that does not apply to the current state is not made. */
  datatype Op = Enqueue(t: nat, shares: seq<nat>) | Dequeue(t: nat, shares: seq<nat>) | Remove(q: nat)

  ghost function Apply(tr: Tree, s: State, op: Op): State
    requires Sized(tr, s)
  {
    match op
    case Enqueue(t, shares) =>
      if t < |tr.home| && Shares(tr, shares) && !s.taskSe[t].onRq then EnqueueTask(tr, s, t, shares) else s
    case Dequeue(t, shares) =>
      if t < |tr.home| && Shares(tr, shares) && s.taskSe[t].onRq then DequeueTask(tr, s, t, shares) else s
    case Remove(q) =>
      if q < |tr.up| && s.cfs[q].load == 0 && !ChildOnList(tr.up, s.leaf, q) then RemoveLeaf(s, q) else s
  }

  lemma ApplyKeeps(tr: Tree, s: State, op: Op)
    requires Inv(tr, s)
    ensures Sized(tr, s) && Inv(tr, Apply(tr, s, op))
  {
    hide Inv;
    InvRoot(tr, s);
    hide EnqueueTask;
    hide DequeueTask;
    match op {
      case Enqueue(t, shares) =>
        if t < |tr.home| && Shares(tr, shares) && !s.taskSe[t].onRq {
          EnqueueTaskKeeps(tr, s, t, shares);
        }
      case Dequeue(t, shares) =>
        if t < |tr.home| && Shares(tr, shares) && s.taskSe[t].onRq {
          DequeueTaskKeeps(tr, s, t, shares);
        }
      case Remove(q) =>
        if q < |tr.up| && s.cfs[q].load == 0 && !ChildOnList(tr.up, s.leaf, q) {
          if s.leaf.onList[q] {
            RemoveLeafKeeps(tr, s, q);
          } else {
            assert RemoveLeaf(s, q) == s;
          }
        }
    }
  }

  /** A run of the CPU from a fresh state. */
  ghost predicate Reaches(tr: Tree, s: State, ops: seq<Op>, s': State)
    decreases |ops|
  {
    if ops == [] then s' == s
    else Sized(tr, s) && Reaches(tr, Apply(tr, s, ops[0]), ops[1..], s')
  }

  lemma {:induction false} ReachesKeeps(tr: Tree, s: State, ops: seq<Op>, s': State)
    requires Inv(tr, s) && Reaches(tr, s, ops, s')
    ensures Inv(tr, s')
    decreases |ops|
  {
    hide Inv;
    hide Apply;
    if ops == [] {
    } else {
      ApplyKeeps(tr, s, ops[0]);
      ReachesKeeps(tr, Apply(tr, s, ops[0]), ops[1..], s');
    }
  }

  /**
   * After every sequence of enqueues, dequeues and removals on any tree of groups:
   * h_nr_running counts the runnable tasks below each queue, load.weight and nr_running
   * are the sums over its queued entities, a group entity is queued exactly when its queue
   * is not empty, and the leaf list is ordered, holds every non-empty queue and has
   * tmp_alone_branch at its head.
   */
  lemma HierarchyTheorem(tr: Tree, s: State, ops: seq<Op>, s': State)
    requires Wf(tr) && Fresh(tr, s) && Reaches(tr, s, ops, s')
    ensures Sized(tr, s') && s'.leaf.tmp == -1 && s'.nrRunning == Below(tr, s', 0)
    ensures forall q: nat :: q < |tr.up| ==>
              && s'.cfs[q].hNrRunning == Below(tr, s', q)
              && s'.cfs[q].load == Queued(tr, s', q, true)
              && s'.cfs[q].nrRunning == Queued(tr, s', q, false)
              && (q > 0 ==> (s'.groupSe[q].onRq <==> s'.cfs[q].nrRunning > 0))
              && (s'.cfs[q].nrRunning > 0 ==> s'.leaf.onList[q])
              && (q > 0 && s'.leaf.onList[q] ==> Before(s'.leaf.list, q, tr.up[q]))
  {
    FreshInv(tr, s);
    ReachesKeeps(tr, s, ops, s');
    InvMeans(tr, s');
  }

  lemma InvMeans(tr: Tree, s: State)
    requires Inv(tr, s)
    ensures Sized(tr, s) && s.leaf.tmp == -1 && s.nrRunning == Below(tr, s, 0)
    ensures forall q: nat :: q < |tr.up| ==>
              && s.cfs[q].hNrRunning == Below(tr, s, q)
              && s.cfs[q].load == Queued(tr, s, q, true)
              && s.cfs[q].nrRunning == Queued(tr, s, q, false)
              && (q > 0 ==> (s.groupSe[q].onRq <==> s.cfs[q].nrRunning > 0))
              && (s.cfs[q].nrRunning > 0 ==> s.leaf.onList[q])
              && (q > 0 && s.leaf.onList[q] ==> Before(s.leaf.list, q, tr.up[q]))
  {
    hide Below;
    hide Queued;
  }
}

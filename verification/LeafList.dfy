/**
 * The list of leaf cfs_rq of one CPU (fair.c): every queue on the list comes before
 * its parent, although queues are added bottom-up one at a time. The queues of the
 * CPU are numbered in creation order, so a parent has a smaller number than its
 * children, and 0 is the root.
 */
module LeafList {
  import opened Lists

  /** up[q] is the queue of the parent group; up[0] is not used. */
  ghost predicate Topology(up: seq<nat>) {
    |up| > 0 && forall q: nat :: 0 < q < |up| ==> up[q] < q
  }

  /** on_list of every queue, the list itself, and tmp_alone_branch (-1 for the list head). */
  datatype Leaf = Leaf(onList: seq<bool>, list: seq<nat>, tmp: int)

  /** The position after the element tmp_alone_branch points to. */
  function AfterTmp(l: Leaf): (k: nat)
    ensures k <= |l.list|
  {
    if l.tmp < 0 then 0
    else
      var k := IndexOf(l.list, l.tmp);
      if k < |l.list| then k + 1 else k
  }

  /** list_add_leaf_cfs_rq, with its result: whether the branch is connected. */
  function Add(up: seq<nat>, l: Leaf, q: nat): (Leaf, bool)
    requires q < |up| == |l.onList| && (q > 0 ==> up[q] < |up|)
  {
    if l.onList[q] then (l, l.tmp < 0)
    else
      var onList := l.onList[q := true];
      if q > 0 && l.onList[up[q]] then
        (Leaf(onList, Insert(l.list, IndexOf(l.list, up[q]), q), -1), true)
      else if q == 0 then
        (Leaf(onList, l.list + [q], -1), true)
      else
        (Leaf(onList, Insert(l.list, AfterTmp(l), q), q), false)
  }

  /** list_del_leaf_cfs_rq. */
  function Del(l: Leaf, q: nat): Leaf
    requires q < |l.onList|
  {
    if !l.onList[q] then l
    else
      var k := IndexOf(l.list, q);
      var tmp := if l.tmp != q then l.tmp else if 0 < k <= |l.list| then l.list[k - 1] else -1;
      Leaf(l.onList[q := false], Without(l.list, q), tmp)
  }

  /** on_list says who is on the list. */
  ghost predicate Members(up: seq<nat>, l: Leaf) {
    && |l.onList| == |up|
    && Distinct(l.list)
    && (forall q: nat :: q in l.list <==> q < |up| && l.onList[q])
  }

  /** Every queue on the list but one has its parent on the list, behind it. */
  ghost predicate OrderedExcept(up: seq<nat>, l: Leaf, except: int)
    requires |l.onList| == |up|
  {
    forall q: nat :: 0 < q < |up| && l.onList[q] && q != except ==> Before(l.list, q, up[q])
  }

  /** The list between operations: complete, ordered, and no branch pending. */
  ghost predicate Connected(up: seq<nat>, l: Leaf) {
    Members(up, l) && OrderedExcept(up, l, -1) && l.tmp == -1
  }

  /** A branch whose top c has been added at the front while its parent is still missing. */
  ghost predicate Dangling(up: seq<nat>, l: Leaf, c: nat) {
    && Members(up, l) && OrderedExcept(up, l, c) && l.tmp == c
    && 0 < c < |up| && l.onList[c] && up[c] < |up| && !l.onList[up[c]]
    && PrefixAtLeast(l.list, IndexOf(l.list, c) + 1, c)
  }

  /** The first n elements are at least x. */
  predicate PrefixAtLeast(list: seq<nat>, n: nat, x: nat) {
    forall k: nat :: k < n && k < |list| ==> list[k] >= x
  }

  /** The states of an upward walk that has just handled queue c. */
  ghost predicate Building(up: seq<nat>, l: Leaf, c: nat) {
    Connected(up, l) || Dangling(up, l, c)
  }

  /** An insertion anywhere keeps the order of what was there. */
  lemma InsertKeepsBefore(list: seq<nat>, k: nat, x: nat, a: nat, b: nat)
    requires Distinct(list) && k <= |list| && x !in list && Before(list, a, b)
    ensures Before(Insert(list, k, x), a, b)
  {
    InsertIndex(list, k, x, a);
    InsertIndex(list, k, x, b);
  }

  /** Inserting q keeps membership and the order of all others. */
  lemma InsertKeeps(up: seq<nat>, l: Leaf, q: nat, k: nat, tmp: int, except: int)
    requires Topology(up) && Members(up, l) && OrderedExcept(up, l, except)
    requires q < |up| && !l.onList[q] && k <= |l.list|
    ensures var l' := Leaf(l.onList[q := true], Insert(l.list, k, q), tmp);
            && Members(up, l')
            && forall p: nat :: 0 < p < |up| && l.onList[p] && p != except ==> Before(l'.list, p, up[p])
  {
    InsertDistinct(l.list, k, q);
    forall p: nat | 0 < p < |up| && l.onList[p] && p != except
      ensures Before(Insert(l.list, k, q), p, up[p])
    {
      InsertKeepsBefore(l.list, k, q, p, up[p]);
    }
  }

  /** The first queue of a walk, or one above a connected branch. */
  lemma AddToConnected(up: seq<nat>, l: Leaf, q: nat)
    requires Topology(up) && Connected(up, l) && q < |up|
    ensures Building(up, Add(up, l, q).0, q)
    ensures Add(up, l, q).1 <==> Connected(up, Add(up, l, q).0)
    ensures Add(up, l, q).0.onList == l.onList[q := true]
  {
    var l' := Add(up, l, q).0;
    if !l.onList[q] {
      assert q !in l.list;
      if q > 0 && l.onList[up[q]] {
        var k := IndexOf(l.list, up[q]);
        assert up[q] in l.list;
        InsertKeeps(up, l, q, k, -1, -1);
        InsertIndex(l.list, k, q, up[q]);
      } else if q == 0 {
        assert l.list + [q] == Insert(l.list, |l.list|, q);
        InsertKeeps(up, l, q, |l.list|, -1, -1);
      } else {
        InsertKeeps(up, l, q, 0, q, -1);
        assert l'.list[0] == q;
        assert IndexOf(l'.list, q) == 0;
      }
    }
  }

  /** The parent of a pending branch next to its own parent, which lies behind the branch. */
  lemma AddBeforeGrandparent(up: seq<nat>, l: Leaf, c: nat)
    requires Topology(up) && Dangling(up, l, c)
    requires up[c] > 0 && l.onList[up[up[c]]]
    ensures Connected(up, Add(up, l, up[c]).0)
  {
    var q, k := up[c], IndexOf(l.list, up[up[c]]);
    assert c in l.list && q !in l.list && up[q] in l.list;
    assert k > IndexOf(l.list, c);
    InsertKeeps(up, l, q, k, -1, c);
    InsertIndex(l.list, k, q, up[q]);
    InsertIndex(l.list, k, q, c);
  }

  /** The root at the tail. */
  lemma AddRoot(up: seq<nat>, l: Leaf, c: nat)
    requires Topology(up) && Dangling(up, l, c) && up[c] == 0
    ensures Connected(up, Add(up, l, 0).0)
  {
    assert c in l.list && 0 !in l.list;
    assert l.list + [0] == Insert(l.list, |l.list|, 0);
    InsertKeeps(up, l, 0, |l.list|, -1, c);
    InsertIndex(l.list, |l.list|, 0, c);
  }

  /** The next top of the pending branch, right behind the old one. */
  lemma ExtendBranch(up: seq<nat>, l: Leaf, c: nat)
    requires Topology(up) && Dangling(up, l, c)
    requires up[c] > 0 && !l.onList[up[up[c]]]
    ensures Dangling(up, Add(up, l, up[c]).0, up[c])
  {
    var q, ic := up[c], IndexOf(l.list, c);
    hide Members;
    hide OrderedExcept;
    hide PrefixAtLeast;
    hide Insert;
    hide IndexOf;
    ExtendOrdered(up, l, c);
    PrefixGrows(l.list, ic + 1, c, q);
    assert Add(up, l, q).0 == Leaf(l.onList[q := true], Insert(l.list, ic + 1, q), q);
  }

  lemma ExtendOrdered(up: seq<nat>, l: Leaf, c: nat)
    requires Topology(up) && Dangling(up, l, c) && up[c] > 0
    ensures var k := IndexOf(l.list, c) + 1;
            && k <= |l.list|
            && var l' := Leaf(l.onList[up[c] := true], Insert(l.list, k, up[c]), up[c]);
            && Members(up, l') && OrderedExcept(up, l', up[c]) && IndexOf(l'.list, up[c]) == k
  {
    var q, k := up[c], IndexOf(l.list, c) + 1;
    assert c in l.list && q !in l.list;
    InsertKeeps(up, l, q, k, q, c);
    InsertIndex(l.list, k, q, c);
    hide IndexOf;
    hide Insert;
    hide PrefixAtLeast;
  }

  /** The numbers in a branch are at least that of its top, also with the parent behind it. */
  lemma PrefixGrows(list: seq<nat>, n: nat, c: nat, q: nat)
    requires n <= |list| && q < c && PrefixAtLeast(list, n, c)
    ensures PrefixAtLeast(Insert(list, n, q), n + 1, q)
  {}

  /** The parent of a pending branch is added behind it, wherever the parent goes. */
  lemma AddToDangling(up: seq<nat>, l: Leaf, c: nat)
    requires Topology(up) && Dangling(up, l, c)
    ensures Building(up, Add(up, l, up[c]).0, up[c])
    ensures Add(up, l, up[c]).1 <==> Connected(up, Add(up, l, up[c]).0)
    ensures Add(up, l, up[c]).0.onList == l.onList[up[c] := true]
  {
    if up[c] == 0 {
      AddRoot(up, l, c);
    } else if l.onList[up[up[c]]] {
      AddBeforeGrandparent(up, l, c);
    } else {
      ExtendBranch(up, l, c);
    }
  }

  /** One step of a walk: the parent of the queue just handled is added next. */
  lemma AddKeepsBuilding(up: seq<nat>, l: Leaf, c: nat)
    requires Topology(up) && 0 < c < |up| && Building(up, l, c)
    ensures Building(up, Add(up, l, up[c]).0, up[c])
    ensures Add(up, l, up[c]).1 <==> Connected(up, Add(up, l, up[c]).0)
    ensures Add(up, l, up[c]).0.onList == l.onList[up[c] := true]
  {
    if Connected(up, l) {
      AddToConnected(up, l, up[c]);
    } else {
      AddToDangling(up, l, c);
    }
  }

  /** A walk that has reached the root, or a queue whose parent is listed, leaves nothing pending. */
  lemma WalkEndsConnected(up: seq<nat>, l: Leaf, c: nat)
    requires Building(up, l, c)
    requires c == 0 || (c < |up| && up[c] < |up| == |l.onList| && l.onList[up[c]])
    ensures Connected(up, l)
  {}

  /** The upward walk of unthrottle_cfs_rq: add queue after queue until one is connected. */
  function AddBranch(up: seq<nat>, l: Leaf, q: nat): Leaf
    requires Topology(up) && q < |up| == |l.onList|
    decreases q
  {
    var (l', connected) := Add(up, l, q);
    if connected || q == 0 then l' else AddBranch(up, l', up[q])
  }

  lemma {:induction false} AddBranchFrom(up: seq<nat>, l: Leaf, q: nat)
    requires Topology(up) && q < |up| == |l.onList|
    requires Connected(up, l) || exists c: nat :: 0 < c < |up| && up[c] == q && Building(up, l, c)
    ensures Connected(up, AddBranch(up, l, q)) && AddBranch(up, l, q).onList[q]
    ensures forall p: nat :: p < |up| && l.onList[p] ==> AddBranch(up, l, q).onList[p]
    decreases q
  {
    if Connected(up, l) {
      AddToConnected(up, l, q);
    } else {
      var c: nat :| 0 < c < |up| && up[c] == q && Building(up, l, c);
      AddKeepsBuilding(up, l, c);
    }
    var (l', connected) := Add(up, l, q);
    if !connected && q > 0 {
      AddBranchFrom(up, l', up[q]);
    }
  }

  /** From a consistent list every such walk ends with a consistent list and tmp_alone_branch at the head. */
  lemma AddBranchConnects(up: seq<nat>, l: Leaf, q: nat)
    requires Topology(up) && Connected(up, l) && q < |up|
    ensures Connected(up, AddBranch(up, l, q)) && AddBranch(up, l, q).onList[q]
  {
    AddBranchFrom(up, l, q);
  }

  ghost predicate ChildOnList(up: seq<nat>, l: Leaf, q: nat) {
    exists c: nat :: 0 < c < |up| == |l.onList| && l.onList[c] && up[c] == q
  }

  /** Taking a queue off keeps the list consistent exactly when none of its children is on it. */
  lemma DelKeepsConnected(up: seq<nat>, l: Leaf, q: nat)
    requires Topology(up) && Connected(up, l) && q < |up| && l.onList[q]
    ensures Connected(up, Del(l, q)) <==> !ChildOnList(up, l, q)
  {
    var l' := Del(l, q);
    WithoutDistinct(l.list, q);
    assert Members(up, l');
    if ChildOnList(up, l, q) {
      var c: nat :| 0 < c < |up| && l.onList[c] && up[c] == q;
      assert q !in l'.list && l'.onList[c];
    } else {
      forall p: nat | 0 < p < |up| && l'.onList[p]
        ensures Before(l'.list, p, up[p])
      {
        WithoutOrder(l.list, q, p, up[p]);
      }
    }
  }

  /** child_cfs_rq_on_list: looks only at the element before q, or at tmp_alone_branch. */
  predicate PreviousIsChild(up: seq<nat>, l: Leaf, q: nat)
    requires q < |up| == |l.onList|
  {
    var k := IndexOf(l.list, q);
    var prev := if !l.onList[q] then l.tmp else if 0 < k <= |l.list| then l.list[k - 1] else -1;
    0 < prev < |up| && up[prev] == q
  }

  /** What the test finds is a child on the list. */
  lemma PreviousIsChildSound(up: seq<nat>, l: Leaf, q: nat)
    requires Topology(up) && Connected(up, l) && q < |up| && PreviousIsChild(up, l, q)
    ensures ChildOnList(up, l, q)
  {
    var k := IndexOf(l.list, q);
    if l.onList[q] {
      assert l.list[k - 1] in l.list;
    }
  }

  /** A list nothing has been added to. */
  function EmptyLeaf(n: nat): Leaf {
    Leaf(seq(n, i requires 0 <= i < n => false), [], -1)
  }

  lemma EmptyLeafConnected(up: seq<nat>)
    ensures Connected(up, EmptyLeaf(|up|))
  {}

  /**
   * The test misses a child: a branch added while its parent was off the list stays at
   * the front, so the parent, which goes in next to the root, does not follow it. Here 3 is
   * a child of 2, and 1 and 2 are children of the root.
   */
  lemma PreviousIsChildIncomplete()
    ensures var up := [0, 0, 0, 2];
            Topology(up) && (
              var l := AddBranch(up, AddBranch(up, EmptyLeaf(4), 1), 3);
              && l.list == [3, 1, 2, 0] && Connected(up, l)
              && !PreviousIsChild(up, l, 2) && ChildOnList(up, l, 2)
              && !Connected(up, Del(l, 2)))
  {
    var up := [0, 0, 0, 2];
    var e := EmptyLeaf(4);
    EmptyLeafConnected(up);
    AddBranchConnects(up, e, 1);
    var l1 := AddBranch(up, e, 1);
    FirstBranch();
    AddBranchConnects(up, l1, 3);
    SecondBranch(l1);
    var l2 := AddBranch(up, l1, 3);
    hide AddBranch;
    hide Connected;
    assert up[3] == 2 && l2.onList[3];
    DelKeepsConnected(up, l2, 2);
  }

  lemma FirstBranch()
    ensures var l := AddBranch([0, 0, 0, 2], EmptyLeaf(4), 1);
            l.list == [1, 0] && l.onList == [true, true, false, false] && l.tmp == -1
  {
    var up := [0, 0, 0, 2];
    var (a, connected) := Add(up, EmptyLeaf(4), 1);
    assert a == Leaf([false, true, false, false], [1], 1) && !connected;
    assert AddBranch(up, a, 0) == Add(up, a, 0).0;
  }

  lemma SecondBranch(l: Leaf)
    requires l == Leaf([true, true, false, false], [1, 0], -1)
    ensures AddBranch([0, 0, 0, 2], l, 3) == Leaf([true, true, true, true], [3, 1, 2, 0], -1)
  {
    var up := [0, 0, 0, 2];
    var (a, connected) := Add(up, l, 3);
    assert a == Leaf([true, true, false, true], [3, 1, 0], 3) && !connected;
    var (b, connected') := Add(up, a, 2);
    assert IndexOf([3, 1, 0], 0) == 2;
    assert b == Leaf([true, true, true, true], [3, 1, 2, 0], -1) && connected';
    assert AddBranch(up, a, 2) == b;
  }

  /**
   * Taking off the queue that was added last undoes the addition, tmp_alone_branch included
   * where the addition did not connect the branch.
   */
  lemma DelUndoesAdd(up: seq<nat>, l: Leaf, q: nat)
    requires Members(up, l) && q < |up| && (q > 0 ==> up[q] < |up|) && !l.onList[q]
    requires l.tmp < 0 || l.tmp in l.list
    ensures var (l', connected) := Add(up, l, q);
            && |l'.onList| == |up|
            && Del(l', q).list == l.list && Del(l', q).onList == l.onList
            && Del(l', q).tmp == (if connected || l.tmp < 0 then -1 else l.tmp)
  {
    assert q !in l.list;
    var (l', connected) := Add(up, l, q);
    var k := AddPosition(up, l, q);
    UndoInsert(l.list, k, q);
    hide Insert;
    hide Without;
    hide IndexOf;
    hide AfterTmp;
  }

  /** Where an addition puts the queue, and what it does to tmp_alone_branch. */
  lemma AddPosition(up: seq<nat>, l: Leaf, q: nat) returns (k: nat)
    requires q < |up| == |l.onList| && (q > 0 ==> up[q] < |up|) && !l.onList[q]
    requires l.tmp < 0 || l.tmp in l.list
    ensures k <= |l.list|
    ensures var (l', connected) := Add(up, l, q);
            && l' == Leaf(l.onList[q := true], Insert(l.list, k, q), l'.tmp)
            && (connected ==> l'.tmp == -1)
            && (!connected ==> l'.tmp == q && if l.tmp < 0 then k == 0 else k > 0 && l.list[k - 1] == l.tmp)
  {
    if q > 0 && l.onList[up[q]] {
      k := IndexOf(l.list, up[q]);
    } else if q == 0 {
      k := |l.list|;
      assert l.list + [q] == Insert(l.list, |l.list|, q);
    } else {
      k := AfterTmp(l);
    }
  }

  lemma UndoInsert(list: seq<nat>, k: nat, x: nat)
    requires Distinct(list) && k <= |list| && x !in list
    ensures Without(Insert(list, k, x), x) == list && IndexOf(Insert(list, k, x), x) == k
    ensures k > 0 ==> Insert(list, k, x)[k - 1] == list[k - 1]
  {
    var r := Insert(list, k, x);
    InsertDistinct(list, k, x);
    assert r[k] == x;
    IndexUnique(r, k);
    WithoutIs(r, x);
  }

  /** While a branch is pending, the test of an unlisted queue says whether it is the one to add next. */
  lemma TestOfPending(up: seq<nat>, l: Leaf, c: nat, q: nat)
    requires Topology(up) && Dangling(up, l, c) && q < |up| && !l.onList[q]
    ensures PreviousIsChild(up, l, q) <==> q == up[c]
  {}

  /** The result of an addition says whether the list is connected after it, also for a queue already listed. */
  lemma AddReportsConnection(up: seq<nat>, l: Leaf, c: nat, q: nat)
    requires Topology(up) && Building(up, l, c) && q < |up| && (l.onList[q] || Connected(up, l))
    ensures Add(up, l, q).1 <==> Connected(up, Add(up, l, q).0)
    ensures l.onList[q] ==> Add(up, l, q).0 == l
  {
    if Connected(up, l) {
      AddToConnected(up, l, q);
    }
  }
}

/**
 * The test of child_cfs_rq_on_list (fair.c), which looks at one element of the leaf list:
 * when it finds every listed child, and which insertions and removals keep it that way.
 */
module LeafTest {
  import opened Lists
  import opened LeafList

  /** Every listed queue with a listed child has one right before it, so the test is exact. */
  ghost predicate Complete(up: seq<nat>, l: Leaf)
    requires |l.onList| == |up|
  {
    forall p: nat :: p < |up| && l.onList[p] && ChildOnList(up, l, p) ==> PreviousIsChild(up, l, p)
  }

  /** On a complete list the test says exactly whether a child is listed. */
  lemma TestIsExact(up: seq<nat>, l: Leaf, q: nat)
    requires Topology(up) && Connected(up, l) && Complete(up, l) && q < |up|
    ensures PreviousIsChild(up, l, q) <==> ChildOnList(up, l, q)
  {
    if PreviousIsChild(up, l, q) {
      PreviousIsChildSound(up, l, q);
    }
  }

  /** The element before position k is a child of the one at k. */
  predicate ChildBefore(up: seq<nat>, list: seq<nat>, k: nat) {
    0 < k < |list| && 0 < list[k - 1] < |up| && up[list[k - 1]] == list[k]
  }

  /** An element of the list that is a child of p. */
  ghost predicate HasChild(up: seq<nat>, list: seq<nat>, p: nat) {
    exists c: nat :: c in list && 0 < c < |up| && up[c] == p
  }

  /** Completeness by positions. */
  ghost predicate CompleteList(up: seq<nat>, list: seq<nat>) {
    forall k: nat :: k < |list| && HasChild(up, list, list[k]) ==> ChildBefore(up, list, k)
  }

  lemma CompleteByPosition(up: seq<nat>, l: Leaf)
    requires Topology(up) && Connected(up, l)
    ensures Complete(up, l) <==> CompleteList(up, l.list)
  {
    Listing(up, l);
    hide Connected;
    forall k: nat | k < |l.list|
      ensures l.list[k] < |up|
      ensures HasChild(up, l.list, l.list[k]) <==> ChildOnList(up, l, l.list[k])
      ensures PreviousIsChild(up, l, l.list[k]) <==> ChildBefore(up, l.list, k)
    {
      assert l.list[k] in l.list;
      SameChildren(up, l, l.list[k]);
      PreviousAt(up, l, k);
    }
    hide HasChild;
    hide ChildOnList;
    hide ChildBefore;
    hide PreviousIsChild;
    CompleteAgrees(up, l);
  }

  lemma CompleteAgrees(up: seq<nat>, l: Leaf)
    requires |l.onList| == |up| && forall q: nat :: q in l.list <==> q < |up| && l.onList[q]
    requires forall k: nat :: k < |l.list| ==>
               && l.list[k] < |up|
               && (HasChild(up, l.list, l.list[k]) <==> ChildOnList(up, l, l.list[k]))
               && (PreviousIsChild(up, l, l.list[k]) <==> ChildBefore(up, l.list, k))
    ensures Complete(up, l) <==> CompleteList(up, l.list)
  {
    hide HasChild;
    hide ChildOnList;
    hide ChildBefore;
    hide PreviousIsChild;
    forall k: nat | k < |l.list|
      ensures l.onList[l.list[k]]
    {
      assert l.list[k] in l.list;
    }
    if CompleteList(up, l.list) {
      forall p: nat | p < |up| && l.onList[p] && ChildOnList(up, l, p)
        ensures PreviousIsChild(up, l, p)
      {
        assert p in l.list;
        var k: nat :| k < |l.list| && l.list[k] == p;
      }
    }
  }

  lemma PreviousAt(up: seq<nat>, l: Leaf, k: nat)
    requires Distinct(l.list) && k < |l.list| && l.list[k] < |up| == |l.onList| && l.onList[l.list[k]]
    ensures PreviousIsChild(up, l, l.list[k]) <==> ChildBefore(up, l.list, k)
  {
    IndexUnique(l.list, k);
  }

  lemma SameChildren(up: seq<nat>, l: Leaf, p: nat)
    requires |l.onList| == |up| && forall q: nat :: q in l.list <==> q < |up| && l.onList[q]
    ensures HasChild(up, l.list, p) <==> ChildOnList(up, l, p)
  {
    if HasChild(up, l.list, p) {
      var c: nat :| c in l.list && 0 < c < |up| && up[c] == p;
      assert l.onList[c];
    }
    if ChildOnList(up, l, p) {
      var c: nat :| 0 < c < |up| && l.onList[c] && up[c] == p;
      assert c in l.list;
    }
  }

  /** The nearest of q and its ancestors that is listed, or the root. */
  function FirstListed(up: seq<nat>, l: Leaf, q: nat): nat
    requires Topology(up) && q < |up| == |l.onList|
  {
    if l.onList[q] || q == 0 then q else FirstListed(up, l, up[q])
  }

  /** The last queue of a walk from q: its parent is listed, or it is the root. */
  function Top(up: seq<nat>, l: Leaf, q: nat): (a: nat)
    requires Topology(up) && q < |up| == |l.onList|
    ensures a < |up|
  {
    if q == 0 || l.onList[up[q]] then q else Top(up, l, up[q])
  }

  /** The queues of the walk below the last. */
  function Stem(up: seq<nat>, l: Leaf, q: nat): seq<nat>
    requires Topology(up) && q < |up| == |l.onList|
  {
    if q == 0 || l.onList[up[q]] then [] else [q] + Stem(up, l, up[q])
  }

  /** The list with the last queue of the walk in its place. */
  function Spliced(up: seq<nat>, l: Leaf, a: nat): seq<nat>
    requires Topology(up) && a < |up|
  {
    if a == 0 then l.list + [0] else Insert(l.list, IndexOf(l.list, up[a]), a)
  }

  /** In the walk, before q is added: the queues added so far are in front of the list it began with. */
  ghost predicate Climbing(up: seq<nat>, l0: Leaf, l: Leaf, chain: seq<nat>, q: nat) {
    && |l0.onList| == |l.onList| == |up| && l.list == chain + l0.list
    && q < |up| && !l0.onList[q] && q !in l.list
    && (forall x: nat :: x < |up| ==> (l.onList[x] <==> l0.onList[x] || x in chain))
    && (forall x :: x in chain ==> x > q)
    && l.tmp == (if chain == [] then -1 else chain[|chain| - 1])
    && (chain != [] ==> IndexOf(l.list, chain[|chain| - 1]) == |chain| - 1)
  }

  /** A walk leaves the queues it adds at the front, but the last right before its parent. */
  lemma {:induction false} AddBranchShape(up: seq<nat>, l0: Leaf, l: Leaf, chain: seq<nat>, q: nat)
    requires Topology(up) && Connected(up, l0) && Climbing(up, l0, l, chain, q)
    ensures AddBranch(up, l, q).list == chain + Stem(up, l0, q) + Spliced(up, l0, Top(up, l0, q))
    decreases q
  {
    hide Climbing;
    hide Connected;
    hide Spliced;
    ClimbingSized(up, l0, l, chain, q);
    AddBranchUnfolds(up, l, q);
    hide AddBranch;
    if q == 0 || l0.onList[up[q]] {
      ClimbEnds(up, l0, l, chain, q);
      assert chain + [] == chain;
    } else {
      ClimbStep(up, l0, l, chain, q);
      hide Add;
      AddBranchShape(up, l0, Add(up, l, q).0, chain + [q], up[q]);
      assert chain + [q] + Stem(up, l0, up[q]) == chain + Stem(up, l0, q);
    }
  }

  lemma ClimbingSized(up: seq<nat>, l0: Leaf, l: Leaf, chain: seq<nat>, q: nat)
    requires Climbing(up, l0, l, chain, q)
    ensures |l0.onList| == |l.onList| == |up| && q < |up|
  {}

  lemma AddBranchUnfolds(up: seq<nat>, l: Leaf, q: nat)
    requires Topology(up) && q < |up| == |l.onList|
    ensures Add(up, l, q).1 || q == 0 ==> AddBranch(up, l, q) == Add(up, l, q).0
    ensures !Add(up, l, q).1 && q > 0 ==>
              |Add(up, l, q).0.onList| == |up| && AddBranch(up, l, q) == AddBranch(up, Add(up, l, q).0, up[q])
  {}

  lemma ClimbEnds(up: seq<nat>, l0: Leaf, l: Leaf, chain: seq<nat>, q: nat)
    requires Topology(up) && Connected(up, l0) && Climbing(up, l0, l, chain, q)
    requires q == 0 || l0.onList[up[q]]
    ensures Add(up, l, q).1 && Add(up, l, q).0.list == chain + Spliced(up, l0, q)
  {
    assert q !in chain && !l.onList[q];
    hide Connected;
    if q > 0 {
      assert up[q] !in chain;
      IndexAfter(chain, l0.list, up[q]);
      InsertAfter(chain, l0.list, IndexOf(l0.list, up[q]), q);
    }
  }

  lemma InsertAfter(chain: seq<nat>, list: seq<nat>, i: nat, x: nat)
    requires i <= |list|
    ensures Insert(chain + list, |chain| + i, x) == chain + Insert(list, i, x)
  {}

  lemma ClimbStep(up: seq<nat>, l0: Leaf, l: Leaf, chain: seq<nat>, q: nat)
    requires Topology(up) && Connected(up, l0) && Climbing(up, l0, l, chain, q)
    requires q > 0 && !l0.onList[up[q]]
    ensures !Add(up, l, q).1 && Climbing(up, l0, Add(up, l, q).0, chain + [q], up[q])
  {
    assert q !in chain && !l.onList[q] && up[q] !in chain && up[q] !in l0.list;
    hide Connected;
    assert AfterTmp(l) == |chain|;
    var l', chain' := Add(up, l, q).0, chain + [q];
    assert l'.list == chain' + l0.list;
    hide Add;
    hide AfterTmp;
    FirstAt(l'.list, |chain|);
  }

  lemma FirstAt(list: seq<nat>, k: nat)
    requires k < |list| && forall j: nat :: j < k ==> list[j] != list[k]
    ensures IndexOf(list, list[k]) == k
  {}

  lemma {:induction false} IndexAfter(chain: seq<nat>, list: seq<nat>, x: nat)
    requires x !in chain
    ensures IndexOf(chain + list, x) == |chain| + IndexOf(list, x)
  {
    if chain == [] {
      assert chain + list == list;
    } else {
      assert (chain + list)[1..] == chain[1..] + list;
      IndexAfter(chain[1..], list, x);
    }
  }

  /** What follows position k of a stem that ends below a. */
  function NextOf(s: seq<nat>, k: nat, a: nat): nat {
    if k + 1 < |s| then s[k + 1] else a
  }

  /** Each queue of the stem is a child of the next one, and the last a child of a. */
  ghost predicate Climbs(up: seq<nat>, s: seq<nat>, a: nat) {
    forall k: nat :: k < |s| ==> 0 < s[k] < |up| && up[s[k]] == NextOf(s, k, a)
  }

  /** Each queue of the stem is followed by its parent, up to the last queue of the walk. */
  lemma {:induction false} StemClimbs(up: seq<nat>, l: Leaf, q: nat)
    requires Topology(up) && q < |up| == |l.onList|
    ensures var s, a := Stem(up, l, q), Top(up, l, q);
            && (s != [] ==> s[0] == q)
            && Climbs(up, s, a) && a <= q && (forall k: nat :: k < |s| ==> a < s[k])
            && (s == [] ==> a == q)
            && (a == 0 || l.onList[up[a]])
  {
    if q > 0 && !l.onList[up[q]] {
      StemClimbs(up, l, up[q]);
      var s, rest, a := Stem(up, l, q), Stem(up, l, up[q]), Top(up, l, q);
      assert forall k: nat :: 0 < k < |s| ==> s[k] == rest[k - 1] && NextOf(s, k, a) == NextOf(rest, k - 1, a);
    }
  }

  /** From an unlisted queue, the parent of the last queue of the walk is the first listed ancestor. */
  lemma {:induction false} FirstListedAboveTop(up: seq<nat>, l: Leaf, q: nat)
    requires Topology(up) && q < |up| == |l.onList| && !l.onList[q]
    ensures !l.onList[Top(up, l, q)]
    ensures Top(up, l, q) > 0 ==> FirstListed(up, l, q) == up[Top(up, l, q)]
    ensures forall x :: x in Stem(up, l, q) ==> x < |up| && !l.onList[x]
  {
    if q > 0 && !l.onList[up[q]] {
      FirstListedAboveTop(up, l, up[q]);
    }
  }

  lemma EmptyWithoutRoot(up: seq<nat>, l: Leaf)
    requires Topology(up) && Connected(up, l) && !l.onList[0]
    ensures l.list == []
  {
    if l.list != [] {
      var q := l.list[0];
      assert q in l.list;
      RootListed(up, l, q);
    }
  }

  lemma {:induction false} RootListed(up: seq<nat>, l: Leaf, q: nat)
    requires Topology(up) && Connected(up, l) && q < |up| && l.onList[q]
    ensures l.onList[0]
  {
    if q == 0 {
    } else {
      assert q in l.list;
      ParentListed(up, l, q);
      RootListed(up, l, up[q]);
    }
  }

  /** The first of a connected list has no child on it. */
  lemma NoChildOfFirst(up: seq<nat>, l: Leaf)
    requires Topology(up) && Connected(up, l) && l.list != []
    ensures !HasChild(up, l.list, l.list[0])
  {
    if HasChild(up, l.list, l.list[0]) {
      var c: nat :| c in l.list && 0 < c < |up| && up[c] == l.list[0];
      ParentListed(up, l, c);
    }
  }

  /** A path up to the root is complete. */
  lemma PathComplete(up: seq<nat>, l: Leaf, s: seq<nat>)
    requires Topology(up) && Connected(up, l) && l.list == s + [0]
    requires Climbs(up, s, 0)
    ensures CompleteList(up, l.list)
  {
    NoChildOfFirst(up, l);
    hide Connected;
    var list := l.list;
    forall k: nat | 0 < k < |list|
      ensures ChildBefore(up, list, k)
    {
      assert list[k - 1] == s[k - 1] && up[s[k - 1]] == NextOf(s, k - 1, 0);
    }
  }

  /** Position k of the old list after the stem s and the insertion of one queue at i. */
  function Moved(s: seq<nat>, i: nat, k: nat): nat {
    |s| + k + if k < i then 0 else 1
  }

  /** The list of a walk that adds the stem s at the front and a at position i of the old list. */
  ghost predicate Joined(up: seq<nat>, was: seq<nat>, list: seq<nat>, s: seq<nat>, i: nat, a: nat) {
    && 0 < a < |up| && i < |was| && was[i] == up[a] && Climbs(up, s, a)
    && |list| == |s| + |was| + 1 && list[|s| + i] == a
    && (forall k: nat :: k < |s| ==> list[k] == s[k] && s[k] !in was)
    && (forall k: nat :: k < |was| ==> list[Moved(s, i, k)] == was[k])
    && (forall c :: c in list ==> c in s || c == a || c in was)
    && (forall c :: c in was ==> c in list)
    && a !in was && a !in s && Distinct(was) && !HasChild(up, was, a) && !HasChild(up, list, list[0])
  }

  /** No child of an old queue is new, but a. */
  lemma OldChildren(up: seq<nat>, was: seq<nat>, list: seq<nat>, s: seq<nat>, i: nat, a: nat, p: nat)
    requires Joined(up, was, list, s, i, a) && p in was && p != up[a] && HasChild(up, list, p)
    ensures HasChild(up, was, p)
  {
    var c: nat :| c in list && 0 < c < |up| && up[c] == p;
    if c in s {
      StemParent(up, was, list, s, i, a, c);
    }
  }

  lemma StemParent(up: seq<nat>, was: seq<nat>, list: seq<nat>, s: seq<nat>, i: nat, a: nat, c: nat)
    requires Joined(up, was, list, s, i, a) && c in s
    ensures c < |up| && up[c] !in was
  {
    var k: nat :| k < |s| && s[k] == c;
    assert up[s[k]] == NextOf(s, k, a);
    assert k + 1 < |s| ==> list[k + 1] == s[k + 1];
  }

  /** The queue spliced in behind something else hides its child at the front from the test. */
  lemma SpliceSeparates(up: seq<nat>, was: seq<nat>, list: seq<nat>, s: seq<nat>, i: nat, a: nat)
    requires Joined(up, was, list, s, i, a) && s != [] && i > 0
    ensures !CompleteList(up, list)
  {
    var c := s[|s| - 1];
    assert list[|s| - 1] == c && up[c] == NextOf(s, |s| - 1, a) == a;
    assert HasChild(up, list, list[|s| + i]);
    assert list[Moved(s, i, i - 1)] == was[i - 1] && was[i - 1] in was;
    assert !ChildBefore(up, list, |s| + i);
  }

  lemma SpliceStem(up: seq<nat>, was: seq<nat>, list: seq<nat>, s: seq<nat>, i: nat, a: nat, k: nat)
    requires Joined(up, was, list, s, i, a) && k < |s| && HasChild(up, list, s[k])
    ensures ChildBefore(up, list, k)
  {
    assert list[k] == s[k];
    if k > 0 {
      assert list[k - 1] == s[k - 1] && up[s[k - 1]] == NextOf(s, k - 1, a);
    }
  }

  lemma SpliceTop(up: seq<nat>, was: seq<nat>, list: seq<nat>, s: seq<nat>, i: nat, a: nat)
    requires Joined(up, was, list, s, i, a) && HasChild(up, list, a) && (s == [] || i == 0) && up[a] != a
    ensures ChildBefore(up, list, |s| + i)
  {
    if s == [] {
      NoNewChild(up, was, list, i, a);
    } else {
      assert list[|s| - 1] == s[|s| - 1] && up[s[|s| - 1]] == NextOf(s, |s| - 1, a);
    }
  }

  lemma NoNewChild(up: seq<nat>, was: seq<nat>, list: seq<nat>, i: nat, a: nat)
    requires Joined(up, was, list, [], i, a) && up[a] != a
    ensures !HasChild(up, list, a)
  {
    forall c: nat | c in list && 0 < c < |up|
      ensures up[c] != a
    {
      assert c in was || c == a;
    }
  }

  lemma SpliceOld(up: seq<nat>, was: seq<nat>, list: seq<nat>, s: seq<nat>, i: nat, a: nat, j: nat)
    requires Joined(up, was, list, s, i, a) && CompleteList(up, was)
    requires j < |was| && HasChild(up, list, was[j])
    ensures ChildBefore(up, list, Moved(s, i, j))
  {
    hide *;
    if j == i {
      SplicedRightBefore(up, was, list, s, i, a);
    } else {
      SplicedElsewhere(up, was, list, s, i, a, j);
    }
  }

  lemma SplicedRightBefore(up: seq<nat>, was: seq<nat>, list: seq<nat>, s: seq<nat>, i: nat, a: nat)
    requires Joined(up, was, list, s, i, a)
    ensures ChildBefore(up, list, Moved(s, i, i))
  {
    var k := Moved(s, i, i);
    assert list[k] == was[i] && list[k - 1] == a;
  }

  lemma SplicedElsewhere(up: seq<nat>, was: seq<nat>, list: seq<nat>, s: seq<nat>, i: nat, a: nat, j: nat)
    requires Joined(up, was, list, s, i, a) && CompleteList(up, was)
    requires j < |was| && j != i && HasChild(up, list, was[j])
    ensures ChildBefore(up, list, Moved(s, i, j))
  {
    OtherThanParent(up, was, list, s, i, a, j);
    OldChildren(up, was, list, s, i, a, was[j]);
    hide Joined;
    hide HasChild;
    assert ChildBefore(up, was, j);
    hide *;
    ShiftedChild(up, was, list, s, i, a, j);
  }

  lemma OtherThanParent(up: seq<nat>, was: seq<nat>, list: seq<nat>, s: seq<nat>, i: nat, a: nat, j: nat)
    requires Joined(up, was, list, s, i, a) && j < |was| && j != i
    ensures a < |up| && was[j] in was && was[j] != up[a]
  {
    assert was[j] != was[i];
  }

  lemma ShiftedChild(up: seq<nat>, was: seq<nat>, list: seq<nat>, s: seq<nat>, i: nat, a: nat, j: nat)
    requires Joined(up, was, list, s, i, a) && j != i && ChildBefore(up, was, j)
    ensures ChildBefore(up, list, Moved(s, i, j))
  {
    hide HasChild;
    hide Climbs;
    hide Distinct;
    assert list[Moved(s, i, j - 1)] == was[j - 1] && list[Moved(s, i, j)] == was[j];
  }

  /** The new list is complete exactly when the walk adds one queue or joins the list at its head. */
  lemma SpliceComplete(up: seq<nat>, was: seq<nat>, list: seq<nat>, s: seq<nat>, i: nat, a: nat)
    requires Joined(up, was, list, s, i, a) && CompleteList(up, was) && up[a] != a
    ensures CompleteList(up, list) <==> s == [] || i == 0
  {
    if s != [] && i > 0 {
      SpliceSeparates(up, was, list, s, i, a);
    } else {
      forall k: nat | k < |list| && HasChild(up, list, list[k])
        ensures ChildBefore(up, list, k)
      {
        SpliceAt(up, was, list, s, i, a, k);
      }
    }
  }

  lemma SpliceAt(up: seq<nat>, was: seq<nat>, list: seq<nat>, s: seq<nat>, i: nat, a: nat, k: nat)
    requires Joined(up, was, list, s, i, a) && CompleteList(up, was) && up[a] != a && (s == [] || i == 0)
    requires k < |list| && HasChild(up, list, list[k])
    ensures ChildBefore(up, list, k)
  {
    hide HasChild;
    hide ChildBefore;
    hide CompleteList;
    if k < |s| {
      SpliceStem(up, was, list, s, i, a, k);
    } else if k == |s| + i {
      SpliceTop(up, was, list, s, i, a);
    } else {
      var j: nat := if k < |s| + i then k - |s| else k - |s| - 1;
      assert list[Moved(s, i, j)] == was[j];
      SpliceOld(up, was, list, s, i, a, j);
    }
  }

  /** A walk that joins a connected list, as seen from its result. */
  lemma WalkJoins(up: seq<nat>, l: Leaf, l': Leaf, q: nat)
    requires Topology(up) && Connected(up, l) && Connected(up, l') && q < |up| && !l.onList[q]
    requires Top(up, l, q) > 0
    requires l'.list == Stem(up, l, q) + Spliced(up, l, Top(up, l, q))
    ensures var a := Top(up, l, q);
            Joined(up, l.list, l'.list, Stem(up, l, q), IndexOf(l.list, up[a]), a)
  {
    var s, a := Stem(up, l, q), Top(up, l, q);
    StemClimbs(up, l, q);
    FirstListedAboveTop(up, l, q);
    NoChildOfFirst(up, l');
    NoChildOfUnlisted(up, l, a);
    Listing(up, l);
    var was, i := l.list, IndexOf(l.list, up[a]);
    assert up[a] in was && (forall x :: x in s ==> x !in was) && a !in was && a !in s;
    hide *;
    JoinedPositions(up, was, l'.list, s, i, a);
  }

  lemma JoinedPositions(up: seq<nat>, was: seq<nat>, list: seq<nat>, s: seq<nat>, i: nat, a: nat)
    requires i < |was| && list == s + Insert(was, i, a)
    requires 0 < a < |up| && was[i] == up[a] && Climbs(up, s, a) && (forall x :: x in s ==> x !in was)
    requires a !in was && a !in s && Distinct(was) && !HasChild(up, was, a) && !HasChild(up, list, list[0])
    ensures Joined(up, was, list, s, i, a)
  {
    hide Climbs;
    hide HasChild;
    hide Distinct;
    hide Insert;
    var r := Insert(was, i, a);
    assert r == was[..i] + [a] + was[i..] by {
      InsertIs(was, i, a);
    }
    assert forall k: nat :: k < |was| ==> list[Moved(s, i, k)] == was[k];
  }

  lemma InsertIs(list: seq<nat>, k: nat, x: nat)
    requires k <= |list|
    ensures Insert(list, k, x) == list[..k] + [x] + list[k..]
  {}

  lemma Listing(up: seq<nat>, l: Leaf)
    requires Connected(up, l)
    ensures |l.onList| == |up| && Distinct(l.list) && forall q: nat :: q in l.list <==> q < |up| && l.onList[q]
  {}

  lemma NoChildOfUnlisted(up: seq<nat>, l: Leaf, a: nat)
    requires Topology(up) && Connected(up, l) && a < |up| && !l.onList[a]
    ensures !HasChild(up, l.list, a)
  {
    if HasChild(up, l.list, a) {
      var c: nat :| c in l.list && 0 < c < |up| && up[c] == a;
      ParentListed(up, l, c);
    }
  }

  lemma ParentListed(up: seq<nat>, l: Leaf, c: nat)
    requires Connected(up, l) && 0 < c < |up| && c in l.list
    ensures Before(l.list, c, up[c]) && up[c] < |up| && l.onList[up[c]]
  {
    assert l.onList[c];
  }

  /**
   * Where a walk keeps the list complete: it adds nothing, or everything, or one queue, or
   * it joins the list at its head.
   */
  predicate JoinsAtHead(up: seq<nat>, l: Leaf, q: nat)
    requires Topology(up) && q < |up| == |l.onList|
  {
    l.onList[q] || l.list == [] || (q > 0 && l.onList[up[q]]) || l.list[0] == FirstListed(up, l, q)
  }

  /** A walk from a complete list ends with a complete list exactly under that condition. */
  lemma AddBranchKeepsComplete(up: seq<nat>, l: Leaf, q: nat)
    requires Topology(up) && Connected(up, l) && Complete(up, l) && q < |up|
    ensures Connected(up, AddBranch(up, l, q))
    ensures Complete(up, AddBranch(up, l, q)) <==> JoinsAtHead(up, l, q)
  {
    AddBranchConnects(up, l, q);
    var l' := AddBranch(up, l, q);
    if !l.onList[q] {
      WalkShape(up, l, q);
      FirstListedAboveTop(up, l, q);
      CompleteByPosition(up, l);
      CompleteByPosition(up, l');
      hide AddBranch;
      hide Connected;
      hide Complete;
      hide CompleteList;
      if Top(up, l, q) == 0 {
        RootWalkComplete(up, l, l', q);
      } else {
        JoiningWalkComplete(up, l, l', q);
      }
    }
  }

  lemma WalkShape(up: seq<nat>, l: Leaf, q: nat)
    requires Topology(up) && Connected(up, l) && q < |up| && !l.onList[q]
    ensures AddBranch(up, l, q).list == Stem(up, l, q) + Spliced(up, l, Top(up, l, q))
  {
    StartClimbing(up, l, q);
    AddBranchShape(up, l, l, [], q);
    hide *;
    assert [] + Stem(up, l, q) == Stem(up, l, q);
  }

  lemma StartClimbing(up: seq<nat>, l: Leaf, q: nat)
    requires Connected(up, l) && q < |up| && !l.onList[q]
    ensures Climbing(up, l, l, [], q)
  {
    Listing(up, l);
    hide Members;
    hide OrderedExcept;
    assert l.list == [] + l.list;
  }

  lemma RootWalkComplete(up: seq<nat>, l: Leaf, l': Leaf, q: nat)
    requires Topology(up) && Connected(up, l) && Connected(up, l') && q < |up| && !l.onList[q]
    requires Top(up, l, q) == 0 && l'.list == Stem(up, l, q) + Spliced(up, l, 0)
    ensures CompleteList(up, l'.list) && l.list == []
  {
    StemClimbs(up, l, q);
    FirstListedAboveTop(up, l, q);
    EmptyWithoutRoot(up, l);
    PathComplete(up, l', Stem(up, l, q));
  }

  lemma JoiningWalkComplete(up: seq<nat>, l: Leaf, l': Leaf, q: nat)
    requires Topology(up) && Connected(up, l) && Connected(up, l') && q < |up| && !l.onList[q]
    requires Top(up, l, q) > 0 && l'.list == Stem(up, l, q) + Spliced(up, l, Top(up, l, q))
    requires CompleteList(up, l.list)
    ensures CompleteList(up, l'.list) <==> JoinsAtHead(up, l, q)
  {
    var s, a := Stem(up, l, q), Top(up, l, q);
    var i := IndexOf(l.list, up[a]);
    StemClimbs(up, l, q);
    FirstListedAboveTop(up, l, q);
    WalkJoins(up, l, l', q);
    SpliceComplete(up, l.list, l'.list, s, i, a);
    Listing(up, l);
    hide CompleteList;
    hide Connected;
    hide Joined;
    assert up[a] in l.list;
    assert i == 0 <==> l.list[0] == up[a];
    assert s == [] <==> q > 0 && l.onList[up[q]];
  }

  /**
   * Where taking off a queue keeps the list complete: it is not right before its parent, or
   * another child of the parent is right before it, or the parent has no other child listed.
   */
  ghost predicate LeavesComplete(up: seq<nat>, list: seq<nat>, q: nat) {
    var k := IndexOf(list, q);
    || k + 1 >= |list| || q == 0 || q >= |up| || list[k + 1] != up[q]
    || (k > 0 && 0 < list[k - 1] < |up| && up[list[k - 1]] == up[q])
    || (forall c: nat :: c in list && 0 < c < |up| && up[c] == up[q] ==> c == q)
  }

  /**
   * Taking a queue without listed children off a complete list keeps it complete exactly
   * under that condition.
   */
  lemma DelKeepsComplete(up: seq<nat>, l: Leaf, q: nat)
    requires Topology(up) && Connected(up, l) && Complete(up, l) && q < |up|
    requires l.onList[q] && !ChildOnList(up, l, q)
    ensures Connected(up, Del(l, q))
    ensures Complete(up, Del(l, q)) <==> LeavesComplete(up, l.list, q)
  {
    var l' := Del(l, q);
    DelKeepsConnected(up, l, q);
    CompleteByPosition(up, l);
    CompleteByPosition(up, l');
    NoListedChild(up, l, q);
    Listing(up, l);
    assert q in l.list;
    WithoutIs(l.list, q);
    hide *;
    RemovalComplete(up, l.list, l'.list, q);
  }

  lemma NoListedChild(up: seq<nat>, l: Leaf, q: nat)
    requires Connected(up, l) && !ChildOnList(up, l, q)
    ensures !HasChild(up, l.list, q)
  {}

  lemma RemovalComplete(up: seq<nat>, was: seq<nat>, list: seq<nat>, q: nat)
    requires q in was && Distinct(was) && CompleteList(up, was) && !HasChild(up, was, q) && q < |up|
    requires list == was[..IndexOf(was, q)] + was[IndexOf(was, q) + 1..]
    ensures CompleteList(up, list) <==> LeavesComplete(up, was, q)
  {
    var k := IndexOf(was, q);
    forall c: nat
      ensures c in list <==> c in was && c != q
    {
      RemovalMembers(was, list, k, c);
    }
    RemovalElsewhere(up, was, list, q, k);
    hide CompleteList;
    if k < |list| {
      RemovalGap(up, was, list, q, k);
    }
  }

  lemma RemovalMembers(was: seq<nat>, list: seq<nat>, k: nat, c: nat)
    requires Distinct(was) && k < |was| && list == was[..k] + was[k + 1..]
    ensures c in list <==> c in was && c != was[k]
  {
    if c in was && c != was[k] {
      var j: nat :| j < |was| && was[j] == c;
      assert list[if j < k then j else j - 1] == c;
    }
  }

  /** The list stays complete but for the position where the queue was. */
  lemma RemovalElsewhere(up: seq<nat>, was: seq<nat>, list: seq<nat>, q: nat, k: nat)
    requires k < |was| && was[k] == q && list == was[..k] + was[k + 1..] && CompleteList(up, was)
    requires forall c: nat :: c in list <==> c in was && c != q
    ensures CompleteList(up, list) <==> (k < |list| && HasChild(up, list, list[k]) ==> ChildBefore(up, list, k))
  {
    forall j: nat | j < |list| && j != k && HasChild(up, list, list[j])
      ensures ChildBefore(up, list, j)
    {
      var i := if j < k then j else j + 1;
      assert list[j] == was[i];
      assert HasChild(up, was, was[i]);
      assert ChildBefore(up, was, i);
      if j > 0 {
        assert list[j - 1] == was[i - 1];
      }
    }
  }

  lemma RemovalGap(up: seq<nat>, was: seq<nat>, list: seq<nat>, q: nat, k: nat)
    requires q < |up| && k < |list| < |was| && k == IndexOf(was, q) && was[k] == q
    requires list == was[..k] + was[k + 1..] && CompleteList(up, was)
    requires forall c: nat :: c in list <==> c in was && c != q
    ensures (HasChild(up, list, list[k]) ==> ChildBefore(up, list, k)) <==> LeavesComplete(up, was, q)
  {
    assert list[k] == was[k + 1];
    if HasChild(up, list, list[k]) {
      assert HasChild(up, was, was[k + 1]);
      assert ChildBefore(up, was, k + 1);
      assert q > 0 && was[k + 1] == up[q];
      if k > 0 {
        assert list[k - 1] == was[k - 1];
      }
    }
  }
}

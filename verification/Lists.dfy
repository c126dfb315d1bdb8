/** Sequences without repetition, as models of the kernel's intrusive lists. */
module Lists {

  ghost predicate Distinct(list: seq<nat>) {
    forall j: nat, k: nat :: j < k < |list| ==> list[j] != list[k]
  }

  /** The list without an element. */
  function Without(list: seq<nat>, x: nat): (r: seq<nat>)
    ensures x !in r
    ensures forall y :: y in r <==> y in list && y != x
    ensures |r| <= |list|
  {
    if list == [] then []
    else if list[0] == x then Without(list[1..], x)
    else [list[0]] + Without(list[1..], x)
  }

  /** The first position of an element, or the length of the list. */
  function IndexOf(list: seq<nat>, x: nat): (k: nat)
    ensures k <= |list|
    ensures x in list ==> k < |list| && list[k] == x
    ensures forall j: nat :: j < k ==> list[j] != x
  {
    if list == [] || list[0] == x then 0 else 1 + IndexOf(list[1..], x)
  }

  function Insert(list: seq<nat>, k: nat, x: nat): (r: seq<nat>)
    requires k <= |list|
    ensures forall y :: y in r <==> y == x || y in list
  {
    list[..k] + [x] + list[k..]
  }

  /** Both are on the list, a first. */
  predicate Before(list: seq<nat>, a: nat, b: nat) {
    a in list && b in list && IndexOf(list, a) < IndexOf(list, b)
  }

  /** Without keeps a list distinct; removing the head leaves the tail. */
  lemma {:induction false} WithoutDistinct(list: seq<nat>, x: nat)
    requires Distinct(list)
    ensures Distinct(Without(list, x))
    ensures list != [] && list[0] == x ==> Without(list, x) == list[1..]
  {
    if list == [] {
    } else {
      assert forall j: nat, k: nat :: j < k < |list[1..]| ==> list[1..][j] != list[1..][k];
      WithoutDistinct(list[1..], x);
      assert list[0] !in list[1..];
      if list[0] == x {
        NothingToRemove(list[1..], x);
      } else {
        var rest := Without(list[1..], x);
        assert forall k: nat :: k < |rest| ==> rest[k] in list[1..];
      }
    }
  }

  /** From a distinct list Without removes one position. */
  lemma {:induction false} WithoutIs(list: seq<nat>, x: nat)
    requires Distinct(list) && x in list
    ensures Without(list, x) == list[..IndexOf(list, x)] + list[IndexOf(list, x) + 1..]
  {
    WithoutDistinct(list, x);
    if list[0] != x {
      assert forall j: nat, k: nat :: j < k < |list[1..]| ==> list[1..][j] != list[1..][k];
      WithoutIs(list[1..], x);
    }
  }

  lemma {:induction false} NothingToRemove(list: seq<nat>, x: nat)
    requires x !in list
    ensures Without(list, x) == list
  {
    if list == [] {
    } else {
      NothingToRemove(list[1..], x);
    }
  }

  /** Removing an element keeps the order of the others. */
  lemma {:induction false} WithoutOrder(list: seq<nat>, x: nat, a: nat, b: nat)
    requires Before(list, a, b) && a != x && b != x
    ensures Before(Without(list, x), a, b)
  {
    if list[0] != a {
      assert a in list[1..] && b in list[1..];
      WithoutOrder(list[1..], x, a, b);
    }
  }

  lemma IndexUnique(list: seq<nat>, k: nat)
    requires Distinct(list) && k < |list|
    ensures IndexOf(list, list[k]) == k
  {}

  lemma InsertDistinct(list: seq<nat>, k: nat, x: nat)
    requires Distinct(list) && k <= |list| && x !in list
    ensures Distinct(Insert(list, k, x))
  {}

  /** Where the elements are after an insertion. */
  lemma InsertIndex(list: seq<nat>, k: nat, x: nat, a: nat)
    requires Distinct(list) && k <= |list| && x !in list && a in list
    ensures IndexOf(Insert(list, k, x), x) == k
    ensures IndexOf(Insert(list, k, x), a) == IndexOf(list, a) + if IndexOf(list, a) < k then 0 else 1
  {
    var r, i := Insert(list, k, x), IndexOf(list, a);
    InsertDistinct(list, k, x);
    assert r[k] == x;
    IndexUnique(r, k);
    var i' := i + if i < k then 0 else 1;
    assert r[i'] == a;
    IndexUnique(r, i');
  }
}

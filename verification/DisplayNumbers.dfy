/**
 The allocator of X display numbers: the reserved numbers are listed out of a
 hash set, sorted, and walked for the first hole, in 32-bit arithmetic.
 */
module DisplayNumbers {
  import opened Basics

  /** The least number at or above k that is not reserved. */
  function LeastFreeFrom(used: set<nat>, k: nat): (r: nat)
    ensures k <= r <= k + |used|
    ensures r !in used
    ensures forall i :: k <= i < r ==> i in used
    decreases |used|
  {
    if k in used then
      var r := LeastFreeFrom(used - {k}, k + 1);
      assert forall i | k < i < r :: i in used by {
        forall i | k < i < r ensures i in used {
          assert i in used - {k};
        }
      }
      r
    else k
  }

  /** The least number that is not reserved. */
  function LeastFree(used: set<nat>): (r: nat)
    ensures r <= |used|
    ensures r !in used
    ensures forall i :: 0 <= i < r ==> i in used
  {
    LeastFreeFrom(used, 0)
  }

  lemma LeastFreeUnique(used: set<nat>, r: nat)
    requires r !in used
    requires forall i :: 0 <= i < r ==> i in used
    ensures r == LeastFree(used)
  {
  }

  ghost predicate Sorted(l: seq<nat>) {
    forall i, j :: 0 <= i < j < |l| ==> l[i] < l[j]
  }

  ghost predicate Distinct(l: seq<nat>) {
    forall i, j :: 0 <= i < j < |l| ==> l[i] != l[j]
  }

  /** A number added to a list that is sorted low to high. */
  function Insert(x: nat, l: seq<nat>): (r: seq<nat>)
    requires Sorted(l) && x !in l
    ensures Sorted(r)
    ensures forall y :: y in r <==> y == x || y in l
    decreases |l|
  {
    if l == [] || x < l[0] then [x] + l
    else
      assert l == [l[0]] + l[1..];
      var t := Insert(x, l[1..]);
      assert forall i | 0 <= i < |t| :: l[0] < t[i] by {
        forall i | 0 <= i < |t| ensures l[0] < t[i] {
          assert t[i] in t;
          assert forall k | 1 <= k < |l| :: l[0] < l[k];
        }
      }
      [l[0]] + t
  }

  /** g_list_sort with the comparison of the source; no number occurs twice. */
  function SortNums(l: seq<nat>): (r: seq<nat>)
    requires Distinct(l)
    ensures Sorted(r)
    ensures forall y :: y in r <==> y in l
    decreases |l|
  {
    if l == [] then []
    else
      assert l == [l[0]] + l[1..];
      Insert(l[0], SortNums(l[1..]))
  }

  /** g_hash_table_foreach with a prepending callback: any order, no repeats. */
  method ListifyHash(used: set<nat>) returns (l: seq<nat>)
    ensures forall y :: y in l <==> y in used
    ensures Distinct(l)
  {
    l := [];
    var rest := used;
    while rest != {}
      invariant rest <= used
      invariant forall y :: y in l <==> y in used && y !in rest
      invariant Distinct(l)
      decreases rest
    {
      var x :| x in rest;
      l := [x] + l;
      rest := rest - {x};
    }
  }

  /** The reserved numbers, low to high. */
  method SortedNumbers(used: set<nat>) returns (list: seq<nat>)
    ensures Sorted(list)
    ensures forall y :: y in list <==> y in used
  {
    list := ListifyHash(used);
    list := SortNums(list);
  }

  /**
   The walk itself. It finds the least number that is not reserved, except that
   the successor of the last 32-bit number wraps to 0.
   */
  method FirstHole(used: set<nat>) returns (ret: nat)
    requires forall n :: n in used ==> n < U32
    ensures ret == LeastFree(used) % U32
  {
    hide Sorted, LeastFree;
    var list := SortedNumbers(used);
    if list == [] {
      ZeroIsFree(list, used);
      return 0;
    }
    var l := 0;
    while true
      invariant 0 <= l < |list|
      invariant forall i :: 0 <= i < l ==> list[i] == i
      invariant l > 0 ==> list[l] == l
      decreases |list| - l
    {
      var num := list[l];
      // a list that does not start at zero has its hole there
      if l == 0 && num != 0 {
        ZeroIsFree(list, used);
        return 0;
      }
      // no successor in the list
      if l + 1 == |list| || list[l + 1] != (num + 1) % U32 {
        HoleIsFree(list, l, used);
        return (num + 1) % U32;
      }
      NextInPlace(list, l, used);
      l := l + 1;
    }
  }

  lemma NextInPlace(list: seq<nat>, l: nat, used: set<nat>)
    requires Sorted(list) && forall y :: y in list <==> y in used
    requires forall n :: n in used ==> n < U32
    requires l + 1 < |list| && list[l] == l && list[l + 1] == (l + 1) % U32
    ensures list[l + 1] == l + 1
  {
    assert list[l] < list[l + 1];
    assert list[l] in list;
  }

  lemma ZeroIsFree(list: seq<nat>, used: set<nat>)
    requires Sorted(list) && forall y :: y in list <==> y in used
    requires list == [] || list[0] != 0
    ensures LeastFree(used) == 0
  {
    forall k | 0 <= k < |list| ensures list[k] != 0 {
      assert k > 0 ==> list[0] < list[k];
    }
    assert 0 !in list;
    LeastFreeUnique(used, 0);
  }

  lemma HoleIsFree(list: seq<nat>, l: nat, used: set<nat>)
    requires Sorted(list) && forall y :: y in list <==> y in used
    requires forall n :: n in used ==> n < U32
    requires l < |list| && forall i :: 0 <= i <= l ==> list[i] == i
    requires l + 1 == |list| || list[l + 1] != (l + 1) % U32
    ensures LeastFree(used) == l + 1
  {
    forall i | 0 <= i < l + 1 ensures i in used {
      assert list[i] in list;
    }
    forall k | 0 <= k < |list| ensures list[k] != l + 1 {
      assert list[k] in list;
      if k > l {
        assert list[l] < list[l + 1] <= list[k];
        assert list[l + 1] in list;
      }
    }
    LeastFreeUnique(used, l + 1);
  }
}

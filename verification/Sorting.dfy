/** Hash-set iteration and the library sort, as the quorum and tracker code uses them. */
module Sorting {
  import opened Common

  ghost predicate SortedBy<T>(s: seq<T>, key: T -> int) {
    forall i, j :: 0 <= i < j < |s| ==> key(s[i]) <= key(s[j])
  }

  /** The keys of a hash set, in whatever order its iterator yields them. */
  method CollectKeys(s: set<U64>) returns (ids: array<U64>)
    ensures fresh(ids)
    ensures ids.Length == |s| && Distinct(ids[..]) && SetOf(ids[..]) == s
  {
    ids := new U64[|s|];
    var rest := s;
    var i := 0;
    while rest != {}
      invariant rest <= s && i + |rest| == |s|
      invariant Distinct(ids[..i]) && SetOf(ids[..i]) == s - rest
      decreases rest
    {
      var k :| k in rest;
      ghost var before := ids[..i];
      ids[i] := k;
      rest := rest - {k};
      i := i + 1;
      assert ids[..i] == before + [k];
      SetOfAppend(before, [k]);
    }
    assert ids[..i] == ids[..];
  }

  /** The same keys as a list. */
  method ListKeys(s: set<U64>) returns (ids: seq<U64>)
    ensures Distinct(ids) && SetOf(ids) == s
  {
    var a := CollectKeys(s);
    ids := a[..];
  }

  method Swap<T>(a: array<T>, i: nat, j: nat)
    requires i < j < a.Length
    modifies a
    ensures a[..] == old(a[..])[i := old(a[j])][j := old(a[i])]
    ensures multiset(a[..]) == multiset(old(a[..]))
  {
    a[i], a[j] := a[j], a[i];
  }

  /** Ascending sort by `key`, in place. */
  method Sort<T>(a: array<T>, key: T -> int)
    modifies a
    ensures SortedBy(a[..], key)
    ensures multiset(a[..]) == multiset(old(a[..]))
  {
    for n := 0 to a.Length
      invariant forall i, j :: 0 <= i < j < n ==> key(a[i]) <= key(a[j])
      invariant multiset(a[..]) == multiset(old(a[..]))
    {
      SiftDown(a, n, key);
    }
  }

  method SiftDown<T>(a: array<T>, n: nat, key: T -> int)
    requires n < a.Length
    requires forall i, j :: 0 <= i < j < n ==> key(a[i]) <= key(a[j])
    modifies a
    ensures forall i, j :: 0 <= i < j <= n ==> key(a[i]) <= key(a[j])
    ensures multiset(a[..]) == multiset(old(a[..]))
  {
    var j := n;
    while j > 0 && key(a[j - 1]) > key(a[j])
      invariant 0 <= j <= n
      invariant forall x, y :: 0 <= x < y <= n && x != j && y != j ==> key(a[x]) <= key(a[y])
      invariant forall y :: j < y <= n ==> key(a[j]) <= key(a[y])
      invariant multiset(a[..]) == multiset(old(a[..]))
    {
      Swap(a, j - 1, j);
      j := j - 1;
    }
  }

  lemma PermutationElements<T>(s: seq<T>, t: seq<T>)
    requires multiset(s) == multiset(t)
    ensures |s| == |t| && SetOf(s) == SetOf(t)
  {
    assert |multiset(s)| == |multiset(t)|;
    forall x ensures x in s <==> x in t {
      assert x in s <==> x in multiset(s);
      assert x in t <==> x in multiset(t);
    }
  }

  /** Sorting a duplicate-free array leaves it strictly increasing. */
  method SortIds(a: array<U64>)
    requires Distinct(a[..])
    modifies a
    ensures StrictlySorted(a[..]) && SetOf(a[..]) == SetOf(old(a[..]))
  {
    ghost var before := a[..];
    Sort(a, (x: U64) => x);
    PermutationElements(a[..], before);
    DistinctCardinality(before);
    SameCardinalityDistinct(a[..]);
  }

  lemma SortedAppend(s: seq<U64>, x: U64)
    requires StrictlySorted(s) && (s != [] ==> s[|s| - 1] < x)
    ensures StrictlySorted(s + [x]) && SetOf(s + [x]) == SetOf(s) + {x}
  {
    SetOfAppend(s, [x]);
  }

  lemma SortedEmpty(s: seq<U64>)
    requires s == []
    ensures StrictlySorted(s)
  {
  }

  lemma SetOfAgain(s: seq<U64>, x: U64)
    requires x in s
    ensures SetOf(s) + {x} == SetOf(s)
  {
  }

  /** The sorted list of ids with repetitions squeezed out in place. */
  method SqueezeSorted(items: array<U64>) returns (unique: nat)
    requires forall i, j :: 0 <= i < j < items.Length ==> items[i] <= items[j]
    modifies items
    ensures unique <= items.Length
    ensures StrictlySorted(items[..unique]) && SetOf(items[..unique]) == SetOf(old(items[..]))
  {
    hide StrictlySorted, SetOf;
    unique := 0;
    ghost var all := items[..];
    assert all[..0] == items[..0];
    SortedEmpty(all[..0]);
    for k := 0 to items.Length
      invariant unique <= k
      invariant items[k..] == all[k..]
      invariant StrictlySorted(items[..unique])
      invariant SetOf(items[..unique]) == SetOf(all[..k])
      invariant unique > 0 ==> k > 0 && items[unique - 1] == all[k - 1]
      invariant unique == 0 ==> k == 0
    {
      var id := items[k];
      assert id == items[k..][0] == all[k];
      SetOfNext(all, k);
      ghost var kept := items[..unique];
      if unique == 0 || items[unique - 1] != id {
        assert unique > 0 ==> all[k - 1] <= all[k];
        items[unique] := id;
        unique := unique + 1;
        assert items[..unique] == kept + [id];
        SortedAppend(kept, id);
      } else {
        assert id == kept[unique - 1];
        SetOfAgain(kept, id);
      }
    }
    assert all[..items.Length] == all;
  }

  /** Gathered ids, sorted and each kept once. */
  method SortAndSqueeze(all: seq<U64>) returns (ids: seq<U64>)
    ensures StrictlySorted(ids) && SetOf(ids) == SetOf(all)
  {
    var items := new U64[|all|](i requires 0 <= i < |all| => all[i]);
    assert items[..] == all;
    Sort(items, (x: U64) => x);
    PermutationElements(items[..], all);
    forall i, j | 0 <= i < j < items.Length ensures items[i] <= items[j] {
      assert ((x: U64) => x)(items[..][i]) <= ((x: U64) => x)(items[..][j]);
    }
    var unique := SqueezeSorted(items);
    ids := items[..unique];
  }
}

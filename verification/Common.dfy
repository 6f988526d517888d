/** Shared vocabulary: 64-bit identifiers, results, and small facts about finite sets and sequences. */
module Common {

  const MAX_U64: nat := 0xFFFF_FFFF_FFFF_FFFF

  /** An unsigned 64-bit value: node ids, log indices and group ids. */
  type U64 = n: int | 0 <= n <= MAX_U64

  datatype Option<+T> = None | Some(value: T)

  datatype Result<+T, +E> = Ok(value: T) | Err(error: E)

  function Min(a: int, b: int): int { if a <= b then a else b }

  function Max(a: int, b: int): int { if a >= b then a else b }

  function SetOf<T>(s: seq<T>): set<T> { set x | x in s }

  ghost predicate Distinct<T>(s: seq<T>) {
    forall i, j :: 0 <= i < j < |s| ==> s[i] != s[j]
  }

  /** Strictly increasing, hence also free of duplicates. */
  ghost predicate StrictlySorted(s: seq<U64>) {
    forall i, j :: 0 <= i < j < |s| ==> s[i] < s[j]
  }

  lemma {:induction false} SetOfAppend<T>(s: seq<T>, t: seq<T>)
    ensures SetOf(s + t) == SetOf(s) + SetOf(t)
  {
    forall x | x in SetOf(s) + SetOf(t) ensures x in s + t {
      if x in s {
        var i :| 0 <= i < |s| && s[i] == x;
        assert (s + t)[i] == x;
      } else {
        var i :| 0 <= i < |t| && t[i] == x;
        assert (s + t)[|s| + i] == x;
      }
    }
  }

  lemma SetOfNext<T>(s: seq<T>, i: nat)
    requires i < |s|
    ensures SetOf(s[..i + 1]) == SetOf(s[..i]) + {s[i]}
  {
    assert s[..i + 1] == s[..i] + [s[i]];
    SetOfAppend(s[..i], [s[i]]);
  }

  lemma InFrontOrLast<T>(s: seq<T>, x: T)
    requires s != []
    ensures x in s <==> x in s[..|s| - 1] || x == s[|s| - 1]
  {
    assert s == s[..|s| - 1] + [s[|s| - 1]];
  }

  lemma DistinctAppend<T>(s: seq<T>, x: T)
    requires Distinct(s) && x !in s
    ensures Distinct(s + [x]) && SetOf(s + [x]) == SetOf(s) + {x}
  {
    SetOfAppend(s, [x]);
  }

  lemma {:induction false} DistinctCardinality<T>(s: seq<T>)
    requires Distinct(s)
    ensures |SetOf(s)| == |s|
  {
    if |s| > 0 {
      var front := s[..|s| - 1];
      DistinctCardinality(front);
      assert s == front + [s[|s| - 1]];
      assert SetOf(s) == SetOf(front) + {s[|s| - 1]};
    }
  }

  /** Two subsets of `u` that are together larger than `u` share an element. */
  lemma {:induction false} Pigeonhole<T>(u: set<T>, a: set<T>, b: set<T>)
    requires a <= u && b <= u
    requires |a| + |b| > |u|
    ensures exists x :: x in a && x in b
  {
    if a * b == {} {
      assert |a + b| == |a| + |b|;
      SubsetCardinality(a + b, u);
      assert false;
    }
    var x :| x in a * b;
  }

  lemma {:induction false} SubsetCardinality<T>(a: set<T>, b: set<T>)
    requires a <= b
    ensures |a| <= |b|
  {
    assert b == a + (b - a);
    assert |b| == |a| + |b - a|;
  }

  lemma SetOfEmpty<T>(s: seq<T>)
    ensures SetOf(s) == {} <==> s == []
  {
    if s != [] {
      assert s[0] in SetOf(s);
    }
  }

  /** Two strictly sorted sequences over the same elements are the same sequence. */
  lemma {:induction false} SortedUnique(s: seq<U64>, t: seq<U64>)
    requires StrictlySorted(s) && StrictlySorted(t) && SetOf(s) == SetOf(t)
    ensures s == t
  {
    SetOfEmpty(s);
    SetOfEmpty(t);
    if s != [] {
      assert s[0] in SetOf(t) && t[0] in SetOf(s);
      assert s[0] == t[0];
      assert SetOf(s[1..]) == SetOf(s) - {s[0]};
      assert SetOf(t[1..]) == SetOf(t) - {t[0]};
      SortedUnique(s[1..], t[1..]);
    }
  }

  lemma SetOfFirst<T>(s: seq<T>)
    requires s != []
    ensures SetOf(s) == SetOf(s[1..]) + {s[0]}
  {
    assert s == [s[0]] + s[1..];
    SetOfAppend([s[0]], s[1..]);
    assert SetOf([s[0]]) == {s[0]};
  }

  lemma OneMore<T>(a: set<T>, x: T)
    ensures |a + {x}| == if x in a then |a| else |a| + 1
  {
    if x in a {
      assert a + {x} == a;
    }
  }

  lemma {:induction false} SetOfBound<T>(s: seq<T>)
    ensures |SetOf(s)| <= |s|
  {
    hide SetOf;
    if s == [] {
      SetOfEmpty(s);
    } else {
      SetOfBound(s[1..]);
      SetOfFirst(s);
      OneMore(SetOf(s[1..]), s[0]);
    }
  }

  lemma {:induction false} SameCardinalityDistinct<T>(s: seq<T>)
    requires |SetOf(s)| == |s|
    ensures Distinct(s)
  {
    if |s| > 0 {
      var rest := s[1..];
      SetOfBound(rest);
      SetOfFirst(s);
      OneMore(SetOf(rest), s[0]);
      assert s[0] !in SetOf(rest);
      SameCardinalityDistinct(rest);
    }
  }
}

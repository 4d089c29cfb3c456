/** Stable sorting by a total preorder, the behaviour of Python's `sorted`
    and `list.sort` with a `key` (both stable).  The pipeline sorts stop
    times by `stop_sequence`, tags by route name, arrival times, and route
    names in natural order; all four use `SortBy`. */
module Sorting {

  /** `le` is total and transitive (hence reflexive): the order Python's
      sort relies on for its keys. */
  ghost predicate TotalPreorder<T(!new)>(le: (T, T) -> bool) {
    && (forall x, y :: le(x, y) || le(y, x))
    && (forall x, y, z :: le(x, y) && le(y, z) ==> le(x, z))
  }

  predicate Equiv<T>(le: (T, T) -> bool, x: T, y: T) {
    le(x, y) && le(y, x)
  }

  predicate SortedBy<T>(s: seq<T>, le: (T, T) -> bool) {
    forall i, j :: 0 <= i < j < |s| ==> le(s[i], s[j])
  }

  /** The elements of `s` that the order cannot tell apart from `x`, in
      their order in `s`. A sort is stable when it keeps every such
      subsequence. */
  function Equivalents<T>(s: seq<T>, x: T, le: (T, T) -> bool): (r: seq<T>)
    ensures |r| <= |s|
    ensures forall y :: y in r ==> y in s && Equiv(le, x, y)
  {
    if s == [] then []
    else (if Equiv(le, x, s[0]) then [s[0]] else []) + Equivalents(s[1..], x, le)
  }

  /** Puts `x` before the first element it does not exceed, so that `x`
      stays ahead of every element equivalent to it. */
  function Insert<T>(x: T, s: seq<T>, le: (T, T) -> bool): (r: seq<T>)
    ensures multiset(r) == multiset(s) + multiset{x}
    ensures |r| == |s| + 1
  {
    if s == [] then [x]
    else if le(x, s[0]) then [x] + s
    else
      assert s == [s[0]] + s[1..];
      [s[0]] + Insert(x, s[1..], le)
  }

  function SortBy<T(!new)>(s: seq<T>, le: (T, T) -> bool): (r: seq<T>)
    ensures multiset(r) == multiset(s)
    ensures |r| == |s|
  {
    if s == [] then []
    else
      assert s == [s[0]] + s[1..];
      Insert(s[0], SortBy(s[1..], le), le)
  }

  /** `SortBy` keeps exactly the elements it was given. */
  lemma SortByMembers<T(!new)>(s: seq<T>, le: (T, T) -> bool, x: T)
    ensures x in SortBy(s, le) <==> x in s
  {
    assert x in SortBy(s, le) <==> x in multiset(SortBy(s, le));
    assert x in s <==> x in multiset(s);
  }

  lemma AppendAssoc<T>(a: seq<T>, b: seq<T>, c: seq<T>)
    ensures a + b + c == a + (b + c)
  {
  }

  /** A prefix one element longer. */
  lemma TakeSnoc<T>(s: seq<T>, i: nat)
    requires i < |s|
    ensures s[..i + 1] == s[..i] + [s[i]]
  {
  }

  lemma {:induction false} InsertSorted<T(!new)>(x: T, s: seq<T>, le: (T, T) -> bool)
    requires TotalPreorder(le)
    requires SortedBy(s, le)
    ensures SortedBy(Insert(x, s, le), le)
  {
    if s != [] && !le(x, s[0]) {
      InsertSorted(x, s[1..], le);
      var r := Insert(x, s[1..], le);
      assert multiset(r) == multiset(s[1..]) + multiset{x};
      forall j | 0 <= j < |r| ensures le(s[0], r[j]) {
        assert r[j] in multiset(r);
        if r[j] != x {
          assert r[j] in multiset(s[1..]);
          var k :| 0 <= k < |s[1..]| && s[1..][k] == r[j];
          assert s[k + 1] == r[j];
        }
      }
    }
  }

  /** `SortBy` orders its result. */
  lemma {:induction false} SortBySorted<T(!new)>(s: seq<T>, le: (T, T) -> bool)
    requires TotalPreorder(le)
    ensures SortedBy(SortBy(s, le), le)
  {
    if s != [] {
      SortBySorted(s[1..], le);
      InsertSorted(s[0], SortBy(s[1..], le), le);
    }
  }

  /** `Equivalents` of a sequence with a known head. */
  lemma EquivalentsCons<T>(h: T, t: seq<T>, y: T, le: (T, T) -> bool)
    ensures Equivalents([h] + t, y, le) == (if Equiv(le, y, h) then [h] else []) + Equivalents(t, y, le)
  {
    assert ([h] + t)[0] == h && ([h] + t)[1..] == t;
  }

  /** An element `z` that `x` does not stay below is not equivalent to
      anything equivalent to `x`. */
  lemma BelowNotEquiv<T(!new)>(x: T, y: T, z: T, le: (T, T) -> bool)
    requires TotalPreorder(le) && Equiv(le, y, x) && !le(x, z)
    ensures !Equiv(le, y, z)
  {
  }

  lemma {:induction false} InsertEquivalents<T(!new)>(x: T, s: seq<T>, y: T, le: (T, T) -> bool)
    requires TotalPreorder(le)
    ensures Equivalents(Insert(x, s, le), y, le)
         == (if Equiv(le, y, x) then [x] else []) + Equivalents(s, y, le)
  {
    if s == [] {
    } else if le(x, s[0]) {
      EquivalentsCons(x, s, y, le);
    } else {
      var r := Insert(x, s[1..], le);
      InsertEquivalents(x, s[1..], y, le);
      EquivalentsCons(s[0], r, y, le);
      EquivalentsCons(s[0], s[1..], y, le);
      assert s == [s[0]] + s[1..];
      if Equiv(le, y, x) {
        BelowNotEquiv(x, y, s[0], le);
      }
    }
  }

  /** `SortBy` is stable: for every `y`, the elements equivalent to `y`
      come out in the order they went in. */
  lemma {:induction false} SortByStable<T(!new)>(s: seq<T>, y: T, le: (T, T) -> bool)
    requires TotalPreorder(le)
    ensures Equivalents(SortBy(s, le), y, le) == Equivalents(s, y, le)
  {
    if s != [] {
      SortByStable(s[1..], y, le);
      InsertEquivalents(s[0], SortBy(s[1..], le), y, le);
    }
  }

  /** The first element of a sorted sequence is below everything in it. */
  lemma SortedHeadLeast<T(!new)>(a: seq<T>, x: T, le: (T, T) -> bool)
    requires TotalPreorder(le)
    requires SortedBy(a, le) && x in a
    ensures le(a[0], x)
  {
    var i :| 0 <= i < |a| && a[i] == x;
    if i > 0 { assert le(a[0], a[i]); }
  }

  lemma TailMultiset<T>(a: seq<T>, b: seq<T>)
    requires a != [] && b != [] && a[0] == b[0]
    requires multiset(a) == multiset(b)
    ensures multiset(a[1..]) == multiset(b[1..])
  {
    assert a == [a[0]] + a[1..] && b == [b[0]] + b[1..];
    assert multiset(a[1..]) == multiset(a) - multiset{a[0]};
    assert multiset(b[1..]) == multiset(b) - multiset{b[0]};
  }

  /** Two sorted arrangements of one multiset are the same sequence when
      the order separates any two different elements of it. */
  lemma {:induction false} SortedUnique<T(!new)>(a: seq<T>, b: seq<T>, le: (T, T) -> bool)
    requires TotalPreorder(le)
    requires SortedBy(a, le) && SortedBy(b, le)
    requires multiset(a) == multiset(b)
    requires forall x, y :: x in a && y in a && Equiv(le, x, y) ==> x == y
    ensures a == b
  {
    if a == [] {
      assert |b| == |multiset(b)| == 0;
    } else {
      assert |b| == |multiset(b)| == |a|;
      assert a[0] in multiset(b) && b[0] in multiset(a);
      SortedHeadLeast(b, a[0], le);
      SortedHeadLeast(a, b[0], le);
      assert b[0] in a && Equiv(le, a[0], b[0]);
      var t := a[0];
      assert t == b[0];
      assert a == [t] + a[1..] && b == [t] + b[1..];
      TailMultiset(a, b);
      var a', b' := a[1..], b[1..];
      assert forall x :: x in a' ==> x in a;
      SortedUnique(a', b', le);
    }
  }
}

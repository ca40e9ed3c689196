/** Stable sorting, as the library sort the source calls is documented to behave. */
module Sorting {
  import opened Common

  ghost predicate TotalPreorder<T(!new)>(le: (T, T) -> bool) {
    && (forall x, y :: le(x, y) || le(y, x))
    && (forall x, y, z {:trigger le(x, y), le(y, z)} :: le(x, y) && le(y, z) ==> le(x, z))
  }

  ghost predicate Sorted<T>(s: seq<T>, le: (T, T) -> bool) {
    forall i, j :: 0 <= i < j < |s| ==> le(s[i], s[j])
  }

  /** Places `x` before everything it may precede. */
  function Insert<T>(x: T, s: seq<T>, le: (T, T) -> bool): (r: seq<T>)
    ensures |r| == |s| + 1
    ensures multiset(r) == multiset(s) + multiset{x}
  {
    if s == [] || le(x, s[0]) then [x] + s
    else
      assert s == [s[0]] + s[1..];
      [s[0]] + Insert(x, s[1..], le)
  }

  function StableSort<T>(s: seq<T>, le: (T, T) -> bool): (r: seq<T>)
    ensures |r| == |s|
    ensures multiset(r) == multiset(s)
  {
    if s == [] then []
    else
      assert s == [s[0]] + s[1..];
      Insert(s[0], StableSort(s[1..], le), le)
  }

  lemma {:induction false} InsertSorted<T(!new)>(x: T, s: seq<T>, le: (T, T) -> bool)
    requires TotalPreorder(le) && Sorted(s, le)
    ensures Sorted(Insert(x, s, le), le)
  {
    if s == [] || le(x, s[0]) {
      forall j | 0 <= j < |s|
        ensures le(x, s[j])
      {
        assert le(x, s[0]) && (j == 0 || le(s[0], s[j]));
      }
    } else {
      InsertSorted(x, s[1..], le);
      var rest := Insert(x, s[1..], le);
      forall j | 0 <= j < |rest|
        ensures le(s[0], rest[j])
      {
        assert rest[j] in multiset(rest);
        assert rest[j] == x || rest[j] in multiset(s[1..]);
        assert le(s[0], x);
      }
    }
  }

  lemma {:induction false} StableSortSorts<T(!new)>(s: seq<T>, le: (T, T) -> bool)
    requires TotalPreorder(le)
    ensures Sorted(StableSort(s, le), le)
  {
    if s != [] {
      StableSortSorts(s[1..], le);
      InsertSorted(s[0], StableSort(s[1..], le), le);
    }
  }

  /** No two different elements tie. */
  ghost predicate NoTies<T>(s: seq<T>, le: (T, T) -> bool) {
    forall x, y :: x in s && y in s && le(x, y) && le(y, x) ==> x == y
  }

  /** The first element of a sorted sequence precedes every element of any rearrangement. */
  lemma FirstPrecedes<T(!new)>(a: seq<T>, b: seq<T>, le: (T, T) -> bool, j: nat)
    requires TotalPreorder(le) && Sorted(a, le) && multiset(a) == multiset(b) && j < |b|
    ensures a != [] && b[j] in a && le(a[0], b[j])
  {
    assert b[j] in multiset(b);
    var i :| 0 <= i < |a| && a[i] == b[j];
    assert le(a[0], a[0]);
  }

  lemma WithoutFirst<T(!new)>(s: seq<T>, le: (T, T) -> bool)
    requires s != []
    ensures s == [s[0]] + s[1..] && multiset(s[1..]) == multiset(s) - multiset{s[0]}
    ensures (Sorted(s, le) ==> Sorted(s[1..], le)) && (NoTies(s, le) ==> NoTies(s[1..], le))
  {
    assert s == [s[0]] + s[1..];
    hide NoTies;
    if NoTies(s, le) { TailHasNoTies(s, le); }
  }

  lemma TailHasNoTies<T(!new)>(s: seq<T>, le: (T, T) -> bool)
    requires s != [] && NoTies(s, le)
    ensures NoTies(s[1..], le)
  {
    forall x | x in s[1..] ensures x in s {}
  }

  lemma SameFirst<T(!new)>(a: seq<T>, b: seq<T>, le: (T, T) -> bool)
    requires TotalPreorder(le) && NoTies(a, le) && a != [] && b != []
    requires Sorted(a, le) && Sorted(b, le) && multiset(a) == multiset(b)
    ensures a[0] == b[0]
  {
    FirstPrecedes(a, b, le, 0);
    FirstPrecedes(b, a, le, 0);
  }

  /** Without ties, a sorted arrangement is determined by its elements alone. */
  lemma {:induction false} SortedIsUnique<T(!new)>(a: seq<T>, b: seq<T>, le: (T, T) -> bool)
    requires TotalPreorder(le) && NoTies(a, le)
    requires Sorted(a, le) && Sorted(b, le) && multiset(a) == multiset(b)
    ensures a == b
  {
    hide TotalPreorder, Sorted, NoTies;
    SameSize(a, b);
    if a != [] {
      SameFirst(a, b, le);
      WithoutFirst(a, le);
      WithoutFirst(b, le);
      SortedIsUnique(a[1..], b[1..], le);
    }
  }

  lemma SameSize<T>(a: seq<T>, b: seq<T>)
    requires multiset(a) == multiset(b)
    ensures |a| == |b|
  {
    assert |multiset(a)| == |a| && |multiset(b)| == |b|;
  }

  /** Sorting forgets the order it was given, when there are no ties. */
  lemma {:induction false} SortForgetsOrder<T(!new)>(a: seq<T>, b: seq<T>, le: (T, T) -> bool)
    requires TotalPreorder(le) && NoTies(a, le) && multiset(a) == multiset(b)
    ensures StableSort(a, le) == StableSort(b, le)
  {
    StableSortSorts(a, le);
    StableSortSorts(b, le);
    var s := StableSort(a, le);
    forall x, y | x in s && y in s && le(x, y) && le(y, x)
      ensures x == y
    {
      assert x in multiset(s) && y in multiset(s);
    }
    SortedIsUnique(s, StableSort(b, le), le);
  }

  ghost function Elements<T>(s: seq<T>): set<T> { set x | x in s }

  /** A sequence is duplicate-free exactly when it has as many elements as positions. */
  lemma {:induction false} DistinctBySize<T>(s: seq<T>)
    ensures |Elements(s)| <= |s|
    ensures Distinct(s) <==> |Elements(s)| == |s|
  {
    if s != [] {
      var rest, x := s[..|s| - 1], s[|s| - 1];
      DistinctBySize(rest);
      assert Elements(s) == Elements(rest) + {x};
      if x in rest {
        assert Elements(s) == Elements(rest);
      }
    }
  }

  lemma RearrangedDistinct<T>(a: seq<T>, b: seq<T>)
    requires multiset(a) == multiset(b) && Distinct(a)
    ensures Distinct(b)
  {
    SameSize(a, b);
    forall x ensures x in a <==> x in b {
      assert x in a <==> x in multiset(a);
      assert x in b <==> x in multiset(b);
    }
    assert Elements(a) == Elements(b);
    DistinctBySize(a);
    DistinctBySize(b);
  }
}

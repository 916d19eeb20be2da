/** Stable sorting (`sorted`, `list.sort`) and counting, with the facts the comparators and the
    percentiles rest on: sorting permutes, and the sorted form of a collection is unique. */
module Sorting {
  import opened Common

  ghost predicate TotalPreorder<T(!new)>(le: (T, T) -> bool) {
    && (forall x, y :: le(x, y) || le(y, x))
    && (forall x, y, z :: le(x, y) && le(y, z) ==> le(x, z))
  }

  ghost predicate Sorted<T>(s: seq<T>, le: (T, T) -> bool) {
    forall i, j :: 0 <= i < j < |s| ==> le(s[i], s[j])
  }

  /** Inserts before the first element that is not smaller, so equal elements keep their order. */
  function Insert<T>(x: T, s: seq<T>, le: (T, T) -> bool): (r: seq<T>)
    ensures |r| == |s| + 1 && multiset(r) == multiset(s) + multiset{x}
  {
    if s == [] || le(x, s[0]) then
      assert [x] + s == [x] + s[..];
      [x] + s
    else
      assert s == [s[0]] + s[1..];
      [s[0]] + Insert(x, s[1..], le)
  }

  function Sort<T>(s: seq<T>, le: (T, T) -> bool): (r: seq<T>)
    ensures |r| == |s| && multiset(r) == multiset(s)
  {
    if s == [] then [] else
      assert s == [s[0]] + s[1..];
      Insert(s[0], Sort(s[1..], le), le)
  }

  lemma {:induction false} InsertSorts<T(!new)>(x: T, s: seq<T>, le: (T, T) -> bool)
    requires TotalPreorder(le) && Sorted(s, le)
    ensures Sorted(Insert(x, s, le), le)
  {
    if s != [] && !le(x, s[0]) {
      InsertSorts(x, s[1..], le);
      var r := Insert(x, s[1..], le);
      forall k | 0 <= k < |r| ensures le(s[0], r[k]) {
        assert r[k] in multiset(r);
        assert r[k] == x || r[k] in s[1..];
      }
    }
  }

  lemma {:induction false} SortSorts<T(!new)>(s: seq<T>, le: (T, T) -> bool)
    requires TotalPreorder(le)
    ensures Sorted(Sort(s, le), le)
  {
    if s != [] {
      SortSorts(s[1..], le);
      InsertSorts(s[0], Sort(s[1..], le), le);
    }
  }

  lemma HeadIsLeast<T(!new)>(a: seq<T>, b: seq<T>, le: (T, T) -> bool)
    requires a != [] && b != [] && Sorted(a, le) && multiset(a) == multiset(b) && le(a[0], a[0])
    ensures le(a[0], b[0]) && b[0] in a
  {
    assert b[0] in multiset(b);
    var i :| 0 <= i < |a| && a[i] == b[0];
  }

  lemma TailMultiset<T>(a: seq<T>)
    requires a != []
    ensures multiset(a[1..]) == multiset(a) - multiset{a[0]}
  {
    assert a == [a[0]] + a[1..];
  }

  /** The sorted form of a collection is unique when the order tells its elements apart. */
  lemma {:induction false} SortedUnique<T(!new)>(a: seq<T>, b: seq<T>, le: (T, T) -> bool)
    requires Sorted(a, le) && Sorted(b, le) && multiset(a) == multiset(b)
    requires forall x, y :: x in a && y in a && le(x, y) && le(y, x) ==> x == y
    requires forall x :: le(x, x)
    ensures a == b
  {
    assert |b| == |multiset(b)| == |multiset(a)| == |a|;
    if a != [] {
      assert a[0] == b[0] by {
        HeadIsLeast(a, b, le);
        HeadIsLeast(b, a, le);
      }
      TailMultiset(a);
      TailMultiset(b);
      SortedUnique(a[1..], b[1..], le);
    }
  }

  /** Two collections sort alike exactly when they hold the same elements equally often. */
  lemma SameSorted<T(!new)>(s: seq<T>, t: seq<T>, le: (T, T) -> bool)
    requires TotalPreorder(le)
    requires forall x, y :: x in s && y in s && le(x, y) && le(y, x) ==> x == y
    ensures Sort(s, le) == Sort(t, le) <==> multiset(s) == multiset(t)
  {
    if multiset(s) == multiset(t) {
      SortSorts(s, le);
      SortSorts(t, le);
      forall x | x in Sort(s, le) ensures x in s { assert x in multiset(Sort(s, le)); }
      SortedUnique(Sort(s, le), Sort(t, le), le);
    }
  }

  /** A sequence without its element at `j`. */
  function Without<T>(s: seq<T>, j: nat): (r: seq<T>)
    requires j < |s|
    ensures |r| == |s| - 1 && multiset(s) == multiset(r) + multiset{s[j]}
    ensures forall i :: 0 <= i < |r| ==> r[i] == s[if i < j then i else i + 1]
  {
    assert s == s[..j] + [s[j]] + s[j + 1..];
    s[..j] + s[j + 1..]
  }

  /** Taking the same element away from both sides changes nothing. */
  lemma DropSame<T>(s: seq<T>, t: seq<T>, j: nat)
    requires s != [] && j < |t| && s[0] == t[j]
    ensures multiset(s) == multiset(t) <==> multiset(s[1..]) == multiset(Without(t, j))
  {
    hide Without;
    TailMultiset(s);
    var ms, mt, one := multiset(s[1..]), multiset(Without(t, j)), multiset{s[0]};
    assert multiset(s) == ms + one by { assert s == [s[0]] + s[1..]; }
    assert mt == multiset(t) - one;
  }

  lemma OthersRemain<T>(s: seq<T>, t: seq<T>, j: nat)
    requires Distinct(s) && Distinct(t) && s != [] && j < |t| && t[j] == s[0]
    requires forall i :: 0 <= i < |s| ==> s[i] in t
    ensures Distinct(Without(t, j)) && forall i :: 0 <= i < |s| - 1 ==> s[1..][i] in Without(t, j)
  {
    var r := Without(t, j);
    forall i | 0 <= i < |s| - 1 ensures s[1..][i] in r {
      assert s[1..][i] == s[i + 1] && s[i + 1] in t;
      var k :| 0 <= k < |t| && t[k] == s[i + 1];
      assert t[k] == r[if k < j then k else k - 1];
    }
  }

  /** Equally many distinct elements, one sequence's all in the other: the same elements. */
  lemma {:induction false} SameDistinct<T>(s: seq<T>, t: seq<T>)
    requires Distinct(s) && Distinct(t) && |s| == |t|
    requires forall i :: 0 <= i < |s| ==> s[i] in t
    ensures multiset(s) == multiset(t)
  {
    hide Without;
    if s != [] {
      assert s[0] in t;
      var j :| 0 <= j < |t| && t[j] == s[0];
      OthersRemain(s, t, j);
      SameDistinct(s[1..], Without(t, j));
      DropSame(s, t, j);
    }
  }

  lemma {:induction false} DistinctSize<T>(s: seq<T>)
    requires Distinct(s)
    ensures |set x | x in s| == |s|
  {
    if s != [] {
      DistinctSize(s[1..]);
      assert (set x | x in s) == (set x | x in s[1..]) + {s[0]};
    }
  }

  lemma AddOne<T>(a: set<T>, x: T)
    requires x !in a
    ensures multiset(a + {x}) == multiset(a) + multiset{x}
  {
  }

  lemma CountCons<T>(x: T, s: seq<T>, k: T)
    ensures multiset([x] + s)[k] == multiset(s)[k] + if k == x then 1 else 0
  {
  }

  lemma ConsElements<T>(x: T, s: seq<T>)
    ensures (set y | y in [x] + s) == (set y | y in s) + {x}
  {
  }

  /** Distinct elements are counted once each. */
  lemma {:induction false} DistinctMultiset<T>(s: seq<T>)
    requires Distinct(s)
    ensures multiset(s) == multiset(set x | x in s)
  {
    if s != [] {
      var x, rest := s[0], s[1..];
      assert s == [x] + rest;
      DistinctMultiset(rest);
      assert x !in rest;
      AddOne((set y | y in rest), x);
      ConsElements(x, rest);
    }
  }

  function Count<T>(s: seq<T>, p: T -> bool): (n: nat)
    ensures n <= |s|
  {
    if s == [] then 0 else (if p(s[0]) then 1 else 0) + Count(s[1..], p)
  }

  lemma {:induction false} CountInsert<T>(x: T, s: seq<T>, le: (T, T) -> bool, p: T -> bool)
    ensures Count(Insert(x, s, le), p) == Count(s, p) + if p(x) then 1 else 0
  {
    var r := Insert(x, s, le);
    if s == [] || le(x, s[0]) {
      assert r[1..] == s;
    } else {
      CountInsert(x, s[1..], le, p);
      assert r[1..] == Insert(x, s[1..], le);
    }
  }

  /** Counting does not depend on order. */
  lemma {:induction false} CountSort<T>(s: seq<T>, le: (T, T) -> bool, p: T -> bool)
    ensures Count(Sort(s, le), p) == Count(s, p)
  {
    if s != [] {
      CountSort(s[1..], le, p);
      CountInsert(s[0], Sort(s[1..], le), le, p);
    }
  }

  lemma {:induction false} CountAppend<T>(s: seq<T>, t: seq<T>, p: T -> bool)
    ensures Count(s + t, p) == Count(s, p) + Count(t, p)
  {
    if s == [] {
      assert s + t == t;
    } else {
      CountAppend(s[1..], t, p);
      assert (s + t)[1..] == s[1..] + t;
    }
  }

  /** All elements satisfy `p` exactly when the count reaches the length. */
  lemma {:induction false} CountAll<T>(s: seq<T>, p: T -> bool)
    ensures Count(s, p) == |s| <==> forall x :: x in s ==> p(x)
  {
    if s != [] {
      CountAll(s[1..], p);
      assert s == [s[0]] + s[1..];
    }
  }
}

/**
 SQL `ORDER BY` and `sort_by` as a function on sequences: a stable insertion sort, the facts that
 make it a specification (sorted, a permutation, the only sorted permutation), and how it commutes
 with `WHERE`.
 */
module Ordering {

  type Leq<!T> = (T, T) -> bool

  /** A total preorder: what an `ORDER BY` key comparison is. */
  ghost predicate TotalPreorder<T(!new)>(le: Leq<T>) {
    && (forall x, y :: le(x, y) || le(y, x))
    && (forall x, y, z :: le(x, y) && le(y, z) ==> le(x, z))
  }

  ghost predicate Sorted<T>(s: seq<T>, le: Leq<T>) {
    forall i, j :: 0 <= i < j < |s| ==> le(s[i], s[j])
  }

  ghost predicate Distinct<T>(s: seq<T>) {
    forall i, j :: 0 <= i < j < |s| ==> s[i] != s[j]
  }

  function Insert<T>(x: T, s: seq<T>, le: Leq<T>): seq<T> {
    if s == [] then [x]
    else if le(x, s[0]) then [x] + s
    else [s[0]] + Insert(x, s[1..], le)
  }

  function SortBy<T>(s: seq<T>, le: Leq<T>): seq<T> {
    if s == [] then [] else Insert(s[0], SortBy(s[1..], le), le)
  }

  /** SQL `WHERE`: the rows that satisfy `p`, in their order. */
  function Filter<T>(s: seq<T>, p: T -> bool): seq<T> {
    if s == [] then []
    else if p(s[0]) then [s[0]] + Filter(s[1..], p)
    else Filter(s[1..], p)
  }

  // ---- Sorting ----

  lemma {:induction false} InsertPerm<T>(x: T, s: seq<T>, le: Leq<T>)
    ensures multiset(Insert(x, s, le)) == multiset([x] + s)
  {
    if s != [] && !le(x, s[0]) {
      InsertPerm(x, s[1..], le);
      assert s == [s[0]] + s[1..];
    }
  }

  lemma {:induction false} SortPerm<T>(s: seq<T>, le: Leq<T>)
    ensures multiset(SortBy(s, le)) == multiset(s)
    ensures |SortBy(s, le)| == |s|
  {
    if s != [] {
      SortPerm(s[1..], le);
      InsertPerm(s[0], SortBy(s[1..], le), le);
      assert s == [s[0]] + s[1..];
    }
    assert |multiset(SortBy(s, le))| == |SortBy(s, le)|;
    assert |multiset(s)| == |s|;
  }

  lemma SortMembers<T>(s: seq<T>, le: Leq<T>)
    ensures forall x :: x in SortBy(s, le) ==> x in s
    ensures forall x :: x in s ==> x in SortBy(s, le)
  {
    SortPerm(s, le);
    forall x | x in SortBy(s, le) ensures x in s {
      assert x in multiset(SortBy(s, le));
    }
    forall x | x in s ensures x in SortBy(s, le) {
      assert x in multiset(s);
    }
  }

  lemma {:induction false} InsertSorted<T(!new)>(x: T, s: seq<T>, le: Leq<T>)
    requires TotalPreorder(le) && Sorted(s, le)
    ensures Sorted(Insert(x, s, le), le)
  {
    if s != [] && !le(x, s[0]) {
      var rest := Insert(x, s[1..], le);
      InsertSorted(x, s[1..], le);
      InsertPerm(x, s[1..], le);
      forall y | y in rest ensures le(s[0], y) {
        assert y in multiset(rest);
        assert y in [x] + s[1..];
      }
    }
  }

  lemma {:induction false} SortSorted<T(!new)>(s: seq<T>, le: Leq<T>)
    requires TotalPreorder(le)
    ensures Sorted(SortBy(s, le), le)
  {
    if s != [] {
      SortSorted(s[1..], le);
      InsertSorted(s[0], SortBy(s[1..], le), le);
    }
  }

  /** Rows already in order are left alone. */
  lemma {:induction false} SortIdempotent<T>(s: seq<T>, le: Leq<T>)
    requires Sorted(s, le)
    ensures SortBy(s, le) == s
  {
    if s != [] {
      SortIdempotent(s[1..], le);
    }
  }

  lemma {:induction false} InsertBeforeLast<T>(y: T, s: seq<T>, x: T, le: Leq<T>)
    requires le(y, x)
    ensures Insert(y, s + [x], le) == Insert(y, s, le) + [x]
  {
    if s != [] && !le(y, s[0]) {
      assert (s + [x])[1..] == s[1..] + [x];
      InsertBeforeLast(y, s[1..], x, le);
    }
  }

  /** A row that every other row sorts before goes last. */
  lemma {:induction false} SortAppendLast<T>(s: seq<T>, x: T, le: Leq<T>)
    requires forall y :: y in s ==> le(y, x)
    ensures SortBy(s + [x], le) == SortBy(s, le) + [x]
  {
    if s == [] {
      assert [x][1..] == [];
    } else {
      assert (s + [x])[1..] == s[1..] + [x];
      SortAppendLast(s[1..], x, le);
      InsertBeforeLast(s[0], SortBy(s[1..], le), x, le);
    }
  }

  /** Rows with distinct keys have one sorted arrangement. */
  lemma {:induction false} SortedUnique<T>(a: seq<T>, b: seq<T>, le: Leq<T>)
    requires Sorted(a, le) && Sorted(b, le) && multiset(a) == multiset(b)
    requires forall x, y :: x in a && y in a && le(x, y) && le(y, x) ==> x == y
    ensures a == b
  {
    assert |a| == |multiset(a)| == |multiset(b)| == |b|;
    if a != [] {
      HeadsAgree(a, b, le);
      TailMultiset(a);
      TailMultiset(b);
      TailSorted(a, le);
      TailSorted(b, le);
      SortedUnique(a[1..], b[1..], le);
    }
  }

  lemma TailSorted<T>(a: seq<T>, le: Leq<T>)
    requires a != [] && Sorted(a, le)
    ensures Sorted(a[1..], le) && forall x :: x in a[1..] ==> x in a
  {}

  lemma TailMultiset<T>(a: seq<T>)
    requires a != []
    ensures multiset(a[1..]) == multiset(a) - multiset{a[0]} && a == [a[0]] + a[1..]
  {
    assert a == [a[0]] + a[1..];
  }

  lemma HeadsAgree<T>(a: seq<T>, b: seq<T>, le: Leq<T>)
    requires a != [] && b != []
    requires Sorted(a, le) && Sorted(b, le) && multiset(a) == multiset(b)
    requires forall x, y :: x in a && y in a && le(x, y) && le(y, x) ==> x == y
    ensures a[0] == b[0]
  {
    assert a[0] in multiset(b);
    assert b[0] in multiset(a);
  }

  // ---- Filtering ----

  lemma {:induction false} FilterMembers<T>(s: seq<T>, p: T -> bool)
    ensures forall x :: x in Filter(s, p) ==> x in s && p(x)
    ensures forall x :: x in s && p(x) ==> x in Filter(s, p)
    ensures |Filter(s, p)| <= |s|
  {
    if s != [] {
      FilterMembers(s[1..], p);
    }
  }

  lemma {:induction false} FilterConcat<T>(a: seq<T>, b: seq<T>, p: T -> bool)
    ensures Filter(a + b, p) == Filter(a, p) + Filter(b, p)
  {
    if a == [] {
      assert a + b == b;
    } else {
      assert (a + b)[1..] == a[1..] + b;
      FilterConcat(a[1..], b, p);
    }
  }

  lemma {:induction false} FilterAll<T>(s: seq<T>, p: T -> bool)
    requires forall x :: x in s ==> p(x)
    ensures Filter(s, p) == s
  {
    if s != [] {
      FilterAll(s[1..], p);
    }
  }

  lemma {:induction false} FilterNone<T>(s: seq<T>, p: T -> bool)
    requires forall x :: x in s ==> !p(x)
    ensures Filter(s, p) == []
  {
    if s != [] {
      FilterNone(s[1..], p);
    }
  }

  lemma {:induction false} FilterSame<T>(s: seq<T>, p: T -> bool, q: T -> bool)
    requires forall x :: x in s ==> p(x) == q(x)
    ensures Filter(s, p) == Filter(s, q)
  {
    if s != [] {
      FilterSame(s[1..], p, q);
    }
  }

  lemma {:induction false} FilterFilter<T>(s: seq<T>, p: T -> bool, q: T -> bool, both: T -> bool)
    requires forall x :: x in s ==> (both(x) <==> p(x) && q(x))
    ensures Filter(Filter(s, p), q) == Filter(s, both)
  {
    if s != [] {
      FilterFilter(s[1..], p, q, both);
      if p(s[0]) {
        assert Filter(s, p)[1..] == Filter(s[1..], p);
      }
    }
  }

  lemma {:induction false} FilterDistinct<T>(s: seq<T>, p: T -> bool)
    requires Distinct(s)
    ensures Distinct(Filter(s, p))
  {
    if s != [] {
      FilterDistinct(s[1..], p);
      FilterMembers(s[1..], p);
    }
  }

  lemma {:induction false} FilterSorted<T>(s: seq<T>, p: T -> bool, le: Leq<T>)
    requires Sorted(s, le)
    ensures Sorted(Filter(s, p), le)
  {
    if s != [] {
      FilterSorted(s[1..], p, le);
      FilterMembers(s[1..], p);
      forall y | y in Filter(s[1..], p) ensures le(s[0], y) {
        assert y in s[1..];
      }
    }
  }

  lemma InsertFirst<T>(x: T, s: seq<T>, le: Leq<T>)
    requires forall y :: y in s ==> le(x, y)
    ensures Insert(x, s, le) == [x] + s
  {}

  lemma {:induction false} FilterInsert<T(!new)>(x: T, s: seq<T>, le: Leq<T>, p: T -> bool)
    requires TotalPreorder(le) && Sorted(s, le)
    ensures Filter(Insert(x, s, le), p) == if p(x) then Insert(x, Filter(s, p), le) else Filter(s, p)
  {
    if s == [] || le(x, s[0]) {
      assert ([x] + s)[1..] == s;
      FilterMembers(s, p);
      InsertFirst(x, s, le);
      InsertFirst(x, Filter(s, p), le);
    } else {
      FilterInsert(x, s[1..], le, p);
      assert Insert(x, s, le)[1..] == Insert(x, s[1..], le);
      if p(s[0]) {
        assert Filter(s, p)[1..] == Filter(s[1..], p);
      }
    }
  }

  /** `WHERE` before `ORDER BY` is `WHERE` after it. */
  lemma {:induction false} FilterSort<T(!new)>(s: seq<T>, le: Leq<T>, p: T -> bool)
    requires TotalPreorder(le)
    ensures Filter(SortBy(s, le), p) == SortBy(Filter(s, p), le)
  {
    if s != [] {
      FilterSort(s[1..], le, p);
      SortSorted(s[1..], le);
      FilterInsert(s[0], SortBy(s[1..], le), le, p);
      if p(s[0]) {
        assert Filter(s, p)[1..] == Filter(s[1..], p);
      }
    }
  }

  /** Keeping the rows past a point of a sorted list keeps one of its suffixes. */
  lemma {:induction false} FilterSuffix<T>(s: seq<T>, p: T -> bool) returns (k: nat)
    requires forall i, j :: 0 <= i < j < |s| && p(s[i]) ==> p(s[j])
    ensures k <= |s| && Filter(s, p) == s[k..]
    ensures forall i :: 0 <= i < |s| ==> (p(s[i]) <==> k <= i)
  {
    if s == [] {
      k := 0;
    } else if p(s[0]) {
      k := 0;
      FilterAll(s, p);
    } else {
      var k' := FilterSuffix(s[1..], p);
      k := k' + 1;
      assert s[k..] == s[1..][k'..];
      forall i | 0 <= i < |s| ensures p(s[i]) <==> k <= i {
        if i > 0 {
          assert s[i] == s[1..][i - 1];
        }
      }
    }
  }

  /** A predicate and its complement split the rows between them. */
  lemma {:induction false} FilterSplitsLength<T>(s: seq<T>, p: T -> bool, q: T -> bool)
    requires forall x :: x in s ==> q(x) == !p(x)
    ensures |Filter(s, p)| + |Filter(s, q)| == |s|
  {
    if s != [] {
      FilterSplitsLength(s[1..], p, q);
    }
  }

  // ---- Distinctness ----

  lemma {:induction false} CountedOnce<T>(s: seq<T>, x: T)
    ensures Distinct(s) ==> multiset(s)[x] <= 1
    ensures !Distinct(s) ==> exists y :: multiset(s)[y] >= 2
  {
    if s != [] {
      assert s == [s[0]] + s[1..];
      CountedOnce(s[1..], x);
      if s[0] in s[1..] {
        assert multiset(s)[s[0]] >= 2;
      } else if !Distinct(s) {
        assert !Distinct(s[1..]);
        var y :| multiset(s[1..])[y] >= 2;
        assert multiset(s)[y] >= 2;
      }
    }
  }

  lemma SortDistinct<T>(s: seq<T>, le: Leq<T>)
    requires Distinct(s)
    ensures Distinct(SortBy(s, le))
  {
    SortPerm(s, le);
    var t := SortBy(s, le);
    if !Distinct(t) {
      if t != [] {
        CountedOnce(t, t[0]);
        var y :| multiset(t)[y] >= 2;
        CountedOnce(s, y);
      }
    }
  }

  /** How many rows a `WHERE` keeps of a table without repeats. */
  lemma {:induction false} FilterCount<T(!new)>(s: seq<T>, p: T -> bool, kept: set<T>)
    requires Distinct(s) && forall x :: x in kept <==> x in s && p(x)
    ensures |Filter(s, p)| == |kept|
  {
    if s == [] {
      assert kept == {};
    } else {
      assert s == [s[0]] + s[1..];
      FilterCount(s[1..], p, kept - {s[0]});
    }
  }
}

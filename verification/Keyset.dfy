/** Keyset paging: `WHERE <after the cursor> ORDER BY <key> LIMIT n + 1`, independent of what is paged. */
module Keyset {

  import opened Ordering

  /** Rows with equal keys are the same row. */
  ghost predicate KeysDecide<T>(rows: seq<T>, le: Leq<T>) {
    && Distinct(rows)
    && forall x, y :: x in rows && y in rows && le(x, y) && le(y, x) ==> x == y
  }

  function Listing<T>(table: seq<T>, matches: T -> bool, le: Leq<T>): seq<T> {
    SortBy(Filter(table, matches), le)
  }

  function Take<T>(s: seq<T>, n: nat): seq<T> { if |s| <= n then s else s[..n] }

  lemma ListingMembers<T>(table: seq<T>, matches: T -> bool, le: Leq<T>)
    ensures forall x :: x in Listing(table, matches, le) ==> x in table && matches(x)
    ensures forall x :: x in table && matches(x) ==> x in Listing(table, matches, le)
  {
    FilterMembers(table, matches);
    SortMembers(Filter(table, matches), le);
  }

  lemma ListingDecided<T(!new)>(table: seq<T>, matches: T -> bool, le: Leq<T>)
    requires TotalPreorder(le) && KeysDecide(Filter(table, matches), le)
    ensures Sorted(Listing(table, matches, le), le) && KeysDecide(Listing(table, matches, le), le)
  {
    SortSorted(Filter(table, matches), le);
    SortMembers(Filter(table, matches), le);
    SortDistinct(Filter(table, matches), le);
  }

  /** The rows past row `k` of the listing are the ones the resume predicate of that row selects. */
  lemma ResumeIsSuffix<T(!new)>(table: seq<T>, matches: T -> bool, le: Leq<T>, resume: T -> bool, both: T -> bool, k: nat)
    requires TotalPreorder(le) && KeysDecide(Filter(table, matches), le)
    requires k < |Listing(table, matches, le)|
    requires forall x :: x in table && matches(x) ==> (resume(x) <==> !le(x, Listing(table, matches, le)[k]))
    requires forall x :: x in table ==> (both(x) <==> matches(x) && resume(x))
    ensures Listing(table, both, le) == Listing(table, matches, le)[k + 1..]
  {
    var l := Listing(table, matches, le);
    ListingDecided(table, matches, le);
    ListingMembers(table, matches, le);
    forall i | 0 <= i < |l| ensures resume(l[i]) <==> k < i {
      assert l[i] in l && l[k] in l;
      if i == k {
        assert le(l[k], l[k]);
      } else if i < k {
        assert le(l[i], l[k]);
      } else {
        assert le(l[k], l[i]);
      }
    }
    var j := FilterSuffix(l, resume);
    assert j == k + 1 by {
      assert !resume(l[k]);
      if k + 1 < |l| {
        assert resume(l[k + 1]);
      }
    }
    FilterSort(Filter(table, matches), le, resume);
    FilterFilter(table, matches, resume, both);
  }

  /** A listing does not depend on how the table happens to store its rows. */
  lemma ListingOrderFree<T(!new)>(a: seq<T>, b: seq<T>, matches: T -> bool, le: Leq<T>)
    requires TotalPreorder(le) && multiset(a) == multiset(b) && KeysDecide(Filter(a, matches), le)
    ensures Listing(a, matches, le) == Listing(b, matches, le)
  {
    FilterPerm(a, b, matches);
    ListingDecided(a, matches, le);
    SortSorted(Filter(b, matches), le);
    SortPerm(Filter(a, matches), le);
    SortPerm(Filter(b, matches), le);
    SortedUnique(Listing(a, matches, le), Listing(b, matches, le), le);
  }

  /** `b` without its `i`-th row. */
  function Without<T>(b: seq<T>, i: nat): seq<T>
    requires i < |b|
  {
    b[..i] + b[i + 1..]
  }

  lemma WithoutPerm<T>(b: seq<T>, i: nat)
    requires i < |b|
    ensures multiset(Without(b, i)) == multiset(b) - multiset{b[i]}
  {
    assert b == b[..i] + ([b[i]] + b[i + 1..]);
  }

  lemma FilterWithout<T>(b: seq<T>, i: nat, p: T -> bool)
    requires i < |b|
    ensures multiset(Filter(b, p)) == multiset(Filter(Without(b, i), p)) + if p(b[i]) then multiset{b[i]} else multiset{}
  {
    var front, back := b[..i], b[i + 1..];
    assert b == front + ([b[i]] + back);
    FilterConcat(front, [b[i]] + back, p);
    FilterConcat(front, back, p);
    assert ([b[i]] + back)[1..] == back;
    MultisetMiddle(Filter(front, p), b[i], Filter(back, p));
  }

  lemma MultisetMiddle<T>(a: seq<T>, x: T, b: seq<T>)
    ensures multiset(a + ([x] + b)) == multiset(a + b) + multiset{x}
  {}

  lemma {:induction false} FilterPerm<T>(a: seq<T>, b: seq<T>, p: T -> bool)
    requires multiset(a) == multiset(b)
    ensures multiset(Filter(a, p)) == multiset(Filter(b, p))
    decreases |a|
  {
    if a == [] {
      assert |multiset(b)| == 0;
    } else {
      assert a[0] in multiset(b);
      var i :| 0 <= i < |b| && b[i] == a[0];
      WithoutPerm(a, 0);
      WithoutPerm(b, i);
      FilterWithout(a, 0, p);
      FilterWithout(b, i, p);
      FilterPerm(Without(a, 0), Without(b, i), p);
    }
  }
}

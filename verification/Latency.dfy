/** Latency percentiles and the document ranking of a hit list (escurel-eval/src/latency.rs). */
module Latency {

  import opened Ordering
  import Metrics

  // ---- dedup_doc_ids ----

  /** Where an id first occurs. */
  function First(ids: seq<string>, x: string): nat {
    if ids == [] || ids[0] == x then 0 else 1 + First(ids[1..], x)
  }

  lemma {:induction false} FirstExtends(a: seq<string>, b: seq<string>, x: string)
    ensures x in a ==> First(a, x) < |a| && First(a + b, x) == First(a, x)
    ensures x !in a ==> First(a, x) == |a| && First(a + b, x) == |a| + First(b, x)
  {
    if a == [] {
      assert a + b == b;
    } else {
      assert (a + b)[1..] == a[1..] + b;
      FirstExtends(a[1..], b, x);
    }
  }

  /** The distinct ids of `hits`, in the order they first occur. */
  ghost predicate FirstOccurrences(hits: seq<string>, out: seq<string>) {
    && Distinct(out)
    && (forall x :: x in out <==> x in hits)
    && forall i, j :: 0 <= i < j < |out| ==> First(hits, out[i]) < First(hits, out[j])
  }

  lemma OneMore(hits: seq<string>, out: seq<string>, x: string)
    requires FirstOccurrences(hits, out)
    ensures FirstOccurrences(hits + [x], if x in hits then out else out + [x])
  {
    forall y ensures y in hits ==> First(hits + [x], y) == First(hits, y) < |hits| {
      FirstExtends(hits, [x], y);
    }
    FirstExtends(hits, [x], x);
    assert forall i :: 0 <= i < |out| ==> out[i] in hits;
  }

  /** There is one such list. */
  lemma {:induction false} FirstOccurrencesUnique(hits: seq<string>, a: seq<string>, b: seq<string>)
    requires FirstOccurrences(hits, a) && FirstOccurrences(hits, b)
    ensures a == b
  {
    Metrics.DistinctWithin(a, b);
    SameItems(hits, a, b, |a|);
    assert a[..|a|] == a && b[..|a|] == b;
  }

  lemma {:induction false} SameItems(hits: seq<string>, a: seq<string>, b: seq<string>, n: nat)
    requires FirstOccurrences(hits, a) && FirstOccurrences(hits, b) && |a| == |b| && n <= |a|
    ensures a[..n] == b[..n]
  {
    if n > 0 {
      SameItems(hits, a, b, n - 1);
      NextItem(hits, a, b, n - 1);
      NextItem(hits, b, a, n - 1);
      FirstInjective(hits, a[n - 1], b[n - 1]);
      assert a[..n] == a[..n - 1] + [a[n - 1]] && b[..n] == b[..n - 1] + [b[n - 1]];
    }
  }

  lemma NextItem(hits: seq<string>, a: seq<string>, b: seq<string>, n: nat)
    requires FirstOccurrences(hits, a) && FirstOccurrences(hits, b) && n < |a| == |b| && a[..n] == b[..n]
    ensures a[n] in hits && First(hits, b[n]) <= First(hits, a[n])
  {
    var j := WhereIn(hits, a, b, n);
    NotBefore(a, b, n, j);
    if n < j {
      assert First(hits, b[n]) < First(hits, b[j]);
    }
  }

  lemma WhereIn(hits: seq<string>, a: seq<string>, b: seq<string>, n: nat) returns (j: nat)
    requires FirstOccurrences(hits, a) && FirstOccurrences(hits, b) && n < |a|
    ensures j < |b| && b[j] == a[n] && a[n] in hits
  {
    assert a[n] in a;
    assert a[n] in hits && a[n] in b;
    j :| 0 <= j < |b| && b[j] == a[n];
  }

  lemma NotBefore(a: seq<string>, b: seq<string>, n: nat, j: nat)
    requires Distinct(a) && n < |a| && j < |b| && n <= |b| && a[..n] == b[..n] && b[j] == a[n]
    ensures n <= j
  {
    assert forall i :: 0 <= i < n ==> a[..n][i] == a[i] && b[..n][i] == b[i];
  }

  lemma {:induction false} FirstInjective(hits: seq<string>, x: string, y: string)
    requires x in hits && y in hits && First(hits, x) == First(hits, y)
    ensures x == y
  {
    if hits[0] != x && hits[0] != y {
      FirstInjective(hits[1..], x, y);
    }
  }

  ghost predicate SameMembers(seen: set<string>, ids: seq<string>) { forall x :: x in seen <==> x in ids }

  /** Block hits to documents: each once, at its best rank. */
  method DedupDocIds(hits: seq<string>) returns (out: seq<string>)
    ensures FirstOccurrences(hits, out)
  {
    var seen: set<string> := {};
    out := [];
    for n := 0 to |hits|
      invariant FirstOccurrences(hits[..n], out)
      invariant SameMembers(seen, hits[..n])
    {
      assert hits[..n + 1] == hits[..n] + [hits[n]];
      OneMore(hits[..n], out, hits[n]);
      if hits[n] !in seen {
        seen := seen + {hits[n]};
        out := out + [hits[n]];
      }
    }
    assert hits[..|hits|] == hits;
  }

  // ---- percentiles ----

  datatype LatencyStats = LatencyStats(p50: real, p95: real, p99: real, mean: real, n: nat)

  function Ascending(): Leq<real> { (a: real, b: real) => a <= b }

  function AtMost(v: real): real -> bool { x => x <= v }

  function Below(v: real): real -> bool { x => x < v }

  function Same(): real -> real { x => x }

  function Ceiling(x: real): int { -((-x).Floor) }

  function Clamp(x: int, lo: int, hi: int): int { if x < lo then lo else if x > hi then hi else x }

  /** `v` is the nearest-rank percentile: at least `share` samples are at most `v`, fewer than that are below it. */
  ghost predicate NearestRank(samples: seq<real>, share: real, v: real) {
    && v in samples
    && |Filter(samples, AtMost(v))| as real >= share
    && (|Filter(samples, Below(v))| as real) < share
  }

  lemma SortedCounts(s: seq<real>, r: nat)
    requires Sorted(s, Ascending()) && 1 <= r <= |s|
    ensures |Filter(s, AtMost(s[r - 1]))| >= r
    ensures |Filter(s, Below(s[r - 1]))| <= r - 1
  {
    var v := s[r - 1];
    var low, high, lower, upper := s[..r], s[r..], s[..r - 1], s[r - 1..];
    assert s == low + high && s == lower + upper;
    FilterConcat(low, high, AtMost(v));
    FilterConcat(lower, upper, Below(v));
    forall x | x in low ensures AtMost(v)(x) {
      var i :| 0 <= i < r && s[i] == x;
      assert i < r - 1 ==> Ascending()(s[i], s[r - 1]);
    }
    FilterAll(low, AtMost(v));
    forall x | x in upper ensures !Below(v)(x) {
      var i :| r - 1 <= i < |s| && s[i] == x;
      assert i > r - 1 ==> Ascending()(s[r - 1], s[i]);
    }
    FilterNone(upper, Below(v));
    FilterMembers(lower, Below(v));
  }

  lemma AscendingTotal()
    ensures TotalPreorder(Ascending())
  {}

  /** Counting is the same before and after sorting. */
  lemma SortCounts(samples: seq<real>, p: real -> bool)
    ensures |Filter(SortBy(samples, Ascending()), p)| == |Filter(samples, p)|
  {
    AscendingTotal();
    FilterSort(samples, Ascending(), p);
    SortPerm(Filter(samples, p), Ascending());
  }

  lemma RankBounds(share: real, n: nat)
    requires 0.0 < share <= n as real
    ensures 1 <= Ceiling(share) <= n
    ensures share <= Ceiling(share) as real < share + 1.0
  {}

  lemma RankToShare(share: real, r: int, atMost: int, below: int)
    requires share <= r as real < share + 1.0 && atMost >= r && below <= r - 1
    ensures atMost as real >= share && (below as real) < share
  {}

  lemma RankIsNearest(sorted: seq<real>, share: real, r: nat)
    requires Sorted(sorted, Ascending()) && 1 <= r <= |sorted| && share <= r as real < share + 1.0
    ensures NearestRank(sorted, share, sorted[r - 1])
  {
    SortedCounts(sorted, r);
    var v := sorted[r - 1];
    RankToShare(share, r, |Filter(sorted, AtMost(v))|, |Filter(sorted, Below(v))|);
  }

  lemma NearestRankUnsorted(samples: seq<real>, share: real, v: real)
    requires NearestRank(SortBy(samples, Ascending()), share, v)
    ensures NearestRank(samples, share, v)
  {
    SortMembers(samples, Ascending());
    SortCounts(samples, AtMost(v));
    SortCounts(samples, Below(v));
  }

  /** Nearest ranks grow with the share. */
  lemma NearestRankMonotone(samples: seq<real>, p: real, v: real, q: real, w: real)
    requires NearestRank(samples, p, v) && NearestRank(samples, q, w) && p <= q
    ensures v <= w
  {
    if w < v {
      AtMostBelow(samples, w, v);
    }
  }

  lemma {:induction false} AtMostBelow(s: seq<real>, w: real, v: real)
    requires w < v
    ensures |Filter(s, AtMost(w))| <= |Filter(s, Below(v))|
  {
    if s != [] {
      AtMostBelow(s[1..], w, v);
    }
  }

  lemma {:induction false} InsertSum(x: real, s: seq<real>)
    ensures Metrics.SumOf(Insert(x, s, Ascending()), Same()) == x + Metrics.SumOf(s, Same())
  {
    if s == [] {
      assert [x][1..] == [];
    } else if x <= s[0] {
      assert ([x] + s)[1..] == s;
    } else {
      InsertSum(x, s[1..]);
      var rest := Insert(x, s[1..], Ascending());
      assert ([s[0]] + rest)[1..] == rest;
    }
  }

  lemma {:induction false} SortSum(s: seq<real>)
    ensures Metrics.SumOf(SortBy(s, Ascending()), Same()) == Metrics.SumOf(s, Same())
  {
    if s != [] {
      SortSum(s[1..]);
      InsertSum(s[0], SortBy(s[1..], Ascending()));
    }
  }

  function Mean(s: seq<real>): real
    requires s != []
  {
    Metrics.SumOf(s, Same()) / |s| as real
  }

  ghost predicate Summarises(samples: seq<real>, stats: LatencyStats) {
    && stats.n == |samples|
    && NearestRank(samples, 0.50 * stats.n as real, stats.p50)
    && NearestRank(samples, 0.95 * stats.n as real, stats.p95)
    && NearestRank(samples, 0.99 * stats.n as real, stats.p99)
    && (samples != [] ==> stats.mean == Mean(samples))
  }

  lemma SummaryOrdered(samples: seq<real>, stats: LatencyStats)
    requires Summarises(samples, stats)
    ensures stats.p50 <= stats.p95 <= stats.p99
  {
    var n := stats.n as real;
    NearestRankMonotone(samples, 0.50 * n, stats.p50, 0.95 * n, stats.p95);
    NearestRankMonotone(samples, 0.95 * n, stats.p95, 0.99 * n, stats.p99);
  }

  lemma MeanSorted(samples: seq<real>)
    requires samples != []
    ensures |SortBy(samples, Ascending())| == |samples| && Mean(SortBy(samples, Ascending())) == Mean(samples)
  {
    SortPerm(samples, Ascending());
    SortSum(samples);
  }

  /** The sample at rank `ceil(share)`, clamped into range; `share` is `p * n`. */
  method AtShare(samples: array<real>, share: real) returns (v: real)
    requires Sorted(samples[..], Ascending()) && 0.0 < share <= samples.Length as real
    ensures NearestRank(samples[..], share, v)
  {
    var rank := Ceiling(share);
    RankBounds(share, samples.Length);
    RankIsNearest(samples[..], share, rank);
    v := samples[Clamp(rank, 1, samples.Length) - 1];
  }

  method Percentiles(samples: array<real>) returns (stats: LatencyStats)
    modifies samples
    ensures samples[..] == SortBy(old(samples[..]), Ascending())
    ensures samples.Length == 0 ==> stats == LatencyStats(0.0, 0.0, 0.0, 0.0, 0)
    ensures samples.Length > 0 ==> Summarises(old(samples[..]), stats)
    ensures stats.p50 <= stats.p95 <= stats.p99
  {
    if samples.Length == 0 {
      return LatencyStats(0.0, 0.0, 0.0, 0.0, 0);
    }
    ghost var given := samples[..];
    var sorted := SortBy(samples[..], Ascending());
    AscendingTotal();
    SortSorted(given, Ascending());
    MeanSorted(given);
    forall i | 0 <= i < samples.Length {
      samples[i] := sorted[i];
    }
    assert samples[..] == sorted;
    var n := samples.Length;
    var p50 := AtShare(samples, 0.50 * n as real);
    var p95 := AtShare(samples, 0.95 * n as real);
    var p99 := AtShare(samples, 0.99 * n as real);
    NearestRankUnsorted(given, 0.50 * n as real, p50);
    NearestRankUnsorted(given, 0.95 * n as real, p95);
    NearestRankUnsorted(given, 0.99 * n as real, p99);
    stats := LatencyStats(p50, p95, p99, Mean(samples[..]), n);
    SummaryOrdered(given, stats);
  }
}

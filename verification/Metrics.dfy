/** Ranking metrics over one query (escurel-eval/src/metrics.rs). */
module Metrics {

  import opened Ordering

  /** Document id to graded gain; 0 is irrelevant. */
  type RelMap = map<string, nat>

  /** `HashMap::values` visits the entries in some order: `order` is that order's keys. */
  ghost predicate Enumerates(order: seq<string>, rel: RelMap) {
    Distinct(order) && forall x :: x in order <==> x in rel
  }

  predicate Relevant(rel: RelMap, id: string) { id in rel && rel[id] > 0 }

  function IsRelevant(rel: RelMap): string -> bool { id => Relevant(rel, id) }

  function Gain(rel: RelMap, id: string): real { if id in rel then rel[id] as real else 0.0 }

  function Gains(rel: RelMap, ids: seq<string>): seq<real> {
    if ids == [] then [] else [Gain(rel, ids[0])] + Gains(rel, ids[1..])
  }

  function Min(a: nat, b: nat): nat { if a < b then a else b }

  /** The gain at a rank, 0 past the end. */
  function At(gains: seq<real>, i: nat): real { if i < |gains| then gains[i] else 0.0 }

  /** A positive discount that never shrinks with the rank, as `log2(rank + 1)`. */
  ghost predicate Discount(disc: nat -> real) {
    (forall i :: disc(i) > 0.0) && forall i, j :: i <= j ==> disc(i) <= disc(j)
  }

  ghost predicate StrictDiscount(disc: nat -> real) {
    (forall i :: disc(i) > 0.0) && forall i, j :: i < j ==> disc(i) < disc(j)
  }

  function Weighted(gains: seq<real>, n: nat, disc: nat -> real): real
    requires forall i :: disc(i) > 0.0
  {
    if n == 0 then 0.0 else Weighted(gains, n - 1, disc) + At(gains, n - 1) / disc(n - 1)
  }

  /** `dcg_at_k`: the first `k` gains, as far as there are any. */
  function Dcg(gains: seq<real>, k: nat, disc: nat -> real): real
    requires forall i :: disc(i) > 0.0
  {
    Weighted(gains, Min(k, |gains|), disc)
  }

  /** Each of the first `k` ranks adds its gain over its discount, and no other. */
  lemma DcgAdds(rel: RelMap, ids: seq<string>, k: nat, disc: nat -> real)
    requires forall i :: disc(i) > 0.0
    ensures Dcg(Gains(rel, ids), 0, disc) == 0.0
    ensures Dcg(Gains(rel, ids), k + 1, disc) - Dcg(Gains(rel, ids), k, disc) ==
            if k < |ids| && ids[k] in rel then rel[ids[k]] as real / disc(k) else 0.0
  {
    GainsAt(rel, ids);
  }

  function Descending(): Leq<real> { (a: real, b: real) => a >= b }

  function Ideal(rel: RelMap, order: seq<string>): seq<real> { SortBy(Gains(rel, order), Descending()) }

  function Ndcg(ranked: seq<string>, rel: RelMap, order: seq<string>, k: nat, disc: nat -> real): real
    requires forall i :: disc(i) > 0.0
  {
    var idcg := Dcg(Ideal(rel, order), k, disc);
    if idcg == 0.0 then 0.0 else Dcg(Gains(rel, ranked), k, disc) / idcg
  }

  lemma Quotient(x: real, y: real)
    requires y != 0.0
    ensures x / y * y == x
  {}

  /** The score is the ranking's DCG in units of the ideal one's, and 0 where that is 0. */
  lemma NdcgIs(ranked: seq<string>, rel: RelMap, order: seq<string>, k: nat, disc: nat -> real)
    requires forall i :: disc(i) > 0.0
    ensures
      var ideal := Dcg(Ideal(rel, order), k, disc);
      if ideal == 0.0 then Ndcg(ranked, rel, order, k, disc) == 0.0
      else Ndcg(ranked, rel, order, k, disc) * ideal == Dcg(Gains(rel, ranked), k, disc)
  {
    if Dcg(Ideal(rel, order), k, disc) != 0.0 {
      Quotient(Dcg(Gains(rel, ranked), k, disc), Dcg(Ideal(rel, order), k, disc));
    }
  }

  /** The ideal order is the map's gains, greatest first. */
  lemma IdealIs(rel: RelMap, order: seq<string>)
    ensures multiset(Ideal(rel, order)) == multiset(Gains(rel, order))
    ensures forall i, j :: 0 <= i < j < |Ideal(rel, order)| ==> Ideal(rel, order)[i] >= Ideal(rel, order)[j]
  {
    assert TotalPreorder(Descending());
    SortSorted(Gains(rel, order), Descending());
    SortPerm(Gains(rel, order), Descending());
  }

  // ---- Sums ----

  function Prefix(gains: seq<real>, n: nat): real {
    if n == 0 then 0.0 else Prefix(gains, n - 1) + At(gains, n - 1)
  }

  function SumOf<T>(s: seq<T>, f: T -> real): real {
    if s == [] then 0.0 else f(s[0]) + SumOf(s[1..], f)
  }

  lemma {:induction false} SumConcat<T>(a: seq<T>, b: seq<T>, f: T -> real)
    ensures SumOf(a + b, f) == SumOf(a, f) + SumOf(b, f)
  {
    if a == [] {
      assert a + b == b;
    } else {
      assert (a + b)[1..] == a[1..] + b;
      SumConcat(a[1..], b, f);
    }
  }

  lemma SumTake<T>(s: seq<T>, n: nat, f: T -> real)
    requires n < |s|
    ensures SumOf(s[..n + 1], f) == SumOf(s[..n], f) + f(s[n])
  {
    assert s[..n + 1] == s[..n] + [s[n]];
    SumConcat(s[..n], [s[n]], f);
    assert [s[n]][1..] == [];
  }

  lemma {:induction false} SumNonNegative<T>(s: seq<T>, f: T -> real)
    requires forall x :: x in s ==> f(x) >= 0.0
    ensures SumOf(s, f) >= 0.0
  {
    if s != [] {
      SumNonNegative(s[1..], f);
    }
  }

  lemma {:induction false} SumZero<T>(s: seq<T>, f: T -> real)
    requires forall x :: x in s ==> f(x) == 0.0
    ensures SumOf(s, f) == 0.0
  {
    if s != [] {
      SumZero(s[1..], f);
    }
  }

  /** Distinct items add up to no more than a list that holds every one of them that counts. */
  lemma {:induction false} SubsetSum<T>(a: seq<T>, b: seq<T>, f: T -> real)
    requires Distinct(a)
    requires forall x :: x in a || x in b ==> f(x) >= 0.0
    requires forall x :: x in a && f(x) > 0.0 ==> x in b
    ensures SumOf(a, f) <= SumOf(b, f)
  {
    if a == [] {
      SumNonNegative(b, f);
    } else if f(a[0]) == 0.0 {
      SubsetSum(a[1..], b, f);
    } else {
      var i :| 0 <= i < |b| && b[i] == a[0];
      var rest := b[..i] + b[i + 1..];
      assert b == b[..i] + ([b[i]] + b[i + 1..]);
      SumConcat(b[..i], [b[i]] + b[i + 1..], f);
      SumConcat(b[..i], b[i + 1..], f);
      assert ([b[i]] + b[i + 1..])[1..] == b[i + 1..];
      forall x | x in a[1..] && f(x) > 0.0 ensures x in rest {
        assert x != a[0] && x in b;
      }
      SubsetSum(a[1..], rest, f);
    }
  }

  // ---- Prefix sums of the ideal order dominate ----

  function Times(n: nat, t: real): real { if n == 0 then 0.0 else Times(n - 1, t) + t }

  /** What a document's gain exceeds `t` by. */
  function Excess(rel: RelMap, t: real): string -> real {
    id => if Gain(rel, id) > t then Gain(rel, id) - t else 0.0
  }

  lemma {:induction false} GainsAt(rel: RelMap, ids: seq<string>)
    ensures |Gains(rel, ids)| == |ids|
    ensures forall i :: 0 <= i < |ids| ==> Gains(rel, ids)[i] == Gain(rel, ids[i])
  {
    if ids != [] {
      GainsAt(rel, ids[1..]);
    }
  }

  lemma {:induction false} PrefixAtMost(rel: RelMap, ids: seq<string>, n: nat, t: real)
    requires t >= 0.0
    ensures Prefix(Gains(rel, ids), n) <= Times(n, t) + SumOf(ids[..Min(n, |ids|)], Excess(rel, t))
  {
    GainsAt(rel, ids);
    if n > 0 {
      PrefixAtMost(rel, ids, n - 1, t);
      if n <= |ids| {
        SumTake(ids, n - 1, Excess(rel, t));
      }
    }
  }

  lemma {:induction false} PrefixExactly(rel: RelMap, ids: seq<string>, n: nat, t: real)
    requires forall i :: 0 <= i < Min(n, |ids|) ==> Gain(rel, ids[i]) >= t
    requires n <= |ids| || t == 0.0
    ensures Prefix(Gains(rel, ids), n) == Times(n, t) + SumOf(ids[..Min(n, |ids|)], Excess(rel, t))
  {
    GainsAt(rel, ids);
    if n > 0 {
      PrefixExactly(rel, ids, n - 1, t);
      if n <= |ids| {
        SumTake(ids, n - 1, Excess(rel, t));
      }
    }
  }

  /** A distinct list of documents in descending gain that leaves no relevant one out. */
  ghost predicate IdealOrder(rel: RelMap, ids: seq<string>) {
    && Distinct(ids)
    && Sorted(Gains(rel, ids), Descending())
    && forall x :: Relevant(rel, x) ==> x in ids
  }

  lemma DescendingAt(rel: RelMap, ids: seq<string>, i: nat, j: nat)
    requires Sorted(Gains(rel, ids), Descending()) && i <= j < |ids|
    ensures Gain(rel, ids[i]) >= Gain(rel, ids[j])
  {
    GainsAt(rel, ids);
    if i < j {
      assert Descending()(Gains(rel, ids)[i], Gains(rel, ids)[j]);
    }
  }

  /** Past rank `n` nothing exceeds the gain at rank `n`. */
  lemma ExcessIsOnTop(rel: RelMap, ids: seq<string>, m: nat, t: real)
    requires m <= |ids| && forall i :: m <= i < |ids| ==> Gain(rel, ids[i]) <= t
    ensures SumOf(ids[..m], Excess(rel, t)) == SumOf(ids, Excess(rel, t))
  {
    SumZero(ids[m..], Excess(rel, t));
    SumConcat(ids[..m], ids[m..], Excess(rel, t));
    assert ids == ids[..m] + ids[m..];
  }

  /** No distinct ranking collects more in its first `n` ranks than an ideal one. */
  lemma Dominates(rel: RelMap, ids: seq<string>, ideal: seq<string>, n: nat)
    requires Distinct(ids) && IdealOrder(rel, ideal)
    ensures Prefix(Gains(rel, ids), n) <= Prefix(Gains(rel, ideal), n)
  {
    if n > 0 {
      var t := if n <= |ideal| then Gain(rel, ideal[n - 1]) else 0.0;
      var m := Min(n, |ideal|);
      forall i | 0 <= i < m ensures Gain(rel, ideal[i]) >= t {
        if n <= |ideal| { DescendingAt(rel, ideal, i, n - 1); }
      }
      forall i | m <= i < |ideal| ensures Gain(rel, ideal[i]) <= t {
        DescendingAt(rel, ideal, n - 1, i);
      }
      PrefixAtMost(rel, ids, n, t);
      PrefixExactly(rel, ideal, n, t);
      ExcessIsOnTop(rel, ideal, m, t);
      TopWithin(rel, ids[..Min(n, |ids|)], ideal, t);
    }
  }

  lemma TopWithin(rel: RelMap, top: seq<string>, ideal: seq<string>, t: real)
    requires Distinct(top) && IdealOrder(rel, ideal) && t >= 0.0
    ensures SumOf(top, Excess(rel, t)) <= SumOf(ideal, Excess(rel, t))
  {
    forall x | x in top && Excess(rel, t)(x) > 0.0 ensures x in ideal {
      assert Relevant(rel, x);
    }
    SubsetSum(top, ideal, Excess(rel, t));
  }

  // ---- Discounting (summation by parts) ----

  lemma Scale(x: real, c: real, d: real)
    requires x >= 0.0 && 0.0 < c <= d
    ensures x / c >= x / d >= 0.0
  {
    assert (x / c) * d >= (x / c) * c == x;
  }

  lemma SubtractQuotients(x: real, y: real, d: real)
    requires d > 0.0
    ensures (x - y) / d == x / d - y / d
  {}

  /** How far the weighted sums are apart, at least. */
  lemma {:induction false} ByParts(a: seq<real>, b: seq<real>, n: nat, disc: nat -> real)
    requires Discount(disc) && n > 0
    requires forall j :: 0 <= j <= n ==> Prefix(a, j) <= Prefix(b, j)
    ensures Weighted(b, n, disc) - Weighted(a, n, disc) >= (Prefix(b, n) - Prefix(a, n)) / disc(n - 1) >= 0.0
  {
    var gap, d := Prefix(b, n) - Prefix(a, n), disc(n - 1);
    SubtractQuotients(At(b, n - 1), At(a, n - 1), d);
    Scale(gap, d, d);
    if n > 1 {
      var before := Prefix(b, n - 1) - Prefix(a, n - 1);
      ByParts(a, b, n - 1, disc);
      Scale(before, disc(n - 2), d);
      SubtractQuotients(gap, before, d);
    }
  }

  /** Under a strict discount, equal weighted sums leave no gap at any rank. */
  lemma {:induction false} NoGap(a: seq<real>, b: seq<real>, n: nat, disc: nat -> real)
    requires StrictDiscount(disc) && Weighted(a, n, disc) == Weighted(b, n, disc)
    requires forall j :: 0 <= j <= n ==> Prefix(a, j) <= Prefix(b, j)
    ensures forall i :: 0 <= i < n ==> At(a, i) == At(b, i)
  {
    if n > 0 {
      Strict(disc);
      var gap, d := Prefix(b, n) - Prefix(a, n), disc(n - 1);
      ByParts(a, b, n, disc);
      ZeroQuotient(gap, d);
      if n > 1 {
        var before := Prefix(b, n - 1) - Prefix(a, n - 1);
        ByParts(a, b, n - 1, disc);
        SubtractQuotients(At(b, n - 1), At(a, n - 1), d);
        SubtractQuotients(0.0, before, d);
        StrictQuotient(before, disc(n - 2), d);
      }
      NoGap(a, b, n - 1, disc);
    }
  }

  lemma Strict(disc: nat -> real)
    requires StrictDiscount(disc)
    ensures Discount(disc)
  {}

  lemma ZeroQuotient(x: real, d: real)
    requires d > 0.0 && x >= 0.0 && 0.0 >= x / d
    ensures x == 0.0
  {
    assert x == (x / d) * d;
  }

  lemma StrictQuotient(x: real, c: real, d: real)
    requires 0.0 < c < d && x >= 0.0 && x / d >= x / c
    ensures x == 0.0
  {
    var q := x / c;
    assert x == q * c && x == (x / d) * d;
    assert (x / d) * d >= q * d;
    assert q * (d - c) <= 0.0;
    assert q >= 0.0;
  }

  // ---- The ideal order of the code ----

  function ByGain(rel: RelMap): Leq<string> { (x: string, y: string) => Gain(rel, x) >= Gain(rel, y) }

  lemma {:induction false} GainsInsert(rel: RelMap, x: string, s: seq<string>)
    ensures Gains(rel, Insert(x, s, ByGain(rel))) == Insert(Gain(rel, x), Gains(rel, s), Descending())
  {
    if s != [] {
      if ByGain(rel)(x, s[0]) {
        assert ([x] + s)[1..] == s;
      } else {
        GainsInsert(rel, x, s[1..]);
        var rest := Insert(x, s[1..], ByGain(rel));
        assert ([s[0]] + rest)[1..] == rest;
        assert Gains(rel, s)[1..] == Gains(rel, s[1..]);
      }
    }
  }

  /** Sorting the gains is taking the gains of the sorted documents. */
  lemma {:induction false} GainsSort(rel: RelMap, s: seq<string>)
    ensures Ideal(rel, s) == Gains(rel, SortBy(s, ByGain(rel)))
  {
    if s != [] {
      GainsSort(rel, s[1..]);
      GainsInsert(rel, s[0], SortBy(s[1..], ByGain(rel)));
      assert Gains(rel, s)[1..] == Gains(rel, s[1..]);
    }
  }

  lemma SortedIsIdeal(rel: RelMap, order: seq<string>)
    requires Enumerates(order, rel)
    ensures IdealOrder(rel, SortBy(order, ByGain(rel)))
    ensures Ideal(rel, order) == Gains(rel, SortBy(order, ByGain(rel)))
  {
    GainsSort(rel, order);
    SortSorted(Gains(rel, order), Descending());
    SortDistinct(order, ByGain(rel));
    SortMembers(order, ByGain(rel));
  }

  lemma {:induction false} PastEnd(gains: seq<real>, n: nat, disc: nat -> real)
    requires Discount(disc)
    ensures Weighted(gains, n, disc) == Weighted(gains, Min(n, |gains|), disc)
  {
    if n > |gains| {
      PastEnd(gains, n - 1, disc);
    }
  }

  lemma {:induction false} WeightedNonNegative(gains: seq<real>, n: nat, disc: nat -> real)
    requires Discount(disc) && forall i :: 0 <= i < |gains| ==> gains[i] >= 0.0
    ensures Weighted(gains, n, disc) >= 0.0
  {
    if n > 0 {
      WeightedNonNegative(gains, n - 1, disc);
      Scale(At(gains, n - 1), disc(n - 1), disc(n - 1));
    }
  }

  lemma DcgNonNegative(rel: RelMap, ids: seq<string>, k: nat, disc: nat -> real)
    requires Discount(disc)
    ensures Dcg(Gains(rel, ids), k, disc) >= 0.0
  {
    GainsAt(rel, ids);
    WeightedNonNegative(Gains(rel, ids), Min(k, |ids|), disc);
  }

  /** No distinct ranking beats the ideal one. */
  lemma DcgAtMostIdeal(ranked: seq<string>, rel: RelMap, ideal: seq<string>, k: nat, disc: nat -> real)
    requires Distinct(ranked) && IdealOrder(rel, ideal) && Discount(disc)
    ensures Dcg(Gains(rel, ranked), k, disc) <= Dcg(Gains(rel, ideal), k, disc)
  {
    var a, b := Gains(rel, ranked), Gains(rel, ideal);
    forall j | 0 <= j <= k ensures Prefix(a, j) <= Prefix(b, j) {
      Dominates(rel, ranked, ideal, j);
    }
    PastEnd(a, k, disc);
    PastEnd(b, k, disc);
    if k > 0 {
      ByParts(a, b, k, disc);
    }
  }

  /** nDCG lies between 0 and 1 for every ranking without repeats. */
  lemma NdcgBounds(ranked: seq<string>, rel: RelMap, order: seq<string>, k: nat, disc: nat -> real)
    requires Distinct(ranked) && Enumerates(order, rel) && Discount(disc)
    ensures 0.0 <= Ndcg(ranked, rel, order, k, disc) <= 1.0
  {
    var ideal := SortBy(order, ByGain(rel));
    SortedIsIdeal(rel, order);
    DcgAtMostIdeal(ranked, rel, ideal, k, disc);
    DcgNonNegative(rel, ranked, k, disc);
    DcgNonNegative(rel, ideal, k, disc);
    Ratio(Dcg(Gains(rel, ranked), k, disc), Dcg(Gains(rel, ideal), k, disc));
  }

  lemma Ratio(x: real, y: real)
    requires 0.0 <= x <= y
    ensures y != 0.0 ==> 0.0 <= x / y <= 1.0
    ensures y != 0.0 ==> (x / y == 1.0 <==> x == y)
  {
    if y != 0.0 {
      assert (x / y) * y == x;
    }
  }

  /** It is 1 exactly when the first `k` gains are the ideal ones (and some gain counts). */
  lemma NdcgIsOne(ranked: seq<string>, rel: RelMap, order: seq<string>, k: nat, disc: nat -> real)
    requires Distinct(ranked) && Enumerates(order, rel) && StrictDiscount(disc)
    ensures Ndcg(ranked, rel, order, k, disc) == 1.0 <==>
              && Dcg(Ideal(rel, order), k, disc) != 0.0
              && forall i :: 0 <= i < k ==> At(Gains(rel, ranked), i) == At(Ideal(rel, order), i)
  {
    Strict(disc);
    var ideal := SortBy(order, ByGain(rel));
    SortedIsIdeal(rel, order);
    var a, b := Gains(rel, ranked), Gains(rel, ideal);
    DcgAtMostIdeal(ranked, rel, ideal, k, disc);
    DcgNonNegative(rel, ranked, k, disc);
    Ratio(Dcg(a, k, disc), Dcg(b, k, disc));
    PastEnd(a, k, disc);
    PastEnd(b, k, disc);
    if Weighted(a, k, disc) == Weighted(b, k, disc) {
      forall j | 0 <= j <= k ensures Prefix(a, j) <= Prefix(b, j) {
        Dominates(rel, ranked, ideal, j);
      }
      NoGap(a, b, k, disc);
    }
    if forall i :: 0 <= i < k ==> At(a, i) == At(b, i) {
      WeightedSame(a, b, k, disc);
    }
  }

  lemma {:induction false} WeightedSame(a: seq<real>, b: seq<real>, n: nat, disc: nat -> real)
    requires Discount(disc) && forall i :: 0 <= i < n ==> At(a, i) == At(b, i)
    ensures Weighted(a, n, disc) == Weighted(b, n, disc)
  {
    if n > 0 {
      WeightedSame(a, b, n - 1, disc);
    }
  }

  /** Any ideal ranking has the highest DCG, whatever order the map is visited in. */
  lemma IdealRanking(ranked: seq<string>, rel: RelMap, order: seq<string>, k: nat, disc: nat -> real)
    requires IdealOrder(rel, ranked) && Enumerates(order, rel) && Discount(disc)
    ensures Dcg(Gains(rel, ranked), k, disc) == Dcg(Ideal(rel, order), k, disc)
  {
    SortedIsIdeal(rel, order);
    DcgAtMostIdeal(ranked, rel, SortBy(order, ByGain(rel)), k, disc);
    DcgAtMostIdeal(SortBy(order, ByGain(rel)), rel, ranked, k, disc);
  }

  /** The order the map is visited in does not show in the score. */
  lemma NdcgOrderFree(ranked: seq<string>, rel: RelMap, o: seq<string>, o': seq<string>, k: nat, disc: nat -> real)
    requires Enumerates(o, rel) && Enumerates(o', rel) && Discount(disc)
    ensures Ndcg(ranked, rel, o, k, disc) == Ndcg(ranked, rel, o', k, disc)
  {
    SortedIsIdeal(rel, o);
    IdealRanking(SortBy(o, ByGain(rel)), rel, o', k, disc);
  }

  /** With repeats the bound fails: one relevant document returned twice. */
  lemma RepeatsExceedOne(disc: nat -> real)
    requires Discount(disc)
    ensures Ndcg(["a", "a"], map["a" := 1], ["a"], 2, disc) > 1.0
  {
    var rel: RelMap := map["a" := 1];
    assert ["a", "a"][1..] == ["a"] && ["a"][1..] == [];
    assert Gains(rel, ["a"]) == [1.0] && Gains(rel, ["a", "a"]) == [1.0, 1.0];
    assert [1.0][1..] == [];
    assert Ideal(rel, ["a"]) == [1.0];
    var x, y := 1.0 / disc(0), 1.0 / disc(1);
    assert Weighted([1.0], 1, disc) == x;
    assert Weighted([1.0, 1.0], 1, disc) == x;
    assert Weighted([1.0, 1.0], 2, disc) == x + y;
    assert x > 0.0 && y > 0.0;
    assert ((x + y) / x) * x == x + y;
  }

  // ---- Exactly which rankings are bounded ----

  /** Each id once. */
  function Once(ids: seq<string>): seq<string> {
    if ids == [] then [] else if ids[0] in ids[1..] then Once(ids[1..]) else [ids[0]] + Once(ids[1..])
  }

  lemma {:induction false} OnceMeans(ids: seq<string>)
    ensures Distinct(Once(ids)) && |Once(ids)| <= |ids|
    ensures forall x :: x in Once(ids) <==> x in ids
    ensures |Once(ids)| == |ids| ==> Distinct(ids)
  {
    if ids != [] {
      OnceMeans(ids[1..]);
      assert ids == [ids[0]] + ids[1..];
    }
  }

  lemma {:induction false} OnesGrow(gains: seq<real>, m: nat, n: nat, disc: nat -> real)
    requires Discount(disc) && m <= n <= |gains| && forall i :: 0 <= i < |gains| ==> gains[i] == 1.0
    ensures Weighted(gains, m, disc) <= Weighted(gains, n, disc)
    ensures m < n ==> Weighted(gains, m, disc) < Weighted(gains, n, disc)
  {
    if m < n {
      OnesGrow(gains, m, n - 1, disc);
      assert 1.0 / disc(n - 1) > 0.0;
    }
  }

  lemma AllOnes(rel: RelMap, ids: seq<string>)
    requires forall x :: x in ids ==> x in rel && rel[x] == 1
    ensures |Gains(rel, ids)| == |ids| && forall i :: 0 <= i < |ids| ==> Gains(rel, ids)[i] == 1.0
  {
    GainsAt(rel, ids);
    forall i | 0 <= i < |ids| ensures Gains(rel, ids)[i] == 1.0 {
      assert ids[i] in ids;
    }
  }

  lemma MoreOnes(a: seq<real>, b: seq<real>, disc: nat -> real)
    requires Discount(disc) && |a| > |b| > 0
    requires (forall i :: 0 <= i < |a| ==> a[i] == 1.0) && forall i :: 0 <= i < |b| ==> b[i] == 1.0
    ensures Dcg(a, |a|, disc) > Dcg(b, |a|, disc) > 0.0
  {
    OnesGrow(a, |b|, |a|, disc);
    OnesGrow(b, 0, |b|, disc);
    WeightedSame(a, b, |b|, disc);
  }

  /** Every ranked document made relevant once: a ranking with a repeat scores above 1. */
  lemma RepeatsExceed(ranked: seq<string>, disc: nat -> real) returns (rel: RelMap, order: seq<string>)
    requires Discount(disc) && !Distinct(ranked)
    ensures Enumerates(order, rel) && Ndcg(ranked, rel, order, |ranked|, disc) > 1.0
  {
    rel := map x | x in ranked :: 1;
    order := Once(ranked);
    OnceMeans(ranked);
    AllOnes(rel, ranked);
    AllOnes(rel, order);
    assert ranked[0] in order;
    SortIdempotent(Gains(rel, order), Descending());
    MoreOnes(Gains(rel, ranked), Gains(rel, order), disc);
    AboveOne(Dcg(Gains(rel, ranked), |ranked|, disc), Dcg(Gains(rel, order), |ranked|, disc));
  }

  lemma AboveOne(x: real, y: real)
    requires x > y > 0.0
    ensures x / y > 1.0
  {
    assert (x / y) * y == x;
  }

  /** A ranking never scores above 1, whatever is relevant, exactly when it has no repeats. */
  lemma BoundedIff(ranked: seq<string>, disc: nat -> real)
    requires Discount(disc)
    ensures Distinct(ranked) <==>
            forall rel, order, k :: Enumerates(order, rel) ==> Ndcg(ranked, rel, order, k, disc) <= 1.0
  {
    if Distinct(ranked) {
      forall rel, order, k | Enumerates(order, rel) ensures Ndcg(ranked, rel, order, k, disc) <= 1.0 {
        NdcgBounds(ranked, rel, order, k, disc);
      }
    } else {
      var rel, order := RepeatsExceed(ranked, disc);
    }
  }

  // ---- Recall ----

  function TotalRelevant(rel: RelMap, order: seq<string>): nat { |Filter(order, IsRelevant(rel))| }

  function TopHits(ranked: seq<string>, rel: RelMap, k: nat): nat {
    |Filter(ranked[..Min(k, |ranked|)], IsRelevant(rel))|
  }

  function Recall(ranked: seq<string>, rel: RelMap, order: seq<string>, k: nat): real {
    var total := TotalRelevant(rel, order);
    if total == 0 then 0.0 else TopHits(ranked, rel, k) as real / total as real
  }

  /** Distinct items of a list are no more than the list, and as many only when they are all of it. */
  lemma {:induction false} DistinctWithin<T>(a: seq<T>, b: seq<T>)
    requires Distinct(a) && Distinct(b) && forall x :: x in a ==> x in b
    ensures |a| <= |b|
    ensures |a| == |b| <==> forall x :: x in b ==> x in a
    decreases |b|
  {
    if a == [] {
      if b != [] {
        assert b[0] in b;
      }
    } else {
      assert a[0] in a;
      var i :| 0 <= i < |b| && b[i] == a[0];
      var rest := b[..i] + b[i + 1..];
      assert forall x :: x in rest ==> x in b && x != a[0];
      forall x | x in b && x != a[0] ensures x in rest {
        var j :| 0 <= j < |b| && b[j] == x;
        assert j < i ==> rest[j] == x;
        assert j > i ==> rest[j - 1] == x;
      }
      assert forall x :: x in a[1..] ==> x in a && x != a[0];
      DistinctWithin(a[1..], rest);
      assert forall x :: x in a ==> x == a[0] || x in a[1..];
    }
  }

  lemma HitsWithin(top: seq<string>, rel: RelMap, order: seq<string>)
    requires Distinct(top) && Enumerates(order, rel)
    ensures |Filter(top, IsRelevant(rel))| <= TotalRelevant(rel, order)
    ensures |Filter(top, IsRelevant(rel))| == TotalRelevant(rel, order) <==> forall x :: Relevant(rel, x) ==> x in top
  {
    var p := IsRelevant(rel);
    FilterMembers(top, p);
    FilterDistinct(top, p);
    FilterMembers(order, p);
    FilterDistinct(order, p);
    var hits := Filter(top, p);
    assert forall x :: x in hits ==> Relevant(rel, x);
    DistinctWithin(hits, Filter(order, p));
  }

  lemma SomeRelevant(rel: RelMap, order: seq<string>)
    requires Enumerates(order, rel)
    ensures TotalRelevant(rel, order) > 0 <==> exists x :: Relevant(rel, x)
  {
    var wanted := Filter(order, IsRelevant(rel));
    FilterMembers(order, IsRelevant(rel));
    if wanted != [] {
      assert wanted[0] in wanted;
      assert Relevant(rel, wanted[0]);
    }
    if x :| Relevant(rel, x) {
      assert IsRelevant(rel)(x) && x in order;
      assert x in wanted;
    }
  }

  lemma TopHitsGrow(ranked: seq<string>, rel: RelMap, k: nat, more: nat)
    requires k <= more
    ensures TopHits(ranked, rel, k) <= TopHits(ranked, rel, more)
  {
    var top, wider := ranked[..Min(k, |ranked|)], ranked[..Min(more, |ranked|)];
    var extra := ranked[|top|..|wider|];
    assert wider == top + extra;
    FilterConcat(top, extra, IsRelevant(rel));
  }

  lemma SameDenominator(x: real, y: real, n: real)
    requires x <= y && n > 0.0
    ensures x / n <= y / n
  {
    assert (x / n) * n == x && (y / n) * n == y;
  }

  /** Recall is at most 1, never falls as `k` grows, and is 1 exactly when every relevant document is in the top `k`. */
  lemma RecallMeans(ranked: seq<string>, rel: RelMap, order: seq<string>, k: nat, more: nat)
    requires Distinct(ranked) && Enumerates(order, rel) && k <= more
    ensures 0.0 <= Recall(ranked, rel, order, k) <= Recall(ranked, rel, order, more) <= 1.0
    ensures Recall(ranked, rel, order, k) == 1.0 <==>
              && (exists x :: x in rel && rel[x] >= 1)
              && forall x :: x in rel && rel[x] >= 1 ==> x in ranked[..Min(k, |ranked|)]
  {
    assert forall x :: Relevant(rel, x) <==> x in rel && rel[x] >= 1;
    HitsWithin(ranked[..Min(k, |ranked|)], rel, order);
    HitsWithin(ranked[..Min(more, |ranked|)], rel, order);
    SomeRelevant(rel, order);
    TopHitsGrow(ranked, rel, k, more);
    var n := TotalRelevant(rel, order) as real;
    Ratio(TopHits(ranked, rel, k) as real, n);
    Ratio(TopHits(ranked, rel, more) as real, n);
    if n > 0.0 {
      SameDenominator(TopHits(ranked, rel, k) as real, TopHits(ranked, rel, more) as real, n);
    }
  }

  /** Recall is the share of the relevant documents, those with a positive gain, that are in the top `k`. */
  lemma RecallIs(ranked: seq<string>, rel: RelMap, order: seq<string>, k: nat, wanted: set<string>, found: set<string>)
    requires Distinct(ranked) && Enumerates(order, rel)
    requires forall x :: x in wanted <==> x in rel && rel[x] >= 1
    requires forall x :: x in found <==> x in wanted && exists i :: 0 <= i < |ranked| && i < k && ranked[i] == x
    ensures Recall(ranked, rel, order, k) == if wanted == {} then 0.0 else |found| as real / |wanted| as real
  {
    var p, top := IsRelevant(rel), ranked[..Min(k, |ranked|)];
    FilterCount(order, p, wanted);
    forall x ensures x in found <==> x in top && p(x) {
      if x in top {
        var i :| 0 <= i < |top| && top[i] == x;
        assert ranked[i] == x;
      }
    }
    FilterCount(top, p, found);
  }

  // ---- Average precision ----

  function Hits(ranked: seq<string>, rel: RelMap, n: nat): nat
    requires n <= |ranked|
  {
    if n == 0 then 0 else Hits(ranked, rel, n - 1) + if Relevant(rel, ranked[n - 1]) then 1 else 0
  }

  function PrecisionSum(ranked: seq<string>, rel: RelMap, n: nat): real
    requires n <= |ranked|
  {
    if n == 0 then 0.0
    else PrecisionSum(ranked, rel, n - 1)
         + if Relevant(rel, ranked[n - 1]) then Hits(ranked, rel, n) as real / n as real else 0.0
  }

  lemma {:induction false} HitsIsCount(ranked: seq<string>, rel: RelMap, n: nat)
    requires n <= |ranked|
    ensures Hits(ranked, rel, n) == |Filter(ranked[..n], IsRelevant(rel))| <= n
  {
    if n > 0 {
      HitsIsCount(ranked, rel, n - 1);
      assert ranked[..n] == ranked[..n - 1] + [ranked[n - 1]];
      FilterConcat(ranked[..n - 1], [ranked[n - 1]], IsRelevant(rel));
      assert [ranked[n - 1]][1..] == [];
    }
  }

  lemma {:induction false} HitsAre(ranked: seq<string>, rel: RelMap, n: nat, hits: set<nat>)
    requires n <= |ranked| && forall i: nat :: i in hits <==> i < n && ranked[i] in rel && rel[ranked[i]] >= 1
    ensures Hits(ranked, rel, n) == |hits|
  {
    if n == 0 {
      assert hits == {};
    } else {
      HitsAre(ranked, rel, n - 1, hits - {n - 1});
    }
  }

  /** A rank adds to the sum iff its document is relevant: the share of relevant ranks down to it. */
  lemma PrecisionAdds(ranked: seq<string>, rel: RelMap, i: nat, hits: set<nat>)
    requires i < |ranked| && forall j: nat :: j in hits <==> j <= i && ranked[j] in rel && rel[ranked[j]] >= 1
    ensures PrecisionSum(ranked, rel, 0) == 0.0
    ensures PrecisionSum(ranked, rel, i + 1) - PrecisionSum(ranked, rel, i) == if i in hits then |hits| as real / (i + 1) as real else 0.0
  {
    HitsAre(ranked, rel, i + 1, hits);
  }

  lemma {:induction false} HitsAllOfPrefix(ranked: seq<string>, rel: RelMap, n: nat, m: nat)
    requires m <= n <= |ranked|
    ensures m <= Hits(ranked, rel, n) || !forall i :: 0 <= i < m ==> Relevant(rel, ranked[i])
    ensures Hits(ranked, rel, n) <= n
    ensures Hits(ranked, rel, n) == n ==> forall i :: 0 <= i < n ==> Relevant(rel, ranked[i])
  {
    if n > 0 {
      HitsAllOfPrefix(ranked, rel, n - 1, if m < n then m else m - 1);
    }
  }

  /** Each precision is at most 1, and all are 1 exactly when the hits come first. */
  lemma {:induction false} PrecisionAtMostHits(ranked: seq<string>, rel: RelMap, n: nat)
    requires n <= |ranked|
    ensures 0.0 <= PrecisionSum(ranked, rel, n) <= Hits(ranked, rel, n) as real
    ensures Hits(ranked, rel, n) <= n
    ensures PrecisionSum(ranked, rel, n) == Hits(ranked, rel, n) as real <==>
              forall i :: 0 <= i < n && i < Hits(ranked, rel, n) ==> Relevant(rel, ranked[i])
  {
    if n > 0 {
      PrecisionAtMostHits(ranked, rel, n - 1);
      var before, h := Hits(ranked, rel, n - 1), Hits(ranked, rel, n);
      HitsAllOfPrefix(ranked, rel, n - 1, if before + 1 < n then before + 1 else before);
      if Relevant(rel, ranked[n - 1]) {
        Ratio(h as real, n as real);
      }
    }
  }

  /** The first `total` ranks are all relevant. */
  predicate HitsFirst(ranked: seq<string>, rel: RelMap, total: nat) {
    total <= |ranked| && forall i :: 0 <= i < total ==> Relevant(rel, ranked[i])
  }

  lemma ScoreBounds(ranked: seq<string>, rel: RelMap, order: seq<string>)
    requires Enumerates(order, rel) && Distinct(ranked)
    ensures
      var total, sum := TotalRelevant(rel, order), PrecisionSum(ranked, rel, |ranked|);
      0.0 <= sum <= total as real && (sum == total as real <==> HitsFirst(ranked, rel, total))
  {
    var total, n := TotalRelevant(rel, order), |ranked|;
    assert ranked[..n] == ranked;
    HitsIsCount(ranked, rel, n);
    HitsWithin(ranked, rel, order);
    PrecisionAtMostHits(ranked, rel, n);
    if total <= n {
      HitsAllOfPrefix(ranked, rel, n, total);
    }
  }

  method AveragePrecision(ranked: seq<string>, rel: RelMap, order: seq<string>) returns (r: real)
    requires Enumerates(order, rel)
    ensures
      var total := TotalRelevant(rel, order);
      r == if total == 0 then 0.0 else PrecisionSum(ranked, rel, |ranked|) / total as real
    ensures Distinct(ranked) ==> 0.0 <= r <= 1.0
    ensures Distinct(ranked) ==>
              (r == 1.0 <==> (exists x :: Relevant(rel, x)) && HitsFirst(ranked, rel, TotalRelevant(rel, order)))
    ensures forall wanted: set<string> :: (forall x :: x in wanted <==> x in rel && rel[x] >= 1) ==> TotalRelevant(rel, order) == |wanted|
  {
    var total := TotalRelevant(rel, order);
    SomeRelevant(rel, order);
    forall wanted: set<string> | forall x :: x in wanted <==> x in rel && rel[x] >= 1 ensures total == |wanted| {
      FilterCount(order, IsRelevant(rel), wanted);
    }
    if total == 0 {
      return 0.0;
    }
    var hits, sum := 0, 0.0;
    for i := 0 to |ranked|
      invariant hits == Hits(ranked, rel, i) && sum == PrecisionSum(ranked, rel, i)
    {
      if Relevant(rel, ranked[i]) {
        hits := hits + 1;
        sum := sum + hits as real / (i as real + 1.0);
      }
    }
    r := sum / total as real;
    if Distinct(ranked) {
      ScoreBounds(ranked, rel, order);
      Ratio(sum, total as real);
    }
  }
}

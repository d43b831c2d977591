/** Retention of one label's events (escurel-index/src/events.rs, `purge_events_counted`, `prune_label_events`). */
module Retention {

  import opened Wrappers
  import opened Ordering
  import opened Keyset
  import opened Events
  import opened Text
  import EventPaging

  datatype PurgeSpec = PurgeSpec(labelSkill: string, before: Option<int>, keepLatest: Option<nat>)

  datatype Report = Report(total: nat, matched: nat, kept: nat, deleted: nat, dryRun: bool)

  function OfLabel(labelSkill: string): Event -> bool { (e: Event) => e.fixed.labelSkill == labelSkill }

  /** `ORDER BY at_ts DESC NULLS LAST, event_id DESC`. */
  function NewestFirst(): Leq<Event> { EventPaging.Order(false, false) }

  function History(table: seq<Event>, labelSkill: string): seq<Event> {
    Listing(table, OfLabel(labelSkill), NewestFirst())
  }

  /** The newest `n` rows of a label. */
  function Newest(table: seq<Event>, labelSkill: string, n: nat): seq<Event> {
    Take(History(table, labelSkill), n)
  }

  predicate IdIn(rows: seq<Event>, id: string) { exists e :: e in rows && e.fixed.id == id }

  /** `LIKE 'write-back:%:applied'`: the record that stops a second write upstream. */
  predicate IsWitness(id: string) {
    |id| >= 19 && "write-back:" <= id && id[|id| - 8..] == ":applied"
  }

  predicate Doomed(spec: PurgeSpec, newest: seq<Event>, e: Event) {
    && e.fixed.labelSkill == spec.labelSkill
    && !IsWitness(e.fixed.id)
    && (spec.before.Some? ==> e.fixed.at.Some? && e.fixed.at.value < spec.before.value)
    && (spec.keepLatest.Some? ==> !IdIn(newest, e.fixed.id))
  }

  function Spared(table: seq<Event>, spec: PurgeSpec): seq<Event> {
    if spec.keepLatest.None? then [] else Newest(table, spec.labelSkill, spec.keepLatest.value)
  }

  function DoomedOf(spec: PurgeSpec, newest: seq<Event>): Event -> bool { (e: Event) => Doomed(spec, newest, e) }

  function KeptOf(spec: PurgeSpec, newest: seq<Event>): Event -> bool { (e: Event) => !Doomed(spec, newest, e) }

  function Matched(table: seq<Event>, spec: PurgeSpec): seq<Event> {
    Filter(table, DoomedOf(spec, Spared(table, spec)))
  }

  /** Count, then delete when told to. */
  function Purge(table: seq<Event>, spec: PurgeSpec, apply: bool): (seq<Event>, Report) {
    var total := |Filter(table, OfLabel(spec.labelSkill))|;
    var matched := |Matched(table, spec)|;
    var table' := if apply then Filter(table, KeptOf(spec, Spared(table, spec))) else table;
    (table', Report(total, matched, if total < matched then 0 else total - matched, if apply then matched else 0, !apply))
  }

  lemma HistoryDecided(table: seq<Event>, labelSkill: string)
    requires Keyed(table)
    ensures TotalPreorder(NewestFirst()) && KeysDecide(Filter(table, OfLabel(labelSkill)), NewestFirst())
  {
    EventPaging.OrderTotal(false, false);
    assert Distinct(table);
    FilterDistinct(table, OfLabel(labelSkill));
    FilterMembers(table, OfLabel(labelSkill));
    var rows := Filter(table, OfLabel(labelSkill));
    forall x, y | x in rows && y in rows && NewestFirst()(x, y) && NewestFirst()(y, x) ensures x == y {
      EventPaging.BeforeStrict(false, x.fixed.at, x.fixed.id, y.fixed.at, y.fixed.id);
      assert x in table && y in table;
    }
  }

  lemma PrefixSurvives<T>(rows: seq<T>, p: T -> bool, n: nat)
    requires forall x :: x in Take(rows, n) ==> p(x)
    ensures Take(Filter(rows, p), n) == Take(rows, n)
  {
    if |rows| <= n {
      FilterAll(rows, p);
    } else {
      assert rows == rows[..n] + rows[n..];
      FilterConcat(rows[..n], rows[n..], p);
      FilterAll(rows[..n], p);
    }
  }

  /** Deleting rows that are not among the newest leaves the newest where they were. */
  lemma NewestSurvive(table: seq<Event>, labelSkill: string, n: nat, keep: Event -> bool)
    requires forall e :: e in Newest(table, labelSkill, n) ==> keep(e)
    ensures Newest(Filter(table, keep), labelSkill, n) == Newest(table, labelSkill, n)
  {
    EventPaging.OrderTotal(false, false);
    var mine := OfLabel(labelSkill);
    var both := (e: Event) => keep(e) && mine(e);
    FilterFilter(table, keep, mine, both);
    FilterFilter(table, mine, keep, both);
    FilterSort(Filter(table, mine), NewestFirst(), keep);
    PrefixSurvives(History(table, labelSkill), keep, n);
  }

  lemma SparedNotDoomed(table: seq<Event>, spec: PurgeSpec)
    ensures forall e :: e in Spared(table, spec) ==> e in table && !Doomed(spec, Spared(table, spec), e)
  {
    ListingMembers(table, OfLabel(spec.labelSkill), NewestFirst());
    forall e | e in Spared(table, spec) ensures e in History(table, spec.labelSkill) && IdIn(Spared(table, spec), e.fixed.id) {}
  }

  /** A purge leaves the newest rows it promised, and the same request then finds nothing more. */
  lemma PurgeIdempotent(table: seq<Event>, spec: PurgeSpec)
    ensures
      var table' := Purge(table, spec, true).0;
      && Spared(table', spec) == Spared(table, spec)
      && Matched(table', spec) == []
      && Purge(table', spec, true).0 == table'
  {
    var spared := Spared(table, spec);
    var keep := KeptOf(spec, spared);
    SparedNotDoomed(table, spec);
    if spec.keepLatest.Some? {
      NewestSurvive(table, spec.labelSkill, spec.keepLatest.value, keep);
    }
    var table' := Filter(table, keep);
    FilterMembers(table, keep);
    FilterNone(table', DoomedOf(spec, spared));
    FilterAll(table', keep);
  }

  /**
   What a purge does: it keeps every row of other labels, every witness, every row that is undated or
   not older than the cutoff, and the newest rows asked for; it deletes exactly the rows it counted.
   */
  lemma PurgeMeans(table: seq<Event>, spec: PurgeSpec, apply: bool)
    ensures
      var (table', report) := Purge(table, spec, apply);
      && (forall e :: e in table && (e.fixed.labelSkill != spec.labelSkill || IsWitness(e.fixed.id)) ==> e in table')
      && (forall e :: e in table && spec.before.Some? && (e.fixed.at.None? || e.fixed.at.value >= spec.before.value) ==> e in table')
      && (spec.keepLatest.Some? ==> forall e :: e in Newest(table, spec.labelSkill, spec.keepLatest.value) ==> e in table')
      && |table| == |table'| + report.deleted
      && report.total == report.kept + report.matched
      && (apply ==> |Filter(table', OfLabel(spec.labelSkill))| == report.kept)
      && (!apply ==> table' == table)
  {
    var spared := Spared(table, spec);
    var keep, doom := KeptOf(spec, spared), DoomedOf(spec, spared);
    FilterMembers(table, keep);
    SparedNotDoomed(table, spec);
    FilterSplitsLength(table, keep, doom);
    var mine := OfLabel(spec.labelSkill);
    FilterSplitsLength(Filter(table, mine), keep, doom);
    FilterFilter(table, mine, doom, doom);
    var both := (e: Event) => keep(e) && mine(e);
    FilterFilter(table, mine, keep, both);
    FilterFilter(table, keep, mine, both);
  }

  /** `f` is a newer row of the label: later dated, or as late with a greater id; undated rows are oldest. */
  predicate Newer(labelSkill: string, f: Event, e: Event) {
    f.fixed.labelSkill == labelSkill &&
    match (f.fixed.at, e.fixed.at)
    case (Some(a), Some(b)) => a > b || (a == b && LexLess(e.fixed.id, f.fixed.id))
    case (Some(_), None) => true
    case (None, Some(_)) => false
    case (None, None) => LexLess(e.fixed.id, f.fixed.id)
  }

  /** How many newer rows of the label there are. */
  function Rank(table: seq<Event>, labelSkill: string, e: Event): nat {
    |set f | f in table && Newer(labelSkill, f, e)|
  }

  lemma OrderIsNewer(labelSkill: string, f: Event, e: Event)
    requires f.fixed.labelSkill == labelSkill && f.fixed.id != e.fixed.id
    ensures Newer(labelSkill, f, e) <==> NewestFirst()(f, e)
  {
    LexTotal(f.fixed.id, e.fixed.id);
  }

  /** A row is among the newest `n` of its label iff fewer than `n` are newer. */
  lemma NewestByRank(table: seq<Event>, labelSkill: string, n: nat, e: Event)
    requires Keyed(table) && e in table && e.fixed.labelSkill == labelSkill
    ensures IdIn(Newest(table, labelSkill, n), e.fixed.id) <==> Rank(table, labelSkill, e) < n
  {
    var history := History(table, labelSkill);
    HistoryDecided(table, labelSkill);
    ListingMembers(table, OfLabel(labelSkill), NewestFirst());
    ListingDecided(table, OfLabel(labelSkill), NewestFirst());
    var i: nat :| i < |history| && history[i] == e;
    KeptByRank(table, labelSkill, n, i);
    forall f ensures f in table && Newer(labelSkill, f, e) <==> f in history[..i] {
      if f in history {
        var j :| 0 <= j < |history| && history[j] == f;
        assert f in table;
        if j != i {
          OrderIsNewer(labelSkill, f, e);
          assert j < i ==> f == history[..i][j];
          assert j > i ==> NewestFirst()(e, f);
        } else {
          LexTotal(e.fixed.id, e.fixed.id);
        }
      }
    }
    assert (set f | f in table && Newer(labelSkill, f, e)) == set f | f in history[..i];
    DistinctCount(history[..i]);
  }

  lemma {:induction false} DistinctCount(rows: seq<Event>)
    requires Distinct(rows)
    ensures |(set f | f in rows)| == |rows|
  {
    if rows != [] {
      DistinctCount(rows[1..]);
      assert rows == [rows[0]] + rows[1..];
      assert (set f | f in rows) == (set f | f in rows[1..]) + {rows[0]};
    }
  }

  lemma WitnessMeans(id: string)
    ensures IsWitness(id) <==> exists key :: id == "write-back:" + key + ":applied"
  {
    if IsWitness(id) {
      var key := id[11..|id| - 8];
      assert id == id[..11] + key + id[|id| - 8..];
      assert id == "write-back:" + key + ":applied";
    }
    if key :| id == "write-back:" + key + ":applied" {
      assert id[|id| - 8..] == ":applied" && id[..11] == "write-back:";
    }
  }

  /** A purge of the label takes the row: no witness, old enough, and not among the newest to keep. */
  ghost predicate Purgeable(table: seq<Event>, spec: PurgeSpec, e: Event) {
    && e.fixed.labelSkill == spec.labelSkill
    && !(exists key :: e.fixed.id == "write-back:" + key + ":applied")
    && (spec.before.Some? ==> e.fixed.at.Some? && e.fixed.at.value < spec.before.value)
    && (spec.keepLatest.Some? ==> Rank(table, spec.labelSkill, e) >= spec.keepLatest.value)
  }

  lemma DoomedIff(table: seq<Event>, spec: PurgeSpec, e: Event)
    requires Keyed(table) && e in table
    ensures Doomed(spec, Spared(table, spec), e) <==> Purgeable(table, spec, e)
  {
    WitnessMeans(e.fixed.id);
    if spec.keepLatest.Some? && e.fixed.labelSkill == spec.labelSkill {
      NewestByRank(table, spec.labelSkill, spec.keepLatest.value, e);
    }
  }

  /** A purge deletes exactly the purgeable rows. */
  lemma PurgeIff(table: seq<Event>, spec: PurgeSpec, apply: bool, e: Event)
    requires Keyed(table)
    ensures e in Purge(table, spec, apply).0 <==> e in table && !(apply && Purgeable(table, spec, e))
  {
    FilterMembers(table, KeptOf(spec, Spared(table, spec)));
    if e in table {
      DoomedIff(table, spec, e);
    }
  }

  /** Its report counts the label's rows and, with or without deleting them, the purgeable ones. */
  lemma ReportMeans(table: seq<Event>, spec: PurgeSpec, apply: bool, mine: set<Event>, purgeable: set<Event>)
    requires Keyed(table)
    requires forall e :: e in mine <==> e in table && e.fixed.labelSkill == spec.labelSkill
    requires forall e :: e in purgeable <==> e in table && Purgeable(table, spec, e)
    ensures purgeable <= mine && |purgeable| <= |mine|
    ensures Purge(table, spec, apply).1 ==
            Report(|mine|, |purgeable|, |mine| - |purgeable|, if apply then |purgeable| else 0, !apply)
  {
    forall e | e in table ensures Doomed(spec, Spared(table, spec), e) <==> Purgeable(table, spec, e) {
      DoomedIff(table, spec, e);
    }
    assert Distinct(table);
    FilterCount(table, OfLabel(spec.labelSkill), mine);
    FilterCount(table, DoomedOf(spec, Spared(table, spec)), purgeable);
    PurgeMeans(table, spec, apply);
  }

  /** Keep only the newest rows of a label. */
  function Prune(table: seq<Event>, labelSkill: string, keep: nat): seq<Event> {
    Filter(table, NotPruned(labelSkill, Newest(table, labelSkill, keep)))
  }

  function NotPruned(labelSkill: string, newest: seq<Event>): Event -> bool {
    (e: Event) => e.fixed.labelSkill != labelSkill || IdIn(newest, e.fixed.id)
  }

  /** After pruning, the label's history is its former newest rows and no others; other labels are whole. */
  lemma PruneMeans(table: seq<Event>, labelSkill: string, n: nat, other: string)
    requires Keyed(table)
    ensures History(Prune(table, labelSkill, n), labelSkill) == Newest(table, labelSkill, n)
    ensures other != labelSkill ==> History(Prune(table, labelSkill, n), other) == History(table, other)
  {
    var keep := NotPruned(labelSkill, Newest(table, labelSkill, n));
    var mine := OfLabel(labelSkill);
    var history := History(table, labelSkill);
    HistoryDecided(table, labelSkill);
    var both := (e: Event) => keep(e) && mine(e);
    FilterFilter(table, keep, mine, both);
    FilterFilter(table, mine, keep, both);
    FilterSort(Filter(table, mine), NewestFirst(), keep);
    forall i | 0 <= i < |history| ensures keep(history[i]) <==> i < n {
      KeptByRank(table, labelSkill, n, i);
    }
    PrefixOnly(history, keep, n);
    if other != labelSkill {
      FilterFilter(table, keep, OfLabel(other), OfLabel(other));
    }
  }

  /** A row of the label survives pruning iff fewer than `n` of the label's are newer. */
  lemma PruneIff(table: seq<Event>, labelSkill: string, n: nat, e: Event)
    requires Keyed(table)
    ensures e in Prune(table, labelSkill, n) <==>
            e in table && (e.fixed.labelSkill == labelSkill ==> Rank(table, labelSkill, e) < n)
  {
    FilterMembers(table, NotPruned(labelSkill, Newest(table, labelSkill, n)));
    if e in table && e.fixed.labelSkill == labelSkill {
      NewestByRank(table, labelSkill, n, e);
    }
  }

  /** Of a label's history exactly the first rows are kept. */
  lemma KeptByRank(table: seq<Event>, labelSkill: string, n: nat, i: nat)
    requires Keyed(table) && i < |History(table, labelSkill)|
    ensures NotPruned(labelSkill, Newest(table, labelSkill, n))(History(table, labelSkill)[i]) <==> i < n
  {
    var newest, history := Newest(table, labelSkill, n), History(table, labelSkill);
    HistoryDecided(table, labelSkill);
    ListingMembers(table, OfLabel(labelSkill), NewestFirst());
    ListingDecided(table, OfLabel(labelSkill), NewestFirst());
    var e := history[i];
    assert e in history;
    if i < n {
      assert newest[i] == e && e in newest;
    } else {
      assert forall d :: d in newest ==> d in history && d != e;
    }
  }

  lemma PrefixOnly<T>(rows: seq<T>, p: T -> bool, n: nat)
    requires forall i :: 0 <= i < |rows| ==> (p(rows[i]) <==> i < n)
    ensures Filter(rows, p) == Take(rows, n)
  {
    if |rows| <= n {
      FilterAll(rows, p);
    } else {
      assert rows == rows[..n] + rows[n..];
      FilterConcat(rows[..n], rows[n..], p);
      FilterAll(rows[..n], p);
      forall x | x in rows[n..] ensures !p(x) {
        var i :| 0 <= i < |rows[n..]| && rows[n..][i] == x;
        assert x == rows[n + i];
      }
      FilterNone(rows[n..], p);
    }
  }

  // ---- On the store ----

  lemma FilterKeyed(table: seq<Event>, p: Event -> bool)
    requires Keyed(table)
    ensures Keyed(Filter(table, p))
  {
    assert Distinct(table);
    FilterDistinct(table, p);
    FilterMembers(table, p);
    var rows := Filter(table, p);
    forall i, j | 0 <= i < j < |rows| ensures rows[i].fixed.id != rows[j].fixed.id {
      assert rows[i] in rows && rows[j] in rows && rows[i] != rows[j];
    }
  }

  method PurgeEvents(store: EventStore, spec: PurgeSpec, apply: bool) returns (report: Report)
    requires store.Valid()
    modifies store
    ensures store.Valid()
    ensures (store.rows, report) == Purge(old(store.rows), spec, apply)
    ensures |old(store.rows)| == |store.rows| + report.deleted
    ensures apply ==> Matched(store.rows, spec) == []
  {
    PurgeMeans(store.rows, spec, apply);
    PurgeIdempotent(store.rows, spec);
    var spared := Spared(store.rows, spec);
    var total := |Filter(store.rows, OfLabel(spec.labelSkill))|;
    var matched := |Filter(store.rows, DoomedOf(spec, spared))|;
    report := Report(total, matched, if total < matched then 0 else total - matched, if apply then matched else 0, !apply);
    if apply {
      FilterKeyed(store.rows, KeptOf(spec, spared));
      store.rows := Filter(store.rows, KeptOf(spec, spared));
    }
  }

  method PruneLabel(store: EventStore, labelSkill: string, keep: nat)
    requires store.Valid()
    modifies store
    ensures store.Valid() && store.rows == Prune(old(store.rows), labelSkill, keep)
    ensures History(store.rows, labelSkill) == Newest(old(store.rows), labelSkill, keep)
  {
    PruneMeans(store.rows, labelSkill, keep, labelSkill);
    FilterKeyed(store.rows, NotPruned(labelSkill, Newest(store.rows, labelSkill, keep)));
    store.rows := Prune(store.rows, labelSkill, keep);
  }
}

/**
 The op log of a live document: `crdt_ops` and `crdt_snapshots` (escurel-crdt/src/backend.rs).

 A table is a sequence of rows whose order carries no meaning; an insert that repeats a primary key
 is an error; every method of the backend runs under one connection lock and is one step.
 */
module OpLog {

  import opened Wrappers
  import opened Ordering
  import opened Text
  import Decimal

  newtype byte = x: int | 0 <= x < 256

  type Bytes = seq<byte>

  datatype OpRow = OpRow(page: string, opId: string, hlc: int, bytes: Bytes, principal: Option<string>)

  datatype SnapRow = SnapRow(page: string, hlc: int, bytes: Bytes)

  datatype Log = Log(ops: seq<OpRow>, snaps: seq<SnapRow>)

  /** A primary key is already taken. */
  datatype Conflict = OpExists | SnapshotExists

  // ---- Queries ----

  function OpsOf(page: string): OpRow -> bool { (r: OpRow) => r.page == page }

  function After(page: string, floor: int): OpRow -> bool {
    (r: OpRow) => r.page == page && r.hlc > floor
  }

  function Subsumed(page: string, floor: int): OpRow -> bool {
    (r: OpRow) => r.page == page && r.hlc <= floor
  }

  function NotSubsumed(page: string, floor: int): OpRow -> bool {
    (r: OpRow) => !(r.page == page && r.hlc <= floor)
  }

  /** `ORDER BY hlc`. */
  function ByHlc(): Leq<OpRow> { (a: OpRow, b: OpRow) => a.hlc <= b.hlc }

  function MaxOp(ops: seq<OpRow>, page: string): Option<int> {
    if ops == [] then None
    else
      var rest := MaxOp(ops[1..], page);
      if ops[0].page != page then rest
      else if rest.None? || rest.value < ops[0].hlc then Some(ops[0].hlc) else rest
  }

  /** The newest snapshot: `ORDER BY snapshot_hlc DESC LIMIT 1`. */
  function Newest(snaps: seq<SnapRow>, page: string): Option<SnapRow> {
    if snaps == [] then None
    else
      var rest := Newest(snaps[1..], page);
      if snaps[0].page != page then rest
      else if rest.None? || rest.value.hlc < snaps[0].hlc then Some(snaps[0]) else rest
  }

  /** `max(hlc)` over both tables, `0` for an empty one. */
  function MaxHlc(log: Log, page: string): int {
    var op := match MaxOp(log.ops, page) case None => 0 case Some(h) => h;
    var snap := match Newest(log.snaps, page) case None => 0 case Some(r) => r.hlc;
    if op < snap then snap else op
  }

  function Payloads(rows: seq<OpRow>): seq<Bytes> {
    if rows == [] then [] else [rows[0].bytes] + Payloads(rows[1..])
  }

  /** The newest snapshot and every op above it, in hlc order; `None` for a page never seen. */
  function Load(log: Log, page: string): Option<(Bytes, seq<Bytes>)> {
    match Newest(log.snaps, page)
    case Some(r) => Some((r.bytes, Payloads(SortBy(Filter(log.ops, After(page, r.hlc)), ByHlc()))))
    case None =>
      var ops := Filter(log.ops, OpsOf(page));
      if ops == [] then None else Some(([], Payloads(SortBy(ops, ByHlc()))))
  }

  // ---- Writes ----

  function OpId(page: string, hlc: int): string { page + ":" + Decimal.Show(hlc) }

  function InsertOp(log: Log, row: OpRow): Result<Log, Conflict> {
    if exists r :: r in log.ops && r.page == row.page && r.opId == row.opId then Err(OpExists)
    else Ok(log.(ops := log.ops + [row]))
  }

  function InsertSnapshot(log: Log, row: SnapRow): Result<Log, Conflict> {
    if exists r :: r in log.snaps && r.page == row.page && r.hlc == row.hlc then Err(SnapshotExists)
    else Ok(log.(snaps := log.snaps + [row]))
  }

  function AppendOpNext(log: Log, page: string, bytes: Bytes, principal: Option<string>): Result<Log, Conflict> {
    var hlc := MaxHlc(log, page) + 1;
    InsertOp(log, OpRow(page, OpId(page, hlc), hlc, bytes, principal))
  }

  function SnapshotNext(log: Log, page: string, bytes: Bytes): Result<Log, Conflict> {
    InsertSnapshot(log, SnapRow(page, MaxHlc(log, page) + 1, bytes))
  }

  /** Delete the ops the newest snapshot subsumes. */
  function Compact(log: Log, page: string): Log {
    match Newest(log.snaps, page)
    case None => log
    case Some(r) => log.(ops := Filter(log.ops, NotSubsumed(page, r.hlc)))
  }

  function Removed(log: Log, page: string): seq<OpRow> {
    match Newest(log.snaps, page)
    case None => []
    case Some(r) => Filter(log.ops, Subsumed(page, r.hlc))
  }

  function TotalBytes(rows: seq<OpRow>): nat {
    if rows == [] then 0 else |rows[0].bytes| + TotalBytes(rows[1..])
  }

  datatype Author = Author(opId: string, hlc: int, principal: Option<string>)

  function Authors(rows: seq<OpRow>): seq<Author> {
    if rows == [] then []
    else [Author(rows[0].opId, rows[0].hlc, rows[0].principal)] + Authors(rows[1..])
  }

  /** `ORDER BY hlc, op_id`. */
  function ByHlcThenId(): Leq<OpRow> {
    (a: OpRow, b: OpRow) => a.hlc < b.hlc || (a.hlc == b.hlc && !LexLess(b.opId, a.opId))
  }

  function OpAuthors(log: Log, page: string): seq<Author> {
    Authors(SortBy(Filter(log.ops, OpsOf(page)), ByHlcThenId()))
  }

  // ---- Numbering ----

  /** Every row carries a positive hlc, and an op's id spells it: what the allocating writers produce. */
  ghost predicate Numbered(log: Log) {
    && (forall r :: r in log.ops ==> r.hlc >= 1 && r.opId == OpId(r.page, r.hlc))
    && (forall r :: r in log.snaps ==> r.hlc >= 1)
  }

  /** `(page_id, snapshot_hlc)` is a primary key. */
  ghost predicate SnapshotsKeyed(log: Log) {
    forall r, r' :: r in log.snaps && r' in log.snaps && r.page == r'.page && r.hlc == r'.hlc ==> r == r'
  }

  // ---- The maximum, characterised ----

  lemma {:induction false} MaxOpBounds(ops: seq<OpRow>, page: string)
    ensures forall r :: r in ops && r.page == page ==> MaxOp(ops, page).Some? && r.hlc <= MaxOp(ops, page).value
    ensures MaxOp(ops, page).Some? ==> exists r :: r in ops && r.page == page && r.hlc == MaxOp(ops, page).value
  {
    if ops != [] {
      MaxOpBounds(ops[1..], page);
    }
  }

  lemma {:induction false} NewestBounds(snaps: seq<SnapRow>, page: string)
    ensures forall r :: r in snaps && r.page == page ==> Newest(snaps, page).Some? && r.hlc <= Newest(snaps, page).value.hlc
    ensures Newest(snaps, page).Some? ==> Newest(snaps, page).value in snaps && Newest(snaps, page).value.page == page
  {
    if snaps != [] {
      NewestBounds(snaps[1..], page);
    }
  }

  /** No stored row of the page lies above its maximum. */
  lemma MaxHlcBounds(log: Log, page: string)
    ensures forall r :: r in log.ops && r.page == page ==> r.hlc <= MaxHlc(log, page)
    ensures forall r :: r in log.snaps && r.page == page ==> r.hlc <= MaxHlc(log, page)
  {
    MaxOpBounds(log.ops, page);
    NewestBounds(log.snaps, page);
  }

  /** It is 0 without rows, and otherwise some row carries it. */
  lemma MaxHlcAttained(log: Log, page: string)
    requires Numbered(log)
    ensures MaxHlc(log, page) == 0 <==> (forall r :: r in log.ops ==> r.page != page) && forall r :: r in log.snaps ==> r.page != page
    ensures MaxHlc(log, page) != 0 ==>
              || (exists r :: r in log.ops && r.page == page && r.hlc == MaxHlc(log, page))
              || (exists r :: r in log.snaps && r.page == page && r.hlc == MaxHlc(log, page))
  {
    MaxOpBounds(log.ops, page);
    NewestBounds(log.snaps, page);
  }

  lemma {:induction false} MaxOpAppend(ops: seq<OpRow>, row: OpRow, page: string)
    ensures MaxOp(ops + [row], page) ==
            if row.page != page then MaxOp(ops, page)
            else match MaxOp(ops, page)
                 case None => Some(row.hlc)
                 case Some(h) => Some(if h < row.hlc then row.hlc else h)
  {
    if ops == [] {
      assert [row][1..] == [];
    } else {
      assert (ops + [row])[1..] == ops[1..] + [row];
      MaxOpAppend(ops[1..], row, page);
    }
  }

  lemma {:induction false} NewestAppend(snaps: seq<SnapRow>, row: SnapRow, page: string)
    requires row.page == page ==> forall r :: r in snaps && r.page == page ==> r.hlc != row.hlc
    ensures Newest(snaps + [row], page) ==
            if row.page != page then Newest(snaps, page)
            else match Newest(snaps, page)
                 case None => Some(row)
                 case Some(r) => if r.hlc < row.hlc then Some(row) else Some(r)
  {
    if snaps == [] {
      assert [row][1..] == [];
    } else {
      assert (snaps + [row])[1..] == snaps[1..] + [row];
      NewestAppend(snaps[1..], row, page);
      NewestBounds(snaps[1..], page);
    }
  }

  // ---- What the queries answer ----

  /** The page's ops above the floor, every one as often as it is stored, oldest first. */
  ghost predicate OpsAbove(log: Log, page: string, floor: Option<int>, rows: seq<OpRow>) {
    && (forall r :: multiset(rows)[r] ==
                    if r.page == page && (floor.Some? ==> r.hlc > floor.value) then multiset(log.ops)[r] else 0)
    && forall i, j :: 0 <= i < j < |rows| ==> rows[i].hlc <= rows[j].hlc
  }

  lemma {:induction false} FilterMultiset(ops: seq<OpRow>, p: OpRow -> bool, r: OpRow)
    ensures multiset(Filter(ops, p))[r] == if p(r) then multiset(ops)[r] else 0
  {
    if ops != [] {
      FilterMultiset(ops[1..], p, r);
      assert ops == [ops[0]] + ops[1..];
    }
  }

  lemma {:induction false} PayloadsAt(rows: seq<OpRow>, i: nat)
    requires i < |rows|
    ensures |Payloads(rows)| == |rows| && Payloads(rows)[i] == rows[i].bytes
  {
    if |rows| > 1 {
      PayloadsAt(rows[1..], if i == 0 then 0 else i - 1);
    }
  }

  lemma SortedAbove(log: Log, page: string, floor: Option<int>) returns (rows: seq<OpRow>)
    ensures rows == SortBy(Filter(log.ops, if floor.Some? then After(page, floor.value) else OpsOf(page)), ByHlc())
    ensures OpsAbove(log, page, floor, rows)
  {
    var p := if floor.Some? then After(page, floor.value) else OpsOf(page);
    var mine := Filter(log.ops, p);
    rows := SortBy(mine, ByHlc());
    assert TotalPreorder(ByHlc());
    SortSorted(mine, ByHlc());
    SortPerm(mine, ByHlc());
    forall r ensures multiset(rows)[r] == if p(r) then multiset(log.ops)[r] else 0 {
      FilterMultiset(log.ops, p, r);
    }
  }

  /** Some snapshot of the page that no other of the page is newer than, if there is any. */
  ghost predicate NewestIs(log: Log, page: string, base: Option<SnapRow>) {
    match base
    case None => forall r :: r in log.snaps ==> r.page != page
    case Some(s) => s in log.snaps && s.page == page && forall r :: r in log.snaps && r.page == page ==> r.hlc <= s.hlc
  }

  lemma LoadsNothing(log: Log, page: string)
    ensures Load(log, page).None? <==>
            (forall r :: r in log.ops ==> r.page != page) && (forall r :: r in log.snaps ==> r.page != page)
  {
    NewestBounds(log.snaps, page);
    FilterMembers(log.ops, OpsOf(page));
    if Load(log, page).None? {
      forall r | r in log.ops ensures r.page != page {
        assert r.page == page ==> r in Filter(log.ops, OpsOf(page));
      }
    } else if Newest(log.snaps, page).None? {
      var mine := Filter(log.ops, OpsOf(page));
      assert mine[0] in mine;
    }
  }

  /** A load is the newest snapshot's state and what every op above it carries, in order. */
  lemma LoadMeans(log: Log, page: string) returns (base: Option<SnapRow>, rows: seq<OpRow>)
    requires Load(log, page).Some?
    ensures NewestIs(log, page, base)
    ensures OpsAbove(log, page, if base.Some? then Some(base.value.hlc) else None, rows)
    ensures
      var (state, ops) := Load(log, page).value;
      && state == (if base.Some? then base.value.bytes else [])
      && |ops| == |rows| && forall i :: 0 <= i < |rows| ==> ops[i] == rows[i].bytes
  {
    NewestBounds(log.snaps, page);
    base := Newest(log.snaps, page);
    rows := SortedAbove(log, page, if base.Some? then Some(base.value.hlc) else None);
    forall i | 0 <= i < |rows| ensures |Payloads(rows)| == |rows| && Payloads(rows)[i] == rows[i].bytes {
      PayloadsAt(rows, i);
    }
  }

  lemma {:induction false} AuthorsAt(rows: seq<OpRow>, i: nat)
    requires i < |rows|
    ensures |Authors(rows)| == |rows| && Authors(rows)[i] == Author(rows[i].opId, rows[i].hlc, rows[i].principal)
  {
    if |rows| > 1 {
      AuthorsAt(rows[1..], if i == 0 then 0 else i - 1);
    }
  }

  /** The timeline is who wrote each of the page's ops, by hlc and then by id. */
  lemma AuthorsMean(log: Log, page: string) returns (rows: seq<OpRow>)
    ensures OpsAbove(log, page, None, rows) && |OpAuthors(log, page)| == |rows|
    ensures forall i :: 0 <= i < |rows| ==>
              && OpAuthors(log, page)[i].opId == rows[i].opId && OpAuthors(log, page)[i].hlc == rows[i].hlc
              && OpAuthors(log, page)[i].principal == rows[i].principal
    ensures forall i, j :: 0 <= i < j < |rows| && rows[i].hlc == rows[j].hlc ==> !LexLess(rows[j].opId, rows[i].opId)
  {
    var mine := Filter(log.ops, OpsOf(page));
    rows := SortBy(mine, ByHlcThenId());
    ByHlcThenIdTotal();
    SortSorted(mine, ByHlcThenId());
    SortPerm(mine, ByHlcThenId());
    forall r ensures multiset(rows)[r] == if r.page == page then multiset(log.ops)[r] else 0 {
      FilterMultiset(log.ops, OpsOf(page), r);
    }
    forall i | 0 <= i < |rows|
      ensures |Authors(rows)| == |rows| && Authors(rows)[i] == Author(rows[i].opId, rows[i].hlc, rows[i].principal)
    {
      AuthorsAt(rows, i);
    }
  }

  // ---- Compaction ----

  /** An op goes exactly when some snapshot of the page is at or above it. */
  lemma CompactIff(log: Log, page: string, r: OpRow)
    ensures r in Compact(log, page).ops <==>
            r in log.ops && !(r.page == page && exists s :: s in log.snaps && s.page == page && r.hlc <= s.hlc)
    ensures r in Removed(log, page) <==>
            r in log.ops && r.page == page && exists s :: s in log.snaps && s.page == page && r.hlc <= s.hlc
  {
    NewestBounds(log.snaps, page);
    var newest := Newest(log.snaps, page);
    if newest.Some? {
      FilterMembers(log.ops, NotSubsumed(page, newest.value.hlc));
      FilterMembers(log.ops, Subsumed(page, newest.value.hlc));
    }
  }

  /** Sizes add up, one op counting its payload. */
  lemma {:induction false} BytesAdd(a: seq<OpRow>, b: seq<OpRow>, r: OpRow)
    ensures TotalBytes(a + b) == TotalBytes(a) + TotalBytes(b) && TotalBytes([r]) == |r.bytes|
  {
    if a == [] {
      assert a + b == b;
    } else {
      assert (a + b)[1..] == a[1..] + b;
      BytesAdd(a[1..], b, r);
    }
    assert [r][1..] == [];
  }

  lemma {:induction false} SplitBytes(rows: seq<OpRow>, p: OpRow -> bool, q: OpRow -> bool)
    requires forall r :: r in rows ==> q(r) == !p(r)
    ensures TotalBytes(Filter(rows, p)) + TotalBytes(Filter(rows, q)) == TotalBytes(rows)
  {
    if rows != [] {
      SplitBytes(rows[1..], p, q);
    }
  }

  lemma {:induction false} AuthorsDrop(rows: seq<OpRow>, k: nat)
    requires k <= |rows|
    ensures |Authors(rows)| == |rows| && Authors(rows[k..]) == Authors(rows)[k..]
  {
    if rows != [] {
      if k == 0 {
        AuthorsDrop(rows[1..], 0);
        assert rows[0..] == rows;
      } else {
        AuthorsDrop(rows[1..], k - 1);
        assert rows[k..] == rows[1..][k - 1..];
      }
    }
  }

  lemma ByHlcThenIdTotal()
    ensures TotalPreorder(ByHlcThenId())
  {
    var le := ByHlcThenId();
    forall a, b ensures le(a, b) || le(b, a) {
      LexTotal(a.opId, b.opId);
    }
    forall a, b, c | le(a, b) && le(b, c) ensures le(a, c) {
      if a.hlc == b.hlc == c.hlc && LexLess(c.opId, a.opId) {
        LexTotal(b.opId, c.opId);
        LexTotal(a.opId, b.opId);
        if b.opId != c.opId && a.opId != b.opId {
          LexTrans(b.opId, c.opId, a.opId);
        }
      }
    }
  }

  lemma CompactLoad(log: Log, page: string, other: string)
    ensures Load(Compact(log, page), other) == Load(log, other)
  {
    var newest := Newest(log.snaps, page);
    if newest.Some? {
      var kept := NotSubsumed(page, newest.value.hlc);
      match Newest(log.snaps, other)
      case Some(r) =>
        FilterFilter(log.ops, kept, After(other, r.hlc), After(other, r.hlc));
      case None =>
        FilterFilter(log.ops, kept, OpsOf(other), OpsOf(other));
    }
  }

  lemma CompactMaxHlc(log: Log, page: string, other: string)
    requires Numbered(log)
    ensures MaxHlc(Compact(log, page), other) == MaxHlc(log, other)
  {
    var newest := Newest(log.snaps, page);
    if newest.Some? {
      var kept := NotSubsumed(page, newest.value.hlc);
      var ops := Filter(log.ops, kept);
      FilterMembers(log.ops, kept);
      MaxOpBounds(log.ops, other);
      MaxOpBounds(ops, other);
      NewestBounds(log.snaps, other);
      var before := MaxOp(log.ops, other);
      if before.Some? && (other != page || before.value > newest.value.hlc) {
        var r :| r in log.ops && r.page == other && r.hlc == before.value;
        assert r in ops;
      }
    }
  }

  lemma CompactAuthors(log: Log, page: string, other: string)
    ensures exists k :: 0 <= k <= |OpAuthors(log, other)| &&
                        OpAuthors(Compact(log, page), other) == OpAuthors(log, other)[k..]
  {
    var newest := Newest(log.snaps, page);
    var mine := Filter(log.ops, OpsOf(other));
    var sorted := SortBy(mine, ByHlcThenId());
    if newest.None? {
      AuthorsDrop(sorted, 0);
      assert OpAuthors(log, other)[0..] == OpAuthors(log, other);
    } else {
      var kept := NotSubsumed(page, newest.value.hlc);
      ByHlcThenIdTotal();
      SortSorted(mine, ByHlcThenId());
      SortMembers(mine, ByHlcThenId());
      FilterMembers(log.ops, OpsOf(other));
      forall i, j | 0 <= i < j < |sorted| && kept(sorted[i]) ensures kept(sorted[j]) {
        assert sorted[i] in sorted && sorted[j] in sorted;
        assert sorted[i].hlc <= sorted[j].hlc;
      }
      var k := FilterSuffix(sorted, kept);
      var both := (r: OpRow) => kept(r) && r.page == other;
      FilterFilter(log.ops, kept, OpsOf(other), both);
      FilterFilter(log.ops, OpsOf(other), kept, both);
      FilterSort(mine, ByHlcThenId(), kept);
      AuthorsDrop(sorted, k);
      assert OpAuthors(Compact(log, page), other) == Authors(sorted[k..]) == OpAuthors(log, other)[k..];
    }
  }

  lemma CompactTwice(log: Log, page: string)
    ensures Removed(Compact(log, page), page) == []
  {
    var newest := Newest(log.snaps, page);
    if newest.Some? {
      var kept := NotSubsumed(page, newest.value.hlc);
      FilterMembers(log.ops, kept);
      FilterNone(Filter(log.ops, kept), Subsumed(page, newest.value.hlc));
    }
  }

  /**
   Compaction is invisible. Every page loads the same state and keeps its head; the authorship
   timeline loses a prefix; nothing but the reported ops goes; a second sweep finds nothing.
   */
  lemma CompactionInvisible(log: Log, page: string, other: string)
    ensures Load(Compact(log, page), other) == Load(log, other)
    ensures Numbered(log) ==> MaxHlc(Compact(log, page), other) == MaxHlc(log, other)
    ensures exists k :: 0 <= k <= |OpAuthors(log, other)| &&
                        OpAuthors(Compact(log, page), other) == OpAuthors(log, other)[k..]
    ensures |log.ops| == |Compact(log, page).ops| + |Removed(log, page)|
    ensures TotalBytes(log.ops) == TotalBytes(Compact(log, page).ops) + TotalBytes(Removed(log, page))
    ensures Compact(log, page).snaps == log.snaps
    ensures Removed(Compact(log, page), page) == []
  {
    CompactLoad(log, page, other);
    if Numbered(log) {
      CompactMaxHlc(log, page, other);
    }
    CompactAuthors(log, page, other);
    CompactTwice(log, page);
    var newest := Newest(log.snaps, page);
    if newest.Some? {
      FilterSplitsLength(log.ops, NotSubsumed(page, newest.value.hlc), Subsumed(page, newest.value.hlc));
      SplitBytes(log.ops, NotSubsumed(page, newest.value.hlc), Subsumed(page, newest.value.hlc));
    }
  }
}

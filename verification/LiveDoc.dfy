/**
 Live documents over the op log (escurel-crdt/src/livedoc.rs): one actor per page imports ops,
 persists them, snapshots on a committing close, and is rebuilt from what the log holds.

 The CRDT engine is a parameter: an empty document, an import that may refuse a blob, a snapshot
 export, and the page text. All that is required of it is that a snapshot imports back to the
 document it was taken from.
 */
module LiveDoc {

  import opened Wrappers
  import opened Ordering
  import opened OpLog
  import Decimal

  datatype Engine<!Doc> = Engine(
    blank: Doc,
    read: (Doc, Bytes) -> Option<Doc>,
    save: Doc -> Bytes,
    withBody: string -> Doc,
    body: Doc -> string)

  ghost predicate RoundTrips<Doc(!new)>(e: Engine<Doc>) {
    forall d :: e.save(d) != [] && e.read(e.blank, e.save(d)) == Some(d)
  }

  /** Import `ops` in order, stopping at the first refusal. */
  function Replay<Doc>(e: Engine<Doc>, d: Doc, ops: seq<Bytes>): Option<Doc> {
    if ops == [] then Some(d)
    else match e.read(d, ops[0])
         case None => None
         case Some(d') => Replay(e, d', ops[1..])
  }

  /** The document a restart rebuilds for `page`. */
  function Hydrate<Doc>(e: Engine<Doc>, log: Log, page: string): Option<Doc> {
    match Load(log, page)
    case None => Some(e.blank)
    case Some((snap, ops)) =>
      if snap == [] then Replay(e, e.blank, ops)
      else match e.read(e.blank, snap)
           case None => None
           case Some(d) => Replay(e, d, ops)
  }

  // ---- The actor ----

  datatype Session<Doc> = Session(doc: Doc, initial: nat, count: nat)

  datatype Error = EngineRefused | Store(conflict: Conflict) | StoreDown | Closed

  function Count(hlc: int, otherwise: nat): nat {
    if hlc >= 0 then hlc else otherwise
  }

  predicate HadState(log: Log, page: string) {
    match Load(log, page)
    case None => false
    case Some((snap, ops)) => snap != [] || ops != []
  }

  function Open<Doc>(e: Engine<Doc>, log: Log, page: string, seed: Option<string>)
    : Result<(Log, Session<Doc>), Error>
  {
    match Hydrate(e, log, page)
    case None => Err(EngineRefused)
    case Some(d) =>
      if !HadState(log, page) && seed.Some? && seed.value != "" then
        var seeded := e.withBody(seed.value);
        match SnapshotNext(log, page, e.save(seeded))
        case Err(c) => Err(Store(c))
        case Ok(log') =>
          var n := Count(MaxHlc(log', page), 0);
          Ok((log', Session(seeded, n, n)))
      else
        var n := Count(MaxHlc(log, page), 0);
        Ok((log, Session(d, n, n)))
  }

  datatype Applied<Doc> = Applied(log: Log, session: Session<Doc>, reply: Result<nat, Error>)

  /** `up` is whether the store answers; a store that is down inserts nothing. */
  function Apply<Doc>(e: Engine<Doc>, log: Log, page: string, s: Session<Doc>,
                      op: Bytes, principal: Option<string>, up: bool): Applied<Doc>
  {
    match e.read(s.doc, op)
    case None => Applied(log, s, Err(EngineRefused))
    case Some(d) =>
      if !up then Applied(log, s.(doc := d), Err(StoreDown))
      else match AppendOpNext(log, page, op, principal)
           case Err(c) => Applied(log, s.(doc := d), Err(Store(c)))
           case Ok(log') =>
             var n := Count(MaxHlc(log, page) + 1, s.count + 1);
             Applied(log', s.(doc := d, count := n), Ok(n))
  }

  function Close<Doc>(e: Engine<Doc>, log: Log, page: string, s: Session<Doc>, commit: bool, up: bool)
    : Result<Log, Error>
  {
    if commit && s.count > s.initial then
      if !up then Err(StoreDown)
      else match InsertSnapshot(log, SnapRow(page, s.count, e.save(s.doc)))
           case Err(c) => Err(Store(c))
           case Ok(log') => Ok(log')
    else Ok(log)
  }

  // ---- What each write does to `load` ----

  lemma {:induction false} PayloadsConcat(a: seq<OpRow>, b: seq<OpRow>)
    ensures Payloads(a + b) == Payloads(a) + Payloads(b)
  {
    if a == [] {
      assert a + b == b;
    } else {
      assert (a + b)[1..] == a[1..] + b;
      PayloadsConcat(a[1..], b);
    }
  }

  lemma {:induction false} ReplayConcat<Doc>(e: Engine<Doc>, d: Doc, a: seq<Bytes>, b: seq<Bytes>)
    ensures Replay(e, d, a + b) ==
            match Replay(e, d, a) case None => None case Some(m) => Replay(e, m, b)
  {
    if a == [] {
      assert a + b == b;
    } else {
      assert (a + b)[1..] == a[1..] + b;
      if e.read(d, a[0]).Some? {
        ReplayConcat(e, e.read(d, a[0]).value, a[1..], b);
      }
    }
  }

  function NextRow(log: Log, page: string, op: Bytes, principal: Option<string>): OpRow {
    var hlc := MaxHlc(log, page) + 1;
    OpRow(page, OpId(page, hlc), hlc, op, principal)
  }

  /** The op id is free: an op that carried it would carry the hlc it spells. */
  lemma AppendSucceeds(log: Log, page: string, op: Bytes, principal: Option<string>)
    requires Numbered(log)
    ensures AppendOpNext(log, page, op, principal) == Ok(log.(ops := log.ops + [NextRow(log, page, op, principal)]))
    ensures MaxHlc(log, page) >= 0
  {
    var row := NextRow(log, page, op, principal);
    MaxHlcBounds(log, page);
    MaxOpBounds(log.ops, page);
    NewestBounds(log.snaps, page);
    if r :| r in log.ops && r.page == page && r.opId == row.opId {
      assert Decimal.Show(r.hlc) == r.opId[|page| + 1..] == row.opId[|page| + 1..] == Decimal.Show(row.hlc);
      Decimal.ShowInjective(r.hlc, row.hlc);
      assert false;
    }
  }

  lemma LoadAfterAppend(log: Log, page: string, op: Bytes, principal: Option<string>)
    ensures Load(log.(ops := log.ops + [NextRow(log, page, op, principal)]), page) ==
            match Load(log, page)
            case None => Some(([], [op]))
            case Some((snap, ops)) => Some((snap, ops + [op]))
  {
    var row := NextRow(log, page, op, principal);
    MaxHlcBounds(log, page);
    NewestBounds(log.snaps, page);
    var keep := match Newest(log.snaps, page) case None => OpsOf(page) case Some(r) => After(page, r.hlc);
    var rows := Filter(log.ops, keep);
    FilterMembers(log.ops, keep);
    FilterConcat(log.ops, [row], keep);
    assert Filter([row], keep) == [row];
    SortAppendLast(rows, row, ByHlc());
    PayloadsConcat(SortBy(rows, ByHlc()), [row]);
    assert Payloads([row]) == [op];
    assert Payloads(SortBy(Filter(log.ops + [row], keep), ByHlc())) == Payloads(SortBy(rows, ByHlc())) + [op];
  }

  lemma LoadElsewhere(log: Log, log': Log, page: string)
    requires Filter(log'.ops, OpsOf(page)) == Filter(log.ops, OpsOf(page))
    requires Newest(log'.snaps, page) == Newest(log.snaps, page)
    ensures Load(log', page) == Load(log, page)
  {
    match Newest(log.snaps, page)
    case None =>
    case Some(r) =>
      var keep := After(page, r.hlc);
      FilterFilter(log.ops, OpsOf(page), keep, keep);
      FilterFilter(log'.ops, OpsOf(page), keep, keep);
  }

  lemma AppendElsewhere(log: Log, row: OpRow, page: string)
    requires row.page != page
    ensures Load(log.(ops := log.ops + [row]), page) == Load(log, page)
    ensures MaxHlc(log.(ops := log.ops + [row]), page) == MaxHlc(log, page)
  {
    FilterConcat(log.ops, [row], OpsOf(page));
    MaxOpAppend(log.ops, row, page);
    LoadElsewhere(log, log.(ops := log.ops + [row]), page);
  }

  lemma SnapshotElsewhere(log: Log, row: SnapRow, page: string)
    requires row.page != page
    ensures Load(log.(snaps := log.snaps + [row]), page) == Load(log, page)
    ensures MaxHlc(log.(snaps := log.snaps + [row]), page) == MaxHlc(log, page)
  {
    NewestAppend(log.snaps, row, page);
    LoadElsewhere(log, log.(snaps := log.snaps + [row]), page);
  }

  /** A snapshot above every snapshot and no lower than any op replaces the whole state. */
  lemma LoadAfterSnapshot(log: Log, row: SnapRow)
    requires forall r :: r in log.snaps && r.page == row.page ==> r.hlc < row.hlc
    requires forall r :: r in log.ops && r.page == row.page ==> r.hlc <= row.hlc
    ensures InsertSnapshot(log, row) == Ok(log.(snaps := log.snaps + [row]))
    ensures Load(log.(snaps := log.snaps + [row]), row.page) == Some((row.bytes, []))
  {
    NewestAppend(log.snaps, row, row.page);
    NewestBounds(log.snaps, row.page);
    FilterNone(log.ops, After(row.page, row.hlc));
  }

  lemma HydrateAfterAppend<Doc>(e: Engine<Doc>, log: Log, page: string, op: Bytes, principal: Option<string>)
    ensures Hydrate(e, log.(ops := log.ops + [NextRow(log, page, op, principal)]), page) ==
            match Hydrate(e, log, page) case None => None case Some(d) => e.read(d, op)
  {
    LoadAfterAppend(log, page, op, principal);
    var one := [op];
    assert forall d :: Replay(e, d, one) == e.read(d, op) by {
      forall d ensures Replay(e, d, one) == e.read(d, op) {
        assert one[1..] == [];
      }
    }
    match Load(log, page)
    case None =>
    case Some((snap, ops)) =>
      if snap == [] {
        ReplayConcat(e, e.blank, ops, one);
      } else if e.read(e.blank, snap).Some? {
        ReplayConcat(e, e.read(e.blank, snap).value, ops, one);
      }
  }

  lemma HydrateAfterSnapshot<Doc(!new)>(e: Engine<Doc>, log: Log, page: string, hlc: int, d: Doc)
    requires RoundTrips(e)
    requires forall r :: r in log.snaps && r.page == page ==> r.hlc < hlc
    requires forall r :: r in log.ops && r.page == page ==> r.hlc <= hlc
    ensures InsertSnapshot(log, SnapRow(page, hlc, e.save(d))) ==
            Ok(log.(snaps := log.snaps + [SnapRow(page, hlc, e.save(d))]))
    ensures Hydrate(e, log.(snaps := log.snaps + [SnapRow(page, hlc, e.save(d))]), page) == Some(d)
  {
    LoadAfterSnapshot(log, SnapRow(page, hlc, e.save(d)));
  }
}

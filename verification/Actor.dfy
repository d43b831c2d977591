/** The op log and its actors as the objects they are: one store, mutated by every writer. */
module Actor {

  import opened Wrappers
  import opened OpLog
  import opened LiveDoc
  import Recovery
  import Allocation

  /** `DuckdbCrdtBackend`: two tables behind one lock. */
  class Backend {
    var ops: seq<OpRow>
    var snaps: seq<SnapRow>

    ghost function Contents(): Log
      reads this
    {
      Log(ops, snaps)
    }

    constructor ()
      ensures Contents() == Log([], [])
    {
      ops, snaps := [], [];
    }

    method HighestHlc(page: string) returns (hlc: int)
      ensures hlc == MaxHlc(Contents(), page)
      ensures forall r :: r in ops && r.page == page ==> r.hlc <= hlc
      ensures forall r :: r in snaps && r.page == page ==> r.hlc <= hlc
      ensures Numbered(Contents()) && hlc != 0 ==>
                (exists r :: r in ops && r.page == page && r.hlc == hlc) || exists r :: r in snaps && r.page == page && r.hlc == hlc
    {
      if Numbered(Contents()) {
        MaxHlcAttained(Contents(), page);
      }
      hlc := MaxHlc(Log(ops, snaps), page);
      MaxHlcBounds(Contents(), page);
    }

    /** Read the maximum and insert in one critical section. */
    method AppendNext(page: string, op: Bytes, principal: Option<string>) returns (r: Result<int, Conflict>)
      modifies this
      ensures r.Err? ==> Contents() == old(Contents())
      ensures r.Ok? ==> r.value == old(MaxHlc(Contents(), page)) + 1
      ensures r.Ok? ==> AppendOpNext(old(Contents()), page, op, principal) == Ok(Contents())
      ensures old(Numbered(Contents())) ==> r.Ok? && Numbered(Contents()) && MaxHlc(Contents(), page) == r.value
    {
      var hlc := HighestHlc(page);
      var row := OpRow(page, OpId(page, hlc + 1), hlc + 1, op, principal);
      if Numbered(Contents()) {
        ghost var log' := Allocation.Appended(Contents(), page, op, principal);
      }
      if exists o :: o in ops && o.page == page && o.opId == row.opId {
        return Err(OpExists);
      }
      ops := ops + [row];
      return Ok(hlc + 1);
    }

    method Snapshot(page: string, hlc: int, bytes: Bytes) returns (r: Result<(), Conflict>)
      modifies this
      ensures r.Err? ==> Contents() == old(Contents()) && !old(Allocation.Free(Contents(), page, hlc))
      ensures r.Ok? ==> InsertSnapshot(old(Contents()), SnapRow(page, hlc, bytes)) == Ok(Contents())
    {
      if exists s :: s in snaps && s.page == page && s.hlc == hlc {
        return Err(SnapshotExists);
      }
      snaps := snaps + [SnapRow(page, hlc, bytes)];
      return Ok(());
    }

    method SnapshotAtNext(page: string, bytes: Bytes) returns (r: Result<int, Conflict>)
      modifies this
      ensures r == Ok(old(MaxHlc(Contents(), page)) + 1)
      ensures SnapshotNext(old(Contents()), page, bytes) == Ok(Contents())
      ensures old(Numbered(Contents())) ==> Numbered(Contents()) && MaxHlc(Contents(), page) == r.value
    {
      if Numbered(Contents()) {
        ghost var log' := Allocation.Published(Contents(), page, bytes);
      }
      var hlc := HighestHlc(page);
      var done := Snapshot(page, hlc + 1, bytes);
      r := match done case Ok(_) => Ok(hlc + 1) case Err(c) => Err(c);
    }

    /** Measure and delete in one transaction. */
    method CompactSubsumedOps(page: string) returns (count: nat, bytes: nat)
      modifies this
      ensures Contents() == Compact(old(Contents()), page)
      ensures count == |Removed(old(Contents()), page)| == |old(ops)| - |ops|
      ensures bytes == TotalBytes(Removed(old(Contents()), page)) == TotalBytes(old(ops)) - TotalBytes(ops)
    {
      CompactionInvisible(Contents(), page, page);
      var newest := Newest(snaps, page);
      if newest.None? {
        return 0, 0;
      }
      var removed := Removed(Log(ops, snaps), page);
      count, bytes := |removed|, TotalBytes(removed);
      ops := Compact(Log(ops, snaps), page).ops;
    }
  }

  datatype Message =
    | Submit(op: Bytes, principal: Option<string>, up: bool)
    | Shut(commit: bool, up: bool)

  /** The ops of the messages up to a close that the engine takes in turn, from document `d` on. */
  function Taken<Doc>(e: Engine<Doc>, d: Doc, inbox: seq<Message>): seq<Bytes> {
    if inbox == [] || inbox[0].Shut? then []
    else match e.read(d, inbox[0].op)
         case None => Taken(e, d, inbox[1..])
         case Some(d') => [inbox[0].op] + Taken(e, d', inbox[1..])
  }

  /** Those of them whose write the store answers. */
  function Written<Doc>(e: Engine<Doc>, d: Doc, inbox: seq<Message>): seq<Bytes> {
    if inbox == [] || inbox[0].Shut? then []
    else match e.read(d, inbox[0].op)
         case None => Written(e, d, inbox[1..])
         case Some(d') => (if inbox[0].up then [inbox[0].op] else []) + Written(e, d', inbox[1..])
  }

  ghost predicate AllAnswered(inbox: seq<Message>) { forall m :: m in inbox && m.Submit? ==> m.up }

  lemma {:induction false} AllWritten<Doc>(e: Engine<Doc>, d: Doc, inbox: seq<Message>)
    requires AllAnswered(inbox)
    ensures Written(e, d, inbox) == Taken(e, d, inbox)
    decreases |inbox|
  {
    if inbox != [] && inbox[0].Submit? {
      assert inbox[0] in inbox && AllAnswered(inbox[1..]);
      AllWritten(e, d, inbox[1..]);
      if e.read(d, inbox[0].op).Some? {
        AllWritten(e, e.read(d, inbox[0].op).value, inbox[1..]);
      }
    }
  }

  /** With `n` messages served, what is to come follows what there is. */
  ghost predicate Midway<Doc>(e: Engine<Doc>, inbox: seq<Message>, all: seq<Bytes>, stored: seq<Bytes>, d: Doc, n: nat,
                              imported: seq<Bytes>, acked: seq<Bytes>)
    requires n <= |inbox|
  {
    all == imported + Taken(e, d, inbox[n..]) && stored == acked + Written(e, d, inbox[n..])
  }

  lemma ServedOne<Doc>(e: Engine<Doc>, inbox: seq<Message>, all: seq<Bytes>, stored: seq<Bytes>, d: Doc, n: nat,
                       imported: seq<Bytes>, acked: seq<Bytes>, d': Doc, imported': seq<Bytes>, acked': seq<Bytes>)
    requires n < |inbox| && inbox[n].Submit? && Midway(e, inbox, all, stored, d, n, imported, acked)
    requires
      var next := e.read(d, inbox[n].op);
      && imported' == imported + (if next.Some? then [inbox[n].op] else [])
      && acked' == acked + (if next.Some? && inbox[n].up then [inbox[n].op] else [])
      && Some(d') == if next.Some? then next else Some(d)
    ensures Midway(e, inbox, all, stored, d', n + 1, imported', acked')
  {
    assert inbox[n..][0] == inbox[n] && inbox[n..][1..] == inbox[n + 1..];
  }

  lemma ServedEnd<Doc>(e: Engine<Doc>, inbox: seq<Message>, all: seq<Bytes>, stored: seq<Bytes>, d: Doc, n: nat,
                       imported: seq<Bytes>, acked: seq<Bytes>)
    requires n <= |inbox| && (n < |inbox| ==> inbox[n].Shut?) && Midway(e, inbox, all, stored, d, n, imported, acked)
    ensures all == imported && stored == acked
  {
    assert n < |inbox| ==> inbox[n..][0] == inbox[n];
  }

  /** `LiveDoc`: the document of one page, touched by one task. */
  class Actor<Doc(!new)> {
    const engine: Engine<Doc>
    const backend: Backend
    const page: string
    var doc: Doc
    var initial: nat
    var count: nat
    var running: bool
    ghost var base: Doc
    ghost var imported: seq<Bytes>
    ghost var acked: seq<Bytes>

    ghost function State(): Recovery.Live<Doc>
      reads this
    {
      Recovery.Live(Session(doc, initial, count), base, imported, acked)
    }

    ghost predicate Valid()
      reads this, backend
    {
      && RoundTrips(engine)
      && Numbered(backend.Contents())
      && Recovery.Tracks(engine, backend.Contents(), page, State())
    }

    constructor (engine: Engine<Doc>, backend: Backend, page: string, doc: Doc, n: nat)
      requires RoundTrips(engine) && Numbered(backend.Contents())
      requires Hydrate(engine, backend.Contents(), page) == Some(doc)
      requires n == MaxHlc(backend.Contents(), page)
      ensures Valid() && running
      ensures this.engine == engine && this.backend == backend && this.page == page
      ensures State() == Recovery.Live(Session(doc, n, n), doc, [], [])
    {
      this.engine, this.backend, this.page := engine, backend, page;
      this.doc, initial, count, running := doc, n, n, true;
      base, imported, acked := doc, [], [];
    }

    static method Open(engine: Engine<Doc>, backend: Backend, page: string, seed: Option<string>)
      returns (r: Result<Actor<Doc>, Error>)
      requires RoundTrips(engine) && Numbered(backend.Contents())
      modifies backend
      ensures Numbered(backend.Contents())
      ensures r.Err? <==> Hydrate(engine, old(backend.Contents()), page).None?
      ensures r.Ok? ==>
                && fresh(r.value) && r.value.Valid() && r.value.running
                && r.value.backend == backend && r.value.page == page && r.value.engine == engine
                && LiveDoc.Open(engine, old(backend.Contents()), page, seed)
                   == Ok((backend.Contents(), Session(r.value.doc, r.value.initial, r.value.count)))
                && r.value.base == r.value.doc && r.value.imported == r.value.acked == []
                && Some(r.value.doc) == Hydrate(engine, backend.Contents(), page)
      ensures r.Ok? ==>
                Recovery.Step(engine, Recovery.System(old(backend.Contents()), map[]), Recovery.OpenPage(page, seed))
                == Recovery.System(backend.Contents(), map[page := r.value.State()])
      // State that is there is kept and shown, whatever the seed.
      ensures r.Ok? && old(SnapshotsKeyed(backend.Contents()) && Recovery.Stored(backend.Contents(), page)) ==>
                && backend.Contents() == old(backend.Contents())
                && Some(r.value.doc) == Hydrate(engine, old(backend.Contents()), page)
      // A page without any takes a seed that is not empty; with no such seed nothing is written.
      ensures r.Ok? && old(SnapshotsKeyed(backend.Contents()) && !Recovery.Stored(backend.Contents(), page)) ==>
                if seed.Some? && seed.value != "" then r.value.doc == engine.withBody(seed.value)
                else backend.Contents() == old(backend.Contents())
    {
      var log := Log(backend.ops, backend.snaps);
      if SnapshotsKeyed(log) {
        Recovery.HadStateIff(log, page);
      }
      var loaded := Hydrate(engine, log, page);
      if loaded.None? {
        return Err(EngineRefused);
      }
      var d := loaded.value;
      if !HadState(log, page) && seed.Some? && seed.value != "" {
        d := engine.withBody(seed.value);
        ghost var row := Recovery.SnapshotNextLands(engine, log, page, d);
        var written := backend.SnapshotAtNext(page, engine.save(d));
      }
      var hlc := backend.HighestHlc(page);
      Recovery.HeadNonNegative(backend.Contents(), page);
      var a := new Actor(engine, backend, page, d, hlc);
      Recovery.OpenAlone(engine, log, page, seed);
      r := Ok(a);
    }

    /** Import, then persist; an op whose write fails stays imported and unacknowledged. */
    method ApplyOp(op: Bytes, principal: Option<string>, up: bool) returns (r: Result<nat, Error>)
      requires Valid()
      modifies this, backend
      ensures Valid() && running == old(running) && base == old(base)
      ensures LiveDoc.Apply(engine, old(backend.Contents()), page, old(Session(doc, initial, count)), op, principal, up)
              == Applied(backend.Contents(), Session(doc, initial, count), r)
      ensures Recovery.Step(engine, Recovery.System(old(backend.Contents()), map[page := old(State())]),
                            Recovery.ApplyOp(page, op, principal, up))
              == Recovery.System(backend.Contents(), map[page := State()])
      ensures r.Ok? ==> acked == old(acked) + [op] && imported == old(imported) + [op]
      ensures r.Err? ==> acked == old(acked)
      ensures r.Ok? <==> up && engine.read(old(doc), op).Some?
      ensures imported == old(imported) + if engine.read(old(doc), op).Some? then [op] else []
      ensures up && old(acked == imported) ==> acked == imported
    {
      ghost var log, l := backend.Contents(), State();
      var next := engine.read(doc, op);
      if next.None? {
        assert imported + [] == imported && acked + [] == acked;
        Recovery.ApplyAlone(engine, log, page, l, op, principal, up, l);
        return Err(EngineRefused);
      }
      if !up {
        Recovery.LostAckTracks(engine, backend.Contents(), page, State(), op);
        doc, imported := next.value, imported + [op];
        assert acked + [] == acked;
        Recovery.ApplyAlone(engine, log, page, l, op, principal, up, State());
        return Err(StoreDown);
      }
      Recovery.AckTracks(engine, backend.Contents(), page, State(), op, principal);
      var hlc := backend.AppendNext(page, op, principal);
      doc, imported, acked := next.value, imported + [op], acked + [op];
      count := Count(hlc.value, count + 1);
      Recovery.ApplyAlone(engine, log, page, l, op, principal, up, State());
      return Ok(count);
    }

    /** A restart after the close rebuilds the document whenever it could before, or the commit wrote it. */
    method Close(commit: bool, up: bool) returns (r: Result<nat, Error>)
      requires Valid()
      modifies this, backend
      ensures !running && doc == old(doc)
      ensures Numbered(backend.Contents())
      ensures match LiveDoc.Close(engine, old(backend.Contents()), page, old(Session(doc, initial, count)), commit, up)
              case Ok(log) => backend.Contents() == log && r == Ok(old(count))
              case Err(e) => backend.Contents() == old(backend.Contents()) && r == Err(e)
      ensures Recovery.Step(engine, Recovery.System(old(backend.Contents()), map[page := old(State())]),
                            Recovery.ClosePage(page, commit, up))
              == Recovery.System(backend.Contents(), map[])
      ensures MaxHlc(backend.Contents(), page) == old(MaxHlc(backend.Contents(), page))
      ensures !commit || !up || old(acked == []) ==> backend.Contents() == old(backend.Contents())
      ensures r.Err? <==> commit && !up && old(acked != [])
      ensures imported == old(imported) && acked == old(acked) && base == old(base)
      ensures old(acked == imported || (commit && up && acked != [])) ==>
                Hydrate(engine, backend.Contents(), page) == Some(doc)
    {
      running := false;
      if !commit || count <= initial {
        return Ok(count);
      }
      if !up {
        return Err(StoreDown);
      }
      MaxHlcBounds(backend.Contents(), page);
      HydrateAfterSnapshot(engine, backend.Contents(), page, count, doc);
      ghost var settled := Allocation.Settled(backend.Contents(), page, count, engine.save(doc));
      var done := backend.Snapshot(page, count, engine.save(doc));
      return Ok(count);
    }

    /** One message: an op keeps the actor running, a close stops it. */
    method Handle(m: Message)
      requires Valid() && running
      modifies this, backend
      ensures m.Submit? ==> running && Valid() && (m.up && old(acked == imported) ==> acked == imported)
      ensures m.Submit? ==>
                var next := engine.read(old(doc), m.op);
                && imported == old(imported) + (if next.Some? then [m.op] else [])
                && acked == old(acked) + (if next.Some? && m.up then [m.op] else [])
                && Some(doc) == if next.Some? then next else Some(old(doc))
      ensures m.Shut? ==> imported == old(imported) && acked == old(acked) && base == old(base) && doc == old(doc)
      ensures base == old(base)
      ensures m.Shut? ==>
                !running && (old(acked == imported) ==> Hydrate(engine, backend.Contents(), page) == Some(doc))
    {
      match m
      case Submit(op, principal, up) =>
        var r := ApplyOp(op, principal, up);
        assert r.Err? ==> acked == old(acked) + [];
      case Shut(commit, up) =>
        var _ := Close(commit, up);
    }

    /** The actor loop: serve messages until a close or the last handle drops. */
    method Serve(inbox: seq<Message>) returns (served: nat)
      requires Valid() && running
      modifies this, backend
      ensures served <= |inbox|
      ensures running ==> served == |inbox| && Valid()
      ensures !running ==> served >= 1 && inbox[served - 1].Shut?
      ensures forall i :: 0 <= i < served - (if running then 0 else 1) ==> inbox[i].Submit?
      ensures imported == old(imported) + Taken(engine, old(doc), inbox)
      ensures acked == old(acked) + Written(engine, old(doc), inbox)
      ensures base == old(base)
      ensures AllAnswered(inbox) && old(acked == imported) ==>
                Hydrate(engine, backend.Contents(), page) == Some(doc)
    {
      ghost var all, stored := imported + Taken(engine, doc, inbox), acked + Written(engine, doc, inbox);
      if AllAnswered(inbox) {
        AllWritten(engine, doc, inbox);
      }
      served := 0;
      assert inbox[0..] == inbox;
      while served < |inbox|
        invariant served <= |inbox| && running && Valid() && base == old(base)
        invariant forall i :: 0 <= i < served ==> inbox[i].Submit?
        invariant Midway(engine, inbox, all, stored, doc, served, imported, acked)
      {
        var m := inbox[served];
        ghost var d, i, a := doc, imported, acked;
        served := served + 1;
        Handle(m);
        if m.Shut? {
          ServedEnd(engine, inbox, all, stored, d, served - 1, i, a);
          return;
        }
        ServedOne(engine, inbox, all, stored, d, served - 1, i, a, doc, imported, acked);
      }
      ServedEnd(engine, inbox, all, stored, doc, served, imported, acked);
      if acked == imported {
        Recovers();
      }
    }

    /** With everything acknowledged, a restart rebuilds the document. */
    lemma Recovers()
      requires Valid() && acked == imported
      ensures Hydrate(engine, backend.Contents(), page) == Some(doc)
    {}
  }
}

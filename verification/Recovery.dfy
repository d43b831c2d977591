/**
 Crash recovery of live documents, over every run: opens (seeded or not), applies whose write may
 fail, compactions at any moment, closes with or without commit, crashes, and whole-page writes, on
 any number of pages with at most one live actor each.
 */
module Recovery {

  import opened Wrappers
  import opened Ordering
  import opened OpLog
  import opened LiveDoc
  import Decimal

  /** A live actor with its history: what it started from, imported, and saw acknowledged. */
  datatype Live<Doc> = Live(session: Session<Doc>, base: Doc, imported: seq<Bytes>, acked: seq<Bytes>)

  datatype System<Doc> = System(log: Log, live: map<string, Live<Doc>>)

  datatype Command =
    | OpenPage(page: string, seed: Option<string>)
    | ApplyOp(page: string, op: Bytes, principal: Option<string>, up: bool)
    | ClosePage(page: string, commit: bool, up: bool)
    | Crash(page: string)
    | CompactPage(page: string)
    | WritePage(page: string, text: string)

  function Step<Doc>(e: Engine<Doc>, sys: System<Doc>, cmd: Command): System<Doc> {
    match cmd
    case OpenPage(page, seed) =>
      if page in sys.live then sys
      else (match Open(e, sys.log, page, seed)
            case Err(_) => sys
            case Ok((log, s)) => System(log, sys.live[page := Live(s, s.doc, [], [])]))
    case ApplyOp(page, op, principal, up) =>
      if page !in sys.live then sys
      else
        var l := sys.live[page];
        var a := Apply(e, sys.log, page, l.session, op, principal, up);
        var imported := if e.read(l.session.doc, op).Some? then l.imported + [op] else l.imported;
        var acked := if a.reply.Ok? then l.acked + [op] else l.acked;
        System(a.log, sys.live[page := Live(a.session, l.base, imported, acked)])
    case ClosePage(page, commit, up) =>
      if page !in sys.live then sys
      else (match Close(e, sys.log, page, sys.live[page].session, commit, up)
            case Err(_) => System(sys.log, sys.live - {page})
            case Ok(log) => System(log, sys.live - {page}))
    case Crash(page) => System(sys.log, sys.live - {page})
    case CompactPage(page) => sys.(log := Compact(sys.log, page))
    case WritePage(page, text) =>
      (match SnapshotNext(sys.log, page, e.save(e.withBody(text)))
       case Err(_) => sys
       case Ok(log) => sys.(log := log))
  }

  function Run<Doc>(e: Engine<Doc>, sys: System<Doc>, cmds: seq<Command>): System<Doc>
    decreases |cmds|
  {
    if cmds == [] then sys else Run(e, Step(e, sys, cmds[0]), cmds[1..])
  }

  /** No whole-page write lands on a page while its actor is live. */
  ghost predicate Exclusive<Doc>(e: Engine<Doc>, sys: System<Doc>, cmds: seq<Command>)
    decreases |cmds|
  {
    cmds == [] || (
      && (cmds[0].WritePage? ==> cmds[0].page !in sys.live)
      && Exclusive(e, Step(e, sys, cmds[0]), cmds[1..]))
  }

  // ---- One page on its own ----

  lemma ApplyAlone<Doc>(e: Engine<Doc>, log: Log, page: string, l: Live<Doc>, op: Bytes, principal: Option<string>, up: bool, l': Live<Doc>)
    requires
      var a := Apply(e, log, page, l.session, op, principal, up);
      && l'.session == a.session && l'.base == l.base
      && l'.imported == l.imported + (if e.read(l.session.doc, op).Some? then [op] else [])
      && l'.acked == l.acked + if a.reply.Ok? then [op] else []
    ensures Step(e, System(log, map[page := l]), ApplyOp(page, op, principal, up)) ==
            System(Apply(e, log, page, l.session, op, principal, up).log, map[page := l'])
  {
    assert l.imported + [] == l.imported && l.acked + [] == l.acked;
    assert map[page := l][page := l'] == map[page := l'];
  }

  lemma OpenAlone<Doc>(e: Engine<Doc>, log: Log, page: string, seed: Option<string>)
    requires Open(e, log, page, seed).Ok?
    ensures
      var (log', s) := Open(e, log, page, seed).value;
      Step(e, System(log, map[]), OpenPage(page, seed)) == System(log', map[page := Live(s, s.doc, [], [])])
  {}

  // ---- The invariant ----

  ghost predicate Tracks<Doc>(e: Engine<Doc>, log: Log, page: string, l: Live<Doc>) {
    && Hydrate(e, log, page) == Replay(e, l.base, l.acked)
    && Replay(e, l.base, l.imported) == Some(l.session.doc)
    && l.session.initial <= l.session.count == MaxHlc(log, page)
    && (l.session.count == l.session.initial <==> l.acked == [])
    && (l.acked != [] ==> forall r :: r in log.snaps && r.page == page ==> r.hlc < l.session.count)
  }

  ghost predicate Inv<Doc>(e: Engine<Doc>, sys: System<Doc>) {
    && Numbered(sys.log)
    && forall p :: p in sys.live ==> Tracks(e, sys.log, p, sys.live[p])
  }

  /** Nothing about `page` changed. */
  ghost predicate Undisturbed(log: Log, log': Log, page: string) {
    && Load(log', page) == Load(log, page)
    && MaxHlc(log', page) == MaxHlc(log, page)
    && forall r :: r in log'.snaps && r.page == page ==> r in log.snaps
  }

  lemma TracksOn<Doc>(e: Engine<Doc>, log: Log, log': Log, page: string, l: Live<Doc>)
    requires Tracks(e, log, page, l) && Undisturbed(log, log', page)
    ensures Tracks(e, log', page, l)
  {}

  /** A snapshot row added for `page` leaves every other actor's invariant alone. */
  lemma SnapshotRowKeeps<Doc>(e: Engine<Doc>, sys: System<Doc>, row: SnapRow, log': Log)
    requires Inv(e, sys) && row.hlc >= 1 && log' == sys.log.(snaps := sys.log.snaps + [row])
    ensures Numbered(log')
    ensures forall p :: p in sys.live && p != row.page ==> Tracks(e, log', p, sys.live[p])
  {
    forall p | p in sys.live && p != row.page ensures Tracks(e, log', p, sys.live[p]) {
      SnapshotElsewhere(sys.log, row, p);
      TracksOn(e, sys.log, log', p, sys.live[p]);
    }
  }

  lemma OpRowKeeps<Doc>(e: Engine<Doc>, sys: System<Doc>, row: OpRow, log': Log)
    requires Inv(e, sys) && row.hlc >= 1 && row.opId == OpId(row.page, row.hlc)
    requires log' == sys.log.(ops := sys.log.ops + [row])
    ensures Numbered(log')
    ensures forall p :: p in sys.live && p != row.page ==> Tracks(e, log', p, sys.live[p])
  {
    forall p | p in sys.live && p != row.page ensures Tracks(e, log', p, sys.live[p]) {
      AppendElsewhere(sys.log, row, p);
      TracksOn(e, sys.log, log', p, sys.live[p]);
    }
  }

  lemma HeadNonNegative(log: Log, page: string)
    requires Numbered(log)
    ensures MaxHlc(log, page) >= 0
  {
    MaxOpBounds(log.ops, page);
    NewestBounds(log.snaps, page);
  }

  /** A snapshot at the next hlc always lands, becomes the head, and is what a restart rebuilds. */
  lemma SnapshotNextLands<Doc(!new)>(e: Engine<Doc>, log: Log, page: string, d: Doc) returns (row: SnapRow)
    requires RoundTrips(e) && Numbered(log)
    ensures row == SnapRow(page, MaxHlc(log, page) + 1, e.save(d)) && row.hlc >= 1
    ensures SnapshotNext(log, page, e.save(d)) == Ok(log.(snaps := log.snaps + [row]))
    ensures Hydrate(e, log.(snaps := log.snaps + [row]), page) == Some(d)
    ensures MaxHlc(log.(snaps := log.snaps + [row]), page) == row.hlc
  {
    row := SnapRow(page, MaxHlc(log, page) + 1, e.save(d));
    HeadNonNegative(log, page);
    MaxHlcBounds(log, page);
    HydrateAfterSnapshot(e, log, page, row.hlc, d);
    NewestAppend(log.snaps, row, page);
  }

  /** The store holds an op of the page above its newest snapshot, or a newest snapshot with something in it. */
  ghost predicate Stored(log: Log, page: string) {
    || (exists r :: r in log.ops && r.page == page && forall s :: s in log.snaps && s.page == page ==> s.hlc < r.hlc)
    || (exists s :: s in log.snaps && s.page == page && s.bytes != []
                    && forall s' :: s' in log.snaps && s'.page == page ==> s'.hlc <= s.hlc)
  }

  lemma {:induction false} PayloadsLength(rows: seq<OpRow>)
    ensures |Payloads(rows)| == |rows|
  {
    if rows != [] {
      PayloadsLength(rows[1..]);
    }
  }

  lemma SomeOps(log: Log, page: string, p: OpRow -> bool)
    ensures Payloads(SortBy(Filter(log.ops, p), ByHlc())) != [] <==> exists r :: r in log.ops && p(r)
  {
    var rows := Filter(log.ops, p);
    PayloadsLength(SortBy(rows, ByHlc()));
    SortPerm(rows, ByHlc());
    FilterMembers(log.ops, p);
    if rows != [] {
      assert rows[0] in rows;
    }
  }

  lemma HadStateIff(log: Log, page: string)
    requires SnapshotsKeyed(log)
    ensures HadState(log, page) <==> Stored(log, page)
  {
    NewestBounds(log.snaps, page);
    match Newest(log.snaps, page)
    case Some(n) =>
      SomeOps(log, page, After(page, n.hlc));
      if r :| r in log.ops && After(page, n.hlc)(r) {
        assert forall s :: s in log.snaps && s.page == page ==> s.hlc < r.hlc;
      }
    case None => SomeOps(log, page, OpsOf(page));
  }

  /**
   What an open does: state that is there is kept and shown, whatever the seed; a page without any takes
   a seed that is not empty, and a restart rebuilds it; otherwise nothing is written.
   */
  lemma OpenMeans<Doc(!new)>(e: Engine<Doc>, log: Log, page: string, seed: Option<string>)
    requires RoundTrips(e) && Numbered(log) && SnapshotsKeyed(log)
    ensures Open(e, log, page, seed).Err? <==> Hydrate(e, log, page).None?
    ensures Open(e, log, page, seed).Ok? ==>
              var (log', s) := Open(e, log, page, seed).value;
              && (if !Stored(log, page) && seed.Some? && seed.value != "" then
                    && s.doc == e.withBody(seed.value)
                    && MaxHlc(log', page) == MaxHlc(log, page) + 1
                  else log' == log)
              && Some(s.doc) == Hydrate(e, log', page)
              && s.initial == s.count == MaxHlc(log', page)
  {
    HadStateIff(log, page);
    HeadNonNegative(log, page);
    if seed.Some? {
      var row := SnapshotNextLands(e, log, page, e.withBody(seed.value));
    }
  }

  lemma OpenKeeps<Doc(!new)>(e: Engine<Doc>, sys: System<Doc>, page: string, seed: Option<string>)
    requires RoundTrips(e) && Inv(e, sys)
    ensures Inv(e, Step(e, sys, OpenPage(page, seed)))
  {
    var sys' := Step(e, sys, OpenPage(page, seed));
    if page in sys.live || Open(e, sys.log, page, seed).Err? {
      return;
    }
    HeadNonNegative(sys.log, page);
    if !HadState(sys.log, page) && seed.Some? && seed.value != "" {
      var row := SnapshotNextLands(e, sys.log, page, e.withBody(seed.value));
      SnapshotRowKeeps(e, sys, row, sys'.log);
    }
    assert Tracks(e, sys'.log, page, sys'.live[page]);
  }

  /** An acknowledged op extends the log and the actor's document in step. */
  lemma AckTracks<Doc(!new)>(e: Engine<Doc>, log: Log, page: string, l: Live<Doc>, op: Bytes, principal: Option<string>)
    requires Numbered(log) && Tracks(e, log, page, l) && e.read(l.session.doc, op).Some?
    ensures
      var a := Apply(e, log, page, l.session, op, principal, true);
      && a.reply.Ok?
      && a.log == log.(ops := log.ops + [NextRow(log, page, op, principal)])
      && Tracks(e, a.log, page, Live(a.session, l.base, l.imported + [op], l.acked + [op]))
  {
    AppendSucceeds(log, page, op, principal);
    HydrateAfterAppend(e, log, page, op, principal);
    ReplayConcat(e, l.base, l.imported, [op]);
    ReplayConcat(e, l.base, l.acked, [op]);
    assert [op][1..] == [];
    MaxHlcBounds(log, page);
    MaxOpAppend(log.ops, NextRow(log, page, op, principal), page);
  }

  /**
   What an apply does: the engine's refusal changes nothing; otherwise the document takes the op, and it is
   acknowledged, one above the head, exactly when the store answers, which then holds one op more, its author's.
   */
  lemma ApplyMeans<Doc(!new)>(e: Engine<Doc>, log: Log, page: string, s: Session<Doc>, op: Bytes, principal: Option<string>, up: bool)
    requires Numbered(log)
    ensures
      var a := Apply(e, log, page, s, op, principal, up);
      && (a.reply.Ok? <==> up && e.read(s.doc, op).Some?)
      && Some(a.session.doc) == (if e.read(s.doc, op).Some? then e.read(s.doc, op) else Some(s.doc))
      && a.session.initial == s.initial && a.log.snaps == log.snaps
      && (a.reply.Err? ==> a.log == log && a.session.count == s.count)
      && (a.reply.Ok? ==>
            && a.session.count == a.reply.value == MaxHlc(log, page) + 1
            && exists row ::
                 && a.log.ops == log.ops + [row] && row.page == page && row.bytes == op && row.principal == principal
                 && row.hlc == a.reply.value && row.opId == page + ":" + Decimal.Show(row.hlc))
  {
    AppendSucceeds(log, page, op, principal);
    HeadNonNegative(log, page);
    var row := NextRow(log, page, op, principal);
    assert log.(ops := log.ops + [row]).ops == log.ops + [row];
  }

  /**
   What a close writes: nothing without a commit or without an acknowledged op, and otherwise, if the store
   answers, one snapshot of the document at the page's head.
   */
  lemma CloseMeans<Doc(!new)>(e: Engine<Doc>, log: Log, page: string, l: Live<Doc>, commit: bool, up: bool)
    requires Numbered(log) && Tracks(e, log, page, l)
    ensures Close(e, log, page, l.session, commit, up) ==
            if !commit || l.acked == [] then Ok(log)
            else if !up then Err(StoreDown)
            else Ok(Log(log.ops, log.snaps + [SnapRow(page, MaxHlc(log, page), e.save(l.session.doc))]))
  {}

  lemma LostAckTracks<Doc(!new)>(e: Engine<Doc>, log: Log, page: string, l: Live<Doc>, op: Bytes)
    requires Tracks(e, log, page, l) && e.read(l.session.doc, op).Some?
    ensures Tracks(e, log, page, Live(l.session.(doc := e.read(l.session.doc, op).value), l.base, l.imported + [op], l.acked))
  {
    ReplayConcat(e, l.base, l.imported, [op]);
    assert [op][1..] == [];
  }

  lemma ApplyKeeps<Doc(!new)>(e: Engine<Doc>, sys: System<Doc>, page: string, op: Bytes, principal: Option<string>, up: bool)
    requires Inv(e, sys)
    ensures Inv(e, Step(e, sys, ApplyOp(page, op, principal, up)))
  {
    if page in sys.live && e.read(sys.live[page].session.doc, op).Some? {
      var l := sys.live[page];
      if up {
        HeadNonNegative(sys.log, page);
        AckTracks(e, sys.log, page, l, op, principal);
        OpRowKeeps(e, sys, NextRow(sys.log, page, op, principal), Step(e, sys, ApplyOp(page, op, principal, up)).log);
      } else {
        LostAckTracks(e, sys.log, page, l, op);
      }
    }
  }

  /** A committing close of an actor that saw an op acknowledged stores exactly its document. */
  lemma CloseStores<Doc(!new)>(e: Engine<Doc>, sys: System<Doc>, page: string)
    requires RoundTrips(e) && Inv(e, sys) && page in sys.live && sys.live[page].acked != []
    ensures Close(e, sys.log, page, sys.live[page].session, true, true).Ok?
    ensures Hydrate(e, Step(e, sys, ClosePage(page, true, true)).log, page) == Some(sys.live[page].session.doc)
  {
    MaxHlcBounds(sys.log, page);
    var s := sys.live[page].session;
    HydrateAfterSnapshot(e, sys.log, page, s.count, s.doc);
  }

  lemma CloseKeeps<Doc(!new)>(e: Engine<Doc>, sys: System<Doc>, page: string, commit: bool, up: bool)
    requires RoundTrips(e) && Inv(e, sys)
    ensures Inv(e, Step(e, sys, ClosePage(page, commit, up)))
  {
    if page in sys.live {
      var s := sys.live[page].session;
      var closed := Close(e, sys.log, page, s, commit, up);
      if closed.Ok? && commit && s.count > s.initial {
        SnapshotRowKeeps(e, sys, SnapRow(page, s.count, e.save(s.doc)), closed.value);
      }
    }
  }

  lemma WriteKeeps<Doc(!new)>(e: Engine<Doc>, sys: System<Doc>, page: string, text: string)
    requires RoundTrips(e) && Inv(e, sys) && page !in sys.live
    ensures Inv(e, Step(e, sys, WritePage(page, text)))
  {
    var row := SnapshotNextLands(e, sys.log, page, e.withBody(text));
    SnapshotRowKeeps(e, sys, row, Step(e, sys, WritePage(page, text)).log);
  }

  lemma CompactKeeps<Doc(!new)>(e: Engine<Doc>, sys: System<Doc>, page: string)
    requires Inv(e, sys)
    ensures Inv(e, Step(e, sys, CompactPage(page)))
  {
    var log' := Compact(sys.log, page);
    forall p | p in sys.live ensures Tracks(e, log', p, sys.live[p]) {
      CompactionInvisible(sys.log, page, p);
      TracksOn(e, sys.log, log', p, sys.live[p]);
    }
    if Newest(sys.log.snaps, page).Some? {
      FilterMembers(sys.log.ops, NotSubsumed(page, Newest(sys.log.snaps, page).value.hlc));
    }
  }

  lemma StepKeeps<Doc(!new)>(e: Engine<Doc>, sys: System<Doc>, cmd: Command)
    requires RoundTrips(e) && Inv(e, sys)
    requires cmd.WritePage? ==> cmd.page !in sys.live
    ensures Inv(e, Step(e, sys, cmd))
  {
    match cmd
    case OpenPage(page, seed) => OpenKeeps(e, sys, page, seed);
    case ApplyOp(page, op, principal, up) => ApplyKeeps(e, sys, page, op, principal, up);
    case ClosePage(page, commit, up) => CloseKeeps(e, sys, page, commit, up);
    case Crash(page) =>
    case CompactPage(page) => CompactKeeps(e, sys, page);
    case WritePage(page, text) => WriteKeeps(e, sys, page, text);
  }

  lemma {:induction false} RunKeeps<Doc(!new)>(e: Engine<Doc>, sys: System<Doc>, cmds: seq<Command>)
    requires RoundTrips(e) && Inv(e, sys) && Exclusive(e, sys, cmds)
    ensures Inv(e, Run(e, sys, cmds))
    decreases |cmds|
  {
    if cmds != [] {
      StepKeeps(e, sys, cmds[0]);
      RunKeeps(e, Step(e, sys, cmds[0]), cmds[1..]);
    }
  }

  // ---- The theorem ----

  /**
   Over every run, what a restart rebuilds for a page with a live actor is its starting document
   with exactly the acknowledged ops imported; it is the actor's own document when every op the
   actor imported was acknowledged. After a committing close it is the actor's document, even with
   ops that were not acknowledged, exactly when some op was, or the document is still the starting one.
   */
  lemma CrashRecovery<Doc(!new)>(e: Engine<Doc>, log: Log, cmds: seq<Command>, page: string)
    requires RoundTrips(e) && Numbered(log) && Exclusive(e, System(log, map[]), cmds)
    ensures
      var sys := Run(e, System(log, map[]), cmds);
      page in sys.live ==>
        var l := sys.live[page];
        && Hydrate(e, sys.log, page) == Replay(e, l.base, l.acked)
        && (l.acked == l.imported ==> Hydrate(e, sys.log, page) == Some(l.session.doc))
        && (Hydrate(e, Step(e, sys, ClosePage(page, true, true)).log, page) == Some(l.session.doc) <==>
            l.acked != [] || l.session.doc == l.base)
  {
    var start: System<Doc> := System(log, map[]);
    RunKeeps(e, start, cmds);
    var sys := Run(e, start, cmds);
    if page in sys.live && sys.live[page].acked != [] {
      CloseStores(e, sys, page);
    }
  }

  // ---- Runs whose store always answers ----

  /** Every op an actor imported was acknowledged. */
  ghost predicate InSync<Doc>(sys: System<Doc>) {
    forall p :: p in sys.live ==> sys.live[p].acked == sys.live[p].imported
  }

  lemma StepInSync<Doc(!new)>(e: Engine<Doc>, sys: System<Doc>, cmd: Command)
    requires Inv(e, sys) && InSync(sys) && (cmd.ApplyOp? ==> cmd.up)
    ensures InSync(Step(e, sys, cmd))
  {
    if cmd.ApplyOp? && cmd.page in sys.live && e.read(sys.live[cmd.page].session.doc, cmd.op).Some? {
      AckTracks(e, sys.log, cmd.page, sys.live[cmd.page], cmd.op, cmd.principal);
    }
  }

  lemma {:induction false} RunInSync<Doc(!new)>(e: Engine<Doc>, sys: System<Doc>, cmds: seq<Command>)
    requires RoundTrips(e) && Inv(e, sys) && Exclusive(e, sys, cmds)
    requires forall c :: c in cmds && c.ApplyOp? ==> c.up
    requires InSync(sys)
    ensures InSync(Run(e, sys, cmds))
    decreases |cmds|
  {
    if cmds != [] {
      StepKeeps(e, sys, cmds[0]);
      StepInSync(e, sys, cmds[0]);
      RunInSync(e, Step(e, sys, cmds[0]), cmds[1..]);
    }
  }

  /** When no write fails, a restart at any point of any run rebuilds each live actor's document. */
  lemma RecoversEverything<Doc(!new)>(e: Engine<Doc>, log: Log, cmds: seq<Command>, page: string)
    requires RoundTrips(e) && Numbered(log) && Exclusive(e, System(log, map[]), cmds)
    requires forall c :: c in cmds && c.ApplyOp? ==> c.up
    ensures
      var sys := Run(e, System(log, map[]), cmds);
      page in sys.live ==> Hydrate(e, sys.log, page) == Some(sys.live[page].session.doc)
  {
    RunInSync(e, System(log, map[]), cmds);
    CrashRecovery(e, log, cmds, page);
  }

  /** Closing, with or without commit, even when the snapshot cannot be written, loses nothing. */
  lemma CloseRecovers<Doc(!new)>(e: Engine<Doc>, sys: System<Doc>, page: string, commit: bool, up: bool)
    requires RoundTrips(e) && Inv(e, sys) && page in sys.live
    requires sys.live[page].acked == sys.live[page].imported
    ensures Hydrate(e, Step(e, sys, ClosePage(page, commit, up)).log, page) == Some(sys.live[page].session.doc)
  {
    if commit && up && sys.live[page].acked != [] {
      CloseStores(e, sys, page);
    }
  }

  // ---- Where recovery stops ----

  /** A whole-page write under a live actor replaces what a restart rebuilds. */
  lemma ForeignWrite<Doc(!new)>(e: Engine<Doc>, sys: System<Doc>, page: string, text: string)
    requires RoundTrips(e) && Inv(e, sys) && page in sys.live
    ensures
      var sys' := Step(e, sys, WritePage(page, text));
      Hydrate(e, sys'.log, page) == Some(sys'.live[page].session.doc) <==>
      e.withBody(text) == sys.live[page].session.doc
  {
    var row := SnapshotNextLands(e, sys.log, page, e.withBody(text));
  }

  /** After an op whose write failed, a restart rebuilds the actor's document iff the op did not change it. */
  lemma UnstoredOpIff<Doc(!new)>(e: Engine<Doc>, sys: System<Doc>, page: string, op: Bytes, principal: Option<string>)
    requires RoundTrips(e) && Inv(e, sys) && page in sys.live && sys.live[page].acked == sys.live[page].imported
    ensures
      var sys' := Step(e, sys, ApplyOp(page, op, principal, false));
      && page in sys'.live
      && (Hydrate(e, sys'.log, page) == Some(sys'.live[page].session.doc) <==>
          var d := e.read(sys.live[page].session.doc, op);
          d.None? || d.value == sys.live[page].session.doc)
  {
    var l := sys.live[page];
    assert Tracks(e, sys.log, page, l);
  }

  /** A document that is a string of bytes; a blob starting with 0 is a snapshot, any other an edit. */
  function ByteEngine(): Engine<Bytes> {
    Engine(
      [],
      (d: Bytes, b: Bytes) =>
        if b == [] then None else if b[0] == 0 then Some(b[1..]) else Some(d + b),
      (d: Bytes) => [0] + d,
      (text: string) => seq(|text|, i => 1),
      (d: Bytes) => "")
  }

  /** An op that was imported but not stored is in the actor's document and in no restart's. */
  lemma UnstoredOpIsLost()
    ensures RoundTrips(ByteEngine())
    ensures
      var e := ByteEngine();
      var cmds := [OpenPage("p", None), ApplyOp("p", [7], None, false)];
      var sys := Run(e, System(Log([], []), map[]), cmds);
      && "p" in sys.live
      && sys.live["p"].session.doc == [7]
      && Hydrate(e, sys.log, "p") == Some([])
  {
    var e := ByteEngine();
    forall d: Bytes ensures e.save(d) != [] && e.read(e.blank, e.save(d)) == Some(d) {
      assert ([0] + d)[1..] == d;
    }
    var cmds := [OpenPage("p", None), ApplyOp("p", [7], None, false)];
    var sys0: System<Bytes> := System(Log([], []), map[]);
    var sys1 := Step(e, sys0, cmds[0]);
    assert sys1.live["p"].session.doc == [];
    var sys2 := Step(e, sys1, cmds[1]);
    assert cmds[1..] == [cmds[1]] && cmds[1..][1..] == [];
    assert Run(e, sys1, cmds[1..]) == Run(e, sys2, []) == sys2;
    assert [] + [7] == [7];
  }
}

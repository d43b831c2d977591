/**
 Version allocation (escurel-crdt/src/backend.rs, livedoc.rs, reconciler.rs): any number of sessions
 per page, whole-page writes, atomic reconciles, close-time snapshots and compactions, interleaved
 in any order.
 */
module Allocation {

  import opened Wrappers
  import opened Ordering
  import opened OpLog
  import opened LiveDoc
  import Recovery
  import Decimal

  /** What a session remembers of the log. */
  datatype Handle = Handle(page: string, initial: int, count: int)

  /** `issued` is every hlc handed out so far, with its page, oldest first. */
  datatype State = State(log: Log, sessions: map<nat, Handle>, issued: seq<(string, int)>)

  datatype Action =
    | Begin(id: nat, page: string, seed: Option<Bytes>)
    | Edit(id: nat, op: Bytes, principal: Option<string>)
    | End(id: nat, commit: bool, snapshot: Bytes)
    | WholePage(page: string, snapshot: Bytes)
    | Reconcile(page: string, snapshot: Bytes)
    | Sweep(page: string)

  function Issue(s: State, page: string): seq<(string, int)> {
    s.issued + [(page, MaxHlc(s.log, page) + 1)]
  }

  function Next(s: State, a: Action): Result<State, Conflict> {
    match a
    case Begin(id, page, seed) =>
      if id in s.sessions then Ok(s)
      else (match seed
            case None => Ok(s.(sessions := s.sessions[id := Handle(page, MaxHlc(s.log, page), MaxHlc(s.log, page))]))
            case Some(b) =>
              match SnapshotNext(s.log, page, b)
              case Err(c) => Err(c)
              case Ok(log) =>
                var n := MaxHlc(log, page);
                Ok(State(log, s.sessions[id := Handle(page, n, n)], Issue(s, page))))
    case Edit(id, op, principal) =>
      if id !in s.sessions then Ok(s)
      else
        var h := s.sessions[id];
        (match AppendOpNext(s.log, h.page, op, principal)
         case Err(c) => Err(c)
         case Ok(log) =>
           var n := MaxHlc(s.log, h.page) + 1;
           Ok(State(log, s.sessions[id := h.(count := n)], Issue(s, h.page))))
    case End(id, commit, snapshot) =>
      if id !in s.sessions then Ok(s)
      else
        var h := s.sessions[id];
        var left := s.sessions - {id};
        if !commit || h.count <= h.initial then Ok(s.(sessions := left))
        else (match InsertSnapshot(s.log, SnapRow(h.page, h.count, snapshot))
              case Err(c) => Err(c)
              case Ok(log) => Ok(s.(log := log, sessions := left)))
    case WholePage(page, snapshot) => Publish(s, page, snapshot)
    case Reconcile(page, snapshot) => Publish(s, page, snapshot)
    case Sweep(page) => Ok(s.(log := Compact(s.log, page)))
  }

  function Publish(s: State, page: string, snapshot: Bytes): Result<State, Conflict> {
    match SnapshotNext(s.log, page, snapshot)
    case Err(c) => Err(c)
    case Ok(log) => Ok(s.(log := log, issued := Issue(s, page)))
  }

  function Run(s: State, actions: seq<Action>): Result<State, Conflict>
    decreases |actions|
  {
    if actions == [] then Ok(s)
    else match Next(s, actions[0])
         case Err(c) => Err(c)
         case Ok(s') => Run(s', actions[1..])
  }

  // ---- The invariant ----

  predicate Dirty(h: Handle) { h.count > h.initial }

  ghost predicate Increasing(issued: seq<(string, int)>) {
    forall i, j :: 0 <= i < j < |issued| && issued[i].0 == issued[j].0 ==> issued[i].1 < issued[j].1
  }

  ghost predicate Free(log: Log, page: string, hlc: int) {
    forall r :: r in log.snaps && r.page == page ==> r.hlc != hlc
  }

  ghost predicate SessionsFit(s: State) {
    && (forall i :: i in s.sessions ==>
          var h := s.sessions[i];
          h.count <= MaxHlc(s.log, h.page) && (Dirty(h) ==> h.count >= 1 && Free(s.log, h.page, h.count)))
    && (forall i, j :: i in s.sessions && j in s.sessions && i != j
                       && Dirty(s.sessions[i]) && Dirty(s.sessions[j]) && s.sessions[i].page == s.sessions[j].page
                       ==> s.sessions[i].count != s.sessions[j].count)
  }

  ghost predicate IssuedFit(s: State) {
    && Increasing(s.issued)
    && forall x :: x in s.issued ==> x.1 <= MaxHlc(s.log, x.0)
  }

  ghost predicate Inv(s: State) {
    Numbered(s.log) && SessionsFit(s) && IssuedFit(s)
  }

  ghost predicate SameHeads(log: Log, log': Log) {
    forall p: string :: MaxHlc(log', p) == MaxHlc(log, p)
  }

  // ---- Each write ----

  /** A snapshot row at the next hlc: accepted, and only its page's head moves, by one. */
  lemma Published(log: Log, page: string, bytes: Bytes) returns (log': Log)
    requires Numbered(log)
    ensures SnapshotNext(log, page, bytes) == Ok(log') && Numbered(log')
    ensures log' == log.(snaps := log.snaps + [SnapRow(page, MaxHlc(log, page) + 1, bytes)])
    ensures forall p: string :: MaxHlc(log', p) == MaxHlc(log, p) + if p == page then 1 else 0
  {
    var row := SnapRow(page, MaxHlc(log, page) + 1, bytes);
    log' := log.(snaps := log.snaps + [row]);
    Recovery.HeadNonNegative(log, page);
    MaxHlcBounds(log, page);
    LoadAfterSnapshot(log, row);
    forall p: string ensures MaxHlc(log', p) == MaxHlc(log, p) + if p == page then 1 else 0 {
      NewestAppend(log.snaps, row, p);
    }
  }

  lemma Appended(log: Log, page: string, op: Bytes, principal: Option<string>) returns (log': Log)
    requires Numbered(log)
    ensures AppendOpNext(log, page, op, principal) == Ok(log') && Numbered(log')
    ensures log'.snaps == log.snaps
    ensures forall p: string :: MaxHlc(log', p) == MaxHlc(log, p) + if p == page then 1 else 0
  {
    AppendSucceeds(log, page, op, principal);
    var row := NextRow(log, page, op, principal);
    log' := log.(ops := log.ops + [row]);
    MaxHlcBounds(log, page);
    forall p: string ensures MaxHlc(log', p) == MaxHlc(log, p) + if p == page then 1 else 0 {
      MaxOpAppend(log.ops, row, p);
    }
  }

  /** What each action leaves in the log. */
  lemma NextLands(s: State, a: Action)
    requires Inv(s)
    ensures Next(s, a).Ok?
    ensures
      var (log, log') := (s.log, Next(s, a).value.log);
      match a
      case Begin(id, page, seed) =>
        log' == if id in s.sessions || seed.None? then log
                else Log(log.ops, log.snaps + [SnapRow(page, MaxHlc(log, page) + 1, seed.value)])
      case Edit(id, op, principal) =>
        log' == if id !in s.sessions then log
                else
                  var (page, n) := (s.sessions[id].page, MaxHlc(log, s.sessions[id].page) + 1);
                  Log(log.ops + [OpRow(page, page + ":" + Decimal.Show(n), n, op, principal)], log.snaps)
      case End(id, commit, snapshot) =>
        log' == if id !in s.sessions || !commit || s.sessions[id].count <= s.sessions[id].initial then log
                else Log(log.ops, log.snaps + [SnapRow(s.sessions[id].page, s.sessions[id].count, snapshot)])
      case WholePage(page, snapshot) => log' == Log(log.ops, log.snaps + [SnapRow(page, MaxHlc(log, page) + 1, snapshot)])
      case Reconcile(page, snapshot) => log' == Log(log.ops, log.snaps + [SnapRow(page, MaxHlc(log, page) + 1, snapshot)])
      case Sweep(page) =>
        && log'.snaps == log.snaps
        && forall r :: r in log'.ops <==>
             r in log.ops && !(r.page == page && exists snap :: snap in log.snaps && snap.page == page && r.hlc <= snap.hlc)
  {
    var s' := NextKeeps(s, a);
    match a
    case Begin(id, page, seed) =>
    case Edit(id, op, principal) =>
    case End(id, commit, snapshot) =>
    case WholePage(page, snapshot) =>
    case Reconcile(page, snapshot) =>
    case Sweep(page) =>
      forall r ensures r in s'.log.ops <==>
        r in s.log.ops && !(r.page == page && exists snap :: snap in s.log.snaps && snap.page == page && r.hlc <= snap.hlc)
      {
        CompactIff(s.log, page, r);
      }
  }

  /** A snapshot at an hlc the page has passed: accepted when free, and no head moves. */
  lemma Settled(log: Log, page: string, hlc: int, bytes: Bytes) returns (log': Log)
    requires Numbered(log) && 1 <= hlc <= MaxHlc(log, page) && Free(log, page, hlc)
    ensures InsertSnapshot(log, SnapRow(page, hlc, bytes)) == Ok(log') && Numbered(log')
    ensures log' == log.(snaps := log.snaps + [SnapRow(page, hlc, bytes)])
    ensures SameHeads(log, log')
  {
    var row := SnapRow(page, hlc, bytes);
    log' := log.(snaps := log.snaps + [row]);
    forall p: string ensures MaxHlc(log', p) == MaxHlc(log, p) {
      NewestAppend(log.snaps, row, p);
    }
  }

  lemma IssueFits(s: State, page: string, log': Log)
    requires IssuedFit(s)
    requires forall p: string :: MaxHlc(log', p) == MaxHlc(s.log, p) + if p == page then 1 else 0
    ensures IssuedFit(s.(log := log', issued := Issue(s, page)))
  {
    var issued := Issue(s, page);
    forall x | x in issued ensures x.1 <= MaxHlc(log', x.0) {}
  }

  lemma PublishKeeps(s: State, page: string, bytes: Bytes) returns (s': State)
    requires Inv(s)
    ensures Publish(s, page, bytes) == Ok(s') && Inv(s')
    ensures forall p: string :: MaxHlc(s'.log, p) == MaxHlc(s.log, p) + if p == page then 1 else 0
  {
    var log' := Published(s.log, page, bytes);
    s' := s.(log := log', issued := Issue(s, page));
    IssueFits(s, page, log');
  }

  lemma BeginKeeps(s: State, id: nat, page: string, seed: Option<Bytes>) returns (s': State)
    requires Inv(s)
    ensures Next(s, Begin(id, page, seed)) == Ok(s') && Inv(s')
  {
    if id in s.sessions {
      s' := s;
    } else if seed.None? {
      s' := Next(s, Begin(id, page, seed)).value;
    } else {
      var log' := Published(s.log, page, seed.value);
      IssueFits(s, page, log');
      s' := State(log', s.sessions[id := Handle(page, MaxHlc(log', page), MaxHlc(log', page))], Issue(s, page));
    }
  }

  lemma EditKeeps(s: State, id: nat, op: Bytes, principal: Option<string>) returns (s': State)
    requires Inv(s)
    ensures Next(s, Edit(id, op, principal)) == Ok(s') && Inv(s')
  {
    if id !in s.sessions {
      s' := s;
    } else {
      var h := s.sessions[id];
      var log' := Appended(s.log, h.page, op, principal);
      IssueFits(s, h.page, log');
      Recovery.HeadNonNegative(s.log, h.page);
      MaxHlcBounds(s.log, h.page);
      s' := State(log', s.sessions[id := h.(count := MaxHlc(s.log, h.page) + 1)], Issue(s, h.page));
    }
  }

  /** The snapshot a committing close writes is always accepted, and never moves a head. */
  lemma EndKeeps(s: State, id: nat, commit: bool, snapshot: Bytes) returns (s': State)
    requires Inv(s)
    ensures Next(s, End(id, commit, snapshot)) == Ok(s') && Inv(s')
    ensures SameHeads(s.log, s'.log)
  {
    if id !in s.sessions || !commit || !Dirty(s.sessions[id]) {
      s' := Next(s, End(id, commit, snapshot)).value;
    } else {
      var h := s.sessions[id];
      var log' := Settled(s.log, h.page, h.count, snapshot);
      s' := s.(log := log', sessions := s.sessions - {id});
    }
  }

  lemma SweepKeeps(s: State, page: string)
    requires Inv(s)
    ensures Inv(s.(log := Compact(s.log, page)))
    ensures SameHeads(s.log, Compact(s.log, page))
  {
    forall p: string ensures MaxHlc(Compact(s.log, page), p) == MaxHlc(s.log, p) {
      CompactMaxHlc(s.log, page, p);
    }
    if Newest(s.log.snaps, page).Some? {
      FilterMembers(s.log.ops, NotSubsumed(page, Newest(s.log.snaps, page).value.hlc));
    }
  }

  lemma NextKeeps(s: State, a: Action) returns (s': State)
    requires Inv(s)
    ensures Next(s, a) == Ok(s') && Inv(s')
  {
    match a
    case Begin(id, page, seed) => s' := BeginKeeps(s, id, page, seed);
    case Edit(id, op, principal) => s' := EditKeeps(s, id, op, principal);
    case End(id, commit, snapshot) => s' := EndKeeps(s, id, commit, snapshot);
    case WholePage(page, snapshot) => s' := PublishKeeps(s, page, snapshot);
    case Reconcile(page, snapshot) => s' := PublishKeeps(s, page, snapshot);
    case Sweep(page) =>
      SweepKeeps(s, page);
      s' := s.(log := Compact(s.log, page));
  }

  lemma {:induction false} RunKeeps(s: State, actions: seq<Action>)
    requires Inv(s)
    ensures Run(s, actions).Ok? && Inv(Run(s, actions).value)
    decreases |actions|
  {
    if actions != [] {
      var s' := NextKeeps(s, actions[0]);
      RunKeeps(s', actions[1..]);
    }
  }

  /**
   Over every interleaving no insert meets a taken key, the hlcs handed out for a page strictly
   increase (so none is handed out twice), and each is still at or below the page's head.
   */
  lemma VersionAllocation(log: Log, actions: seq<Action>)
    requires Numbered(log)
    ensures Run(State(log, map[], []), actions).Ok?
    ensures Increasing(Run(State(log, map[], []), actions).value.issued)
    ensures
      var s := Run(State(log, map[], []), actions).value;
      forall x :: x in s.issued ==> x.1 <= MaxHlc(s.log, x.0)
  {
    RunKeeps(State(log, map[], []), actions);
  }

  /** A committing close at any point of any run leaves every page's head where it was. */
  lemma CloseNeverMovesHead(log: Log, actions: seq<Action>, id: nat, snapshot: Bytes)
    requires Numbered(log)
    ensures
      var s := Run(State(log, map[], []), actions);
      && s.Ok?
      && Next(s.value, End(id, true, snapshot)).Ok?
      && SameHeads(s.value.log, Next(s.value, End(id, true, snapshot)).value.log)
  {
    RunKeeps(State(log, map[], []), actions);
    var s' := EndKeeps(Run(State(log, map[], []), actions).value, id, true, snapshot);
  }

  // ---- The reconciler reads the head and writes in two steps ----

  /** Writing at the head read earlier plus one is an allocation iff the head stood still in between. */
  lemma ReconcileInTwoSteps(before: Log, now: Log, page: string, snapshot: Bytes)
    requires Numbered(now) && MaxHlc(before, page) <= MaxHlc(now, page)
    ensures InsertSnapshot(now, SnapRow(page, MaxHlc(before, page) + 1, snapshot)) == SnapshotNext(now, page, snapshot)
            <==> MaxHlc(now, page) == MaxHlc(before, page)
  {
    var log' := Published(now, page, snapshot);
    var stale := InsertSnapshot(now, SnapRow(page, MaxHlc(before, page) + 1, snapshot));
    if stale == Ok(log') {
      assert stale.value.snaps[|now.snaps|] == log'.snaps[|now.snaps|];
    }
  }

  /** An op accepted between the two steps is dropped: the snapshot takes its hlc and subsumes it. */
  lemma LateReconcileDropsOp(log: Log, page: string, op: Bytes, principal: Option<string>, snapshot: Bytes)
    requires Numbered(log)
    ensures
      var between := AppendOpNext(log, page, op, principal);
      && between.Ok?
      && var written := InsertSnapshot(between.value, SnapRow(page, MaxHlc(log, page) + 1, snapshot));
      && written.Ok?
      && Load(written.value, page) == Some((snapshot, []))
  {
    AppendSucceeds(log, page, op, principal);
    MaxHlcBounds(log, page);
    var between := log.(ops := log.ops + [NextRow(log, page, op, principal)]);
    LoadAfterSnapshot(between, SnapRow(page, MaxHlc(log, page) + 1, snapshot));
  }
}

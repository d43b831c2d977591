/** External edits against the snapshot (escurel-crdt/src/reconciler.rs). */
module Reconciler {

  import opened Wrappers
  import opened OpLog
  import opened LiveDoc
  import Recovery
  import Actor

  datatype Disk = Missing | Text(text: string) | NotUtf8 | Unreadable

  datatype Decision = SnapshotWins | ExternalWins

  datatype Failure = Storage | BadBlob | Citation

  /** Reading a document that holds `text` gives `text` back. */
  ghost predicate ReadsBack<Doc>(e: Engine<Doc>) {
    forall text: string :: e.body(e.withBody(text)) == text
  }

  /** The newest snapshot's bytes; an empty one counts as none. */
  function Canonical(log: Log, page: string): Option<Bytes> {
    match Load(log, page)
    case None => None
    case Some((snap, _)) => if snap == [] then None else Some(snap)
  }

  function Import<Doc>(e: Engine<Doc>, log: Log, page: string, disk: Disk): (Log, Result<Decision, Failure>)
    requires disk.Text? || disk.NotUtf8?
  {
    if disk.NotUtf8? then (log, Err(BadBlob))
    else match SnapshotNext(log, page, e.save(e.withBody(disk.text)))
         case Err(_) => (log, Err(Storage))
         case Ok(log') => (log', Ok(ExternalWins))
  }

  /** `cited`: whether any page links here, or `None` when the lookup fails. */
  function Reconcile<Doc>(e: Engine<Doc>, log: Log, page: string, disk: Disk, cited: Option<bool>)
    : (Log, Result<Decision, Failure>)
  {
    if disk.Unreadable? then (log, Err(Storage))
    else match Canonical(log, page)
         case None =>
           if disk.Missing? then (log, Ok(ExternalWins)) else Import(e, log, page, disk)
         case Some(snap) =>
           if disk.Missing? then (log, Ok(SnapshotWins))
           else match e.read(e.blank, snap)
                case None => (log, Err(BadBlob))
                case Some(d) =>
                  if disk == Text(e.body(d)) then (log, Ok(ExternalWins))
                  else if cited.None? then (log, Err(Citation))
                  else if cited.value then (log, Ok(SnapshotWins))
                  else Import(e, log, page, disk)
  }

  /** The text of the newest snapshot. */
  function SnapshotBody<Doc>(e: Engine<Doc>, log: Log, page: string): Option<string> {
    match Canonical(log, page)
    case None => None
    case Some(snap) => match e.read(e.blank, snap) case None => None case Some(d) => Some(e.body(d))
  }

  /**
   What a decision means. `ExternalWins` over a file makes the file the snapshot's text; anything
   else, and any failure, leaves the log alone; a cited page that has a snapshot is never rewritten;
   and a write also becomes what a restart rebuilds.
   */
  lemma ReconcileMeans<Doc(!new)>(e: Engine<Doc>, log: Log, page: string, disk: Disk, cited: Option<bool>)
    requires RoundTrips(e) && ReadsBack(e) && Numbered(log)
    ensures
      var (log', r) := Reconcile(e, log, page, disk, cited);
      && Numbered(log')
      && (r == Ok(ExternalWins) && disk.Text? ==> SnapshotBody(e, log', page) == Some(disk.text))
      && (r != Ok(ExternalWins) ==> log' == log)
      && (Canonical(log, page).Some? && cited == Some(true) ==> log' == log)
      && (log' != log ==> disk.Text? && Hydrate(e, log', page) == Some(e.withBody(disk.text)))
  {
    if disk.Text? {
      ImportMeans(e, log, page, disk);
    }
  }

  lemma ImportMeans<Doc(!new)>(e: Engine<Doc>, log: Log, page: string, disk: Disk)
    requires RoundTrips(e) && ReadsBack(e) && Numbered(log) && disk.Text?
    ensures
      var (log', r) := Import(e, log, page, disk);
      && r == Ok(ExternalWins) && Numbered(log') && log' != log
      && Hydrate(e, log', page) == Some(e.withBody(disk.text))
      && SnapshotBody(e, log', page) == Some(disk.text)
  {
    var row := Recovery.SnapshotNextLands(e, log, page, e.withBody(disk.text));
    MaxHlcBounds(log, page);
    LoadAfterSnapshot(log, row);
    assert |log.snaps + [row]| != |log.snaps|;
  }

  /** The canonical bytes are the newest snapshot's, unless it is empty. */
  lemma CanonicalMeans(log: Log, page: string, newest: Option<SnapRow>)
    requires SnapshotsKeyed(log) && NewestIs(log, page, newest)
    ensures Canonical(log, page) == if newest.Some? && newest.value.bytes != [] then Some(newest.value.bytes) else None
  {
    NewestBounds(log.snaps, page);
  }

  /** Each answer, exactly when it is given; and the log changes exactly when a file wins whose text it does not hold. */
  lemma ReconcileIff<Doc(!new)>(e: Engine<Doc>, log: Log, page: string, disk: Disk, cited: Option<bool>)
    requires RoundTrips(e) && ReadsBack(e) && Numbered(log)
    ensures
      var (log', r) := Reconcile(e, log, page, disk, cited);
      var (held, body) := (Canonical(log, page).Some?, SnapshotBody(e, log, page));
      var present := disk.Text? || disk.NotUtf8?;
      var differs := present && body.Some? && disk != Text(body.value);
      && (r == Err(Storage) <==> disk.Unreadable?)
      && (r == Err(Citation) <==> differs && cited.None?)
      && (r == Err(BadBlob) <==> (present && held && body.None?) || (disk.NotUtf8? && (!held || (differs && cited == Some(false)))))
      && (r == Ok(SnapshotWins) <==> (disk.Missing? && held) || (differs && cited == Some(true)))
      && (r == Ok(ExternalWins) <==>
            || (disk.Missing? && !held)
            || (disk.Text? && (!held || body == Some(disk.text) || (differs && cited == Some(false)))))
      && (log' != log <==> r == Ok(ExternalWins) && disk.Text? && body != Some(disk.text))
  {
    if disk.Text? {
      ImportMeans(e, log, page, disk);
    }
  }

  /** A cited page keeps its log exactly when it has a snapshot to defend, or there is no text to take instead. */
  lemma CitedKeptIff<Doc(!new)>(e: Engine<Doc>, log: Log, page: string, disk: Disk)
    requires RoundTrips(e) && ReadsBack(e) && Numbered(log)
    ensures Reconcile(e, log, page, disk, Some(true)).0 == log <==> Canonical(log, page).Some? || !disk.Text?
  {
    if disk.Text? {
      ImportMeans(e, log, page, disk);
    }
  }

  /** Reconciling again against the same file changes nothing and answers the same. */
  lemma ReconcileIdempotent<Doc(!new)>(e: Engine<Doc>, log: Log, page: string, disk: Disk, cited: Option<bool>)
    requires RoundTrips(e) && ReadsBack(e) && Numbered(log)
    ensures
      var (log', r) := Reconcile(e, log, page, disk, cited);
      Reconcile(e, log', page, disk, cited) == (log', r)
  {
    ReconcileMeans(e, log, page, disk, cited);
  }

  /** The reconciler run while no session writes: head and insert see the same log. */
  method ReconcileStore<Doc(!new)>(e: Engine<Doc>, store: Actor.Backend, page: string, disk: Disk, cited: Option<bool>)
    returns (r: Result<Decision, Failure>)
    requires RoundTrips(e) && ReadsBack(e) && Numbered(store.Contents())
    modifies store
    ensures (store.Contents(), r) == Reconcile(e, old(store.Contents()), page, disk, cited)
    ensures r == Ok(ExternalWins) && disk.Text? ==> SnapshotBody(e, store.Contents(), page) == Some(disk.text)
    ensures r != Ok(ExternalWins) ==> store.Contents() == old(store.Contents())
  {
    ReconcileMeans(e, store.Contents(), page, disk, cited);
    if disk.Unreadable? {
      return Err(Storage);
    }
    var snap := Canonical(Log(store.ops, store.snaps), page);
    if disk.Missing? {
      return Ok(if snap.None? then ExternalWins else SnapshotWins);
    }
    if snap.Some? {
      var d := e.read(e.blank, snap.value);
      if d.None? {
        return Err(BadBlob);
      }
      if disk == Text(e.body(d.value)) {
        return Ok(ExternalWins);
      }
      if cited.None? {
        return Err(Citation);
      }
      if cited.value {
        return Ok(SnapshotWins);
      }
    }
    if disk.NotUtf8? {
      return Err(BadBlob);
    }
    var hlc := store.SnapshotAtNext(page, e.save(e.withBody(disk.text)));
    return Ok(ExternalWins);
  }
}

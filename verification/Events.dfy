/**
 The event bus (escurel-index/src/events.rs), local backend: first-writer-wins capture and
 compare-and-set assignment over one table whose primary key is the event id.

 Timestamps are microseconds; a row's `seq` is its ingestion position.
 */
module Events {

  import opened Wrappers

  datatype Kind = User | System

  datatype Status = Inbox | Processed

  /** The fields a capture fixes. `kind` is NULL on rows older than the column. */
  datatype Captured = Captured(
    id: string,
    at: Option<int>,
    source: string,
    mime: string,
    labelSkill: string,
    title: string,
    body: string,
    provenance: string,
    kind: Option<Kind>,
    root: Option<string>,
    run: Option<string>,
    position: Option<int>,
    attestation: Option<string>)

  datatype Event = Event(fixed: Captured, status: Status, target: Option<string>)

  datatype NewEvent = NewEvent(
    id: Option<string>,
    at: Option<int>,
    source: string,
    mime: string,
    labelSkill: string,
    target: Option<string>,
    title: string,
    body: string,
    provenance: string,
    kind: Kind,
    root: Option<string>,
    run: Option<string>)

  datatype Error = EventNotFound | EventAlreadyAssigned(existing: Option<string>)

  // ---- Capture and assign ----

  function Find(table: seq<Event>, id: string): Option<nat> {
    if table == [] then None
    else if table[0].fixed.id == id then Some(0)
    else match Find(table[1..], id) case None => None case Some(i) => Some(i + 1)
  }

  /** `COALESCE(MAX(seq), 0) + 1`. */
  function NextSeq(table: seq<Event>): int {
    (match MaxSeq(table) case None => 0 case Some(n) => n) + 1
  }

  function MaxSeq(table: seq<Event>): Option<int> {
    if table == [] then None
    else
      var rest := MaxSeq(table[1..]);
      var mine := table[0].fixed.position;
      if mine.None? then rest
      else if rest.None? || rest.value < mine.value then mine
      else rest
  }

  /** The row a capture inserts. `minted` is the id the server generates when none is given. */
  function NewRow(table: seq<Event>, e: NewEvent, minted: string, attestation: Option<string>): Event {
    var id := match e.id case None => minted case Some(i) => i;
    var root := match e.root case None => id case Some(r) => r;
    Event(
      Captured(id, e.at, e.source, e.mime, e.labelSkill, e.title, e.body, e.provenance,
               Some(e.kind), Some(root), e.run, Some(NextSeq(table)), attestation),
      if e.kind == System && e.target.Some? then Processed else Inbox,
      e.target)
  }

  function Capture(table: seq<Event>, e: NewEvent, minted: string, attestation: Option<string>): seq<Event> {
    var row := NewRow(table, e, minted, attestation);
    if Find(table, row.fixed.id).Some? then table else table + [row]
  }

  function Assign(table: seq<Event>, id: string, target: string): (seq<Event>, Result<(), Error>) {
    match Find(table, id)
    case None => (table, Err(EventNotFound))
    case Some(i) =>
      FindIsIndex(table, id);
      if table[i].status == Inbox then (table[i := table[i].(status := Processed, target := Some(target))], Ok(()))
      else if table[i].target == Some(target) then (table, Ok(()))
      else (table, Err(EventAlreadyAssigned(table[i].target)))
  }

  // ---- The primary key ----

  ghost predicate Keyed(table: seq<Event>) {
    forall i, j :: 0 <= i < j < |table| ==> table[i].fixed.id != table[j].fixed.id
  }

  lemma {:induction false} FindIsIndex(table: seq<Event>, id: string)
    ensures
      match Find(table, id)
      case None => forall e :: e in table ==> e.fixed.id != id
      case Some(i) => i < |table| && table[i].fixed.id == id
  {
    if table != [] {
      FindIsIndex(table[1..], id);
    }
  }

  lemma FindUnique(table: seq<Event>, id: string, i: nat)
    requires Keyed(table) && i < |table| && table[i].fixed.id == id
    ensures Find(table, id) == Some(i)
  {
    FindIsIndex(table, id);
    assert table[i] in table;
  }

  // ---- Life cycle ----

  datatype Action =
    | DoCapture(event: NewEvent, minted: string, attestation: Option<string>)
    | DoAssign(id: string, target: string)

  function Act(table: seq<Event>, a: Action): seq<Event> {
    match a
    case DoCapture(e, minted, attestation) => Capture(table, e, minted, attestation)
    case DoAssign(id, target) => Assign(table, id, target).0
  }

  function Run(table: seq<Event>, actions: seq<Action>): seq<Event>
    decreases |actions|
  {
    if actions == [] then table else Run(Act(table, actions[0]), actions[1..])
  }

  /** What may happen to a stored event: nothing, or leaving the inbox once. */
  ghost predicate Evolves(e: Event, e': Event) {
    && e'.fixed == e.fixed
    && (e.status == Processed ==> e' == e)
    && (e'.status == Inbox ==> e' == e)
    && (e.status == Inbox && e'.status == Processed ==> e'.target.Some?)
  }

  ghost predicate Grows(table: seq<Event>, table': seq<Event>) {
    |table| <= |table'| && forall i :: 0 <= i < |table| ==> Evolves(table[i], table'[i])
  }

  lemma ActGrows(table: seq<Event>, a: Action)
    requires Keyed(table)
    ensures Keyed(Act(table, a)) && Grows(table, Act(table, a))
  {
    match a
    case DoCapture(e, minted, attestation) =>
      FindIsIndex(table, NewRow(table, e, minted, attestation).fixed.id);
    case DoAssign(id, target) =>
      FindIsIndex(table, id);
  }

  lemma {:induction false} RunGrows(table: seq<Event>, actions: seq<Action>)
    requires Keyed(table)
    ensures Keyed(Run(table, actions)) && Grows(table, Run(table, actions))
    decreases |actions|
  {
    if actions != [] {
      ActGrows(table, actions[0]);
      RunGrows(Act(table, actions[0]), actions[1..]);
    }
  }

  /**
   The life of an event over every run: what its first capture stored, attestation included, never
   changes; it leaves the inbox at most once; once processed neither its status nor its target moves.
   */
  lemma LifeCycle(table: seq<Event>, actions: seq<Action>, id: string)
    requires Keyed(table) && Find(table, id).Some?
    ensures
      var table' := Run(table, actions);
      && Find(table', id) == Find(table, id)
      && (FindIsIndex(table, id); var i := Find(table, id).value; i < |table| <= |table'| && Evolves(table[i], table'[i]))
  {
    RunGrows(table, actions);
    FindIsIndex(table, id);
    var i := Find(table, id).value;
    FindUnique(Run(table, actions), id, i);
  }

  /** A capture of an id that is stored changes nothing, whatever it carries. */
  lemma FirstWriterWins(table: seq<Event>, e: NewEvent, minted: string, attestation: Option<string>)
    ensures
      var row := NewRow(table, e, minted, attestation);
      && Find(Capture(table, e, minted, attestation), row.fixed.id).Some?
      && (Find(table, row.fixed.id).Some? ==> Capture(table, e, minted, attestation) == table)
  {
    var row := NewRow(table, e, minted, attestation);
    var table' := Capture(table, e, minted, attestation);
    FindIsIndex(table', row.fixed.id);
    if Find(table, row.fixed.id).None? {
      assert table'[|table|] == row && row in table';
    }
  }

  /**
   Compare-and-set: after a successful assign, at any later point of any run, an assign of the same
   event succeeds iff it names the same target.
   */
  lemma AssignOnce(table: seq<Event>, id: string, target: string, actions: seq<Action>, other: string)
    requires Keyed(table) && Assign(table, id, target).1.Ok?
    ensures
      var later := Run(Assign(table, id, target).0, actions);
      && (Assign(later, id, other).1.Ok? <==> other == target)
      && Assign(later, id, other).0 == later
  {
    var after := Assign(table, id, target).0;
    ActGrows(table, DoAssign(id, target));
    FindIsIndex(table, id);
    var i := Find(table, id).value;
    FindUnique(after, id, i);
    RunGrows(after, actions);
    FindUnique(Run(after, actions), id, i);
  }

  lemma {:induction false} NextSeqAbove(table: seq<Event>)
    ensures forall e :: e in table && e.fixed.position.Some? ==> e.fixed.position.value < NextSeq(table)
    ensures NextSeq(table) != 1 ==> exists e :: e in table && e.fixed.position == Some(NextSeq(table) - 1)
    ensures MaxSeq(table).Some? ==> exists e :: e in table && e.fixed.position == MaxSeq(table)
    ensures MaxSeq(table).None? ==> forall e :: e in table ==> e.fixed.position.None?
  {
    if table != [] {
      NextSeqAbove(table[1..]);
      assert table == [table[0]] + table[1..];
    }
  }

  /** `id` is the one given or, without one, the one minted. */
  predicate TakesId(e: NewEvent, minted: string, id: string) { e.id == Some(id) || (e.id.None? && id == minted) }

  /**
   What a capture stores under a new id: every field as given, at the next ingestion position, the event
   its own root when none is named, and processed only when it is a system event that names its target.
   */
  lemma CaptureMeans(table: seq<Event>, e: NewEvent, minted: string, attestation: Option<string>, id: string)
    requires TakesId(e, minted, id)
    ensures
      var table' := Capture(table, e, minted, attestation);
      if exists stored :: stored in table && stored.fixed.id == id then table' == table
      else
        && |table'| == |table| + 1 && table'[..|table|] == table
        && var row := table'[|table|];
           && row.fixed.id == id && row.fixed.at == e.at && row.fixed.source == e.source && row.fixed.mime == e.mime
           && row.fixed.labelSkill == e.labelSkill && row.fixed.title == e.title && row.fixed.body == e.body
           && row.fixed.provenance == e.provenance && row.fixed.kind == Some(e.kind) && row.fixed.run == e.run
           && row.fixed.root == Some(if e.root.Some? then e.root.value else id)
           && row.fixed.attestation == attestation && row.target == e.target
           && (row.status == Processed <==> e.kind == System && e.target.Some?)
           && row.fixed.position.Some?
           && (forall other :: other in table && other.fixed.position.Some? ==> other.fixed.position.value < row.fixed.position.value)
           && (row.fixed.position == Some(1) || exists other :: other in table && other.fixed.position == Some(row.fixed.position.value - 1))
  {
    FindIsIndex(table, id);
    NextSeqAbove(table);
    if stored :| stored in table && stored.fixed.id == id {
      assert Capture(table, e, minted, attestation) == table;
    }
  }

  /**
   What an assign does: an unknown id is an error; an event in the inbox is processed with the target; a
   processed one is left as it is, and that is an error naming its target unless the target is the same.
   */
  lemma AssignMeans(table: seq<Event>, id: string, target: string)
    requires Keyed(table)
    ensures
      var (table', r) := Assign(table, id, target);
      && |table'| == |table|
      && ((forall e :: e in table ==> e.fixed.id != id) ==> r == Err(EventNotFound))
      && (forall i :: 0 <= i < |table| && table[i].fixed.id != id ==> table'[i] == table[i])
      && (forall i :: 0 <= i < |table| && table[i].fixed.id == id ==>
            if table[i].status == Inbox then
              r == Ok(()) && table'[i] == Event(table[i].fixed, Processed, Some(target))
            else
              && table'[i] == table[i]
              && r == if table[i].target == Some(target) then Ok(()) else Err(EventAlreadyAssigned(table[i].target)))
  {
    FindIsIndex(table, id);
    forall i | 0 <= i < |table| && table[i].fixed.id == id ensures Find(table, id) == Some(i) {
      FindUnique(table, id, i);
    }
  }

  // ---- The store ----

  class EventStore {
    var rows: seq<Event>

    ghost predicate Valid()
      reads this
    {
      Keyed(rows)
    }

    constructor ()
      ensures Valid() && rows == []
    {
      rows := [];
    }

    /** Append, or keep the first writer's row; answer with what is stored. */
    method CaptureEvent(e: NewEvent, minted: string, attestation: Option<string>) returns (stored: Event)
      requires Valid()
      modifies this
      ensures Valid() && Grows(old(rows), rows)
      ensures rows == Capture(old(rows), e, minted, attestation)
      ensures stored in rows && TakesId(e, minted, stored.fixed.id)
    {
      var row := NewRow(rows, e, minted, attestation);
      ActGrows(rows, DoCapture(e, minted, attestation));
      FindIsIndex(rows, row.fixed.id);
      var at := Find(rows, row.fixed.id);
      if at.None? {
        rows := rows + [row];
        assert rows[|rows| - 1] == row;
        return row;
      }
      return rows[at.value];
    }

    method AssignEvent(id: string, target: string) returns (r: Result<(), Error>)
      requires Valid()
      modifies this
      ensures Valid() && Grows(old(rows), rows)
      ensures (rows, r) == Assign(old(rows), id, target)
      ensures r.Ok? ==> exists e :: e in rows && e.fixed.id == id && e.status == Processed && e.target == Some(target)
      ensures r.Err? ==> rows == old(rows)
    {
      ActGrows(rows, DoAssign(id, target));
      FindIsIndex(rows, id);
      var at := Find(rows, id);
      if at.None? {
        return Err(EventNotFound);
      }
      var i := at.value;
      if rows[i].status == Inbox {
        rows := rows[i := rows[i].(status := Processed, target := Some(target))];
        assert rows[i] in rows;
        return Ok(());
      }
      if rows[i].target == Some(target) {
        return Ok(());
      }
      return Err(EventAlreadyAssigned(rows[i].target));
    }
  }
}

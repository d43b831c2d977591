/**
 Tailing a label, a lineage or a run (escurel-index/src/events.rs): captures, even backdated ones, and
 assignments land between polls; each poll resumes from the last `resume` cursor.

 No row is deleted here: the next position is `MAX(seq) + 1`, so deleting the highest row would hand
 its position out again.
 */
module EventTail {

  import opened Wrappers
  import opened Ordering
  import opened Keyset
  import opened Events
  import opened EventPaging
  import Cursor

  datatype Tail = Tail(table: seq<Event>, cursor: Option<string>, delivered: seq<string>)

  datatype Move = Change(action: Action) | Poll(limit: nat)

  function Ids(rows: seq<Event>): seq<string> {
    seq(|rows|, i requires 0 <= i < |rows| => rows[i].fixed.id)
  }

  function Step(k: Cursor.Signer, scope: string, f: Filtering, s: Tail, m: Move): Tail {
    match m
    case Change(a) => s.(table := Act(s.table, a))
    case Poll(limit) =>
      match PagedEvents(k, scope, s.table, f, true, limit, s.cursor)
      case Err(_) => s
      case Ok(page) =>
        Tail(s.table, if page.resume.Some? then page.resume else s.cursor, s.delivered + Ids(page.events))
  }

  function Follow(k: Cursor.Signer, scope: string, f: Filtering, s: Tail, moves: seq<Move>): Tail
    decreases |moves|
  {
    if moves == [] then s else Follow(k, scope, f, Step(k, scope, f, s, moves[0]), moves[1..])
  }

  /** Positions rise in the order of capture. (Stored order means nothing, so this is how it is written down.) */
  ghost predicate Ascending(table: seq<Event>) {
    && (forall i :: 0 <= i < |table| ==> table[i].fixed.position.Some?)
    && (forall i, j :: 0 <= i < j < |table| ==> table[i].fixed.position.value < table[j].fixed.position.value)
  }

  /** What a filter says of an event cannot change once it is captured. */
  predicate Settled(f: Filtering) { f.status.None? && f.target.None? }

  /** What a filter leaves out when it is captured it leaves out for good. */
  predicate Lasting(f: Filtering) { Settled(f) || f.status == Some(Inbox) }

  // ---- The listing is the capture order ----

  lemma AscendingSorted(table: seq<Event>)
    requires Ascending(table)
    ensures Sorted(table, Order(true, true))
  {
    forall i, j | 0 <= i < j < |table| ensures Order(true, true)(table[i], table[j]) {
      assert SortKey(true, table[i]).value < SortKey(true, table[j]).value;
    }
  }

  lemma AscendingFull(table: seq<Event>, f: Filtering)
    requires Ascending(table) && BySeq(f)
    ensures Full(table, f, true) == Filter(table, Matches(f))
    ensures Positioned(table, f)
  {
    var le := Order(true, true);
    AscendingSorted(table);
    FilterSorted(table, Matches(f), le);
    SortIdempotent(Filter(table, Matches(f)), le);
  }

  lemma {:induction false} MaxSeqBounds(table: seq<Event>)
    ensures forall e :: e in table && e.fixed.position.Some? ==>
              MaxSeq(table).Some? && e.fixed.position.value <= MaxSeq(table).value
  {
    if table != [] {
      MaxSeqBounds(table[1..]);
    }
  }

  lemma CaptureAscends(table: seq<Event>, e: NewEvent, minted: string, attestation: Option<string>)
    requires Ascending(table)
    ensures Ascending(Capture(table, e, minted, attestation))
  {
    MaxSeqBounds(table);
    forall i | 0 <= i < |table| ensures table[i].fixed.position.value < NextSeq(table) {
      assert table[i] in table;
    }
  }

  lemma ActKeeps(table: seq<Event>, a: Action)
    requires Keyed(table) && Ascending(table)
    ensures Keyed(Act(table, a)) && Ascending(Act(table, a))
  {
    ActGrows(table, a);
    match a
    case DoCapture(e, minted, attestation) => CaptureAscends(table, e, minted, attestation);
    case DoAssign(id, target) => FindIsIndex(table, id);
  }

  // ---- What was delivered ----

  /** The rows that were delivered, by their place in the capture order. */
  ghost predicate Delivered(s: Tail, marks: seq<nat>) {
    && |marks| == |s.delivered|
    && (forall i :: 0 <= i < |marks| ==> marks[i] < |s.table| && s.table[marks[i]].fixed.id == s.delivered[i])
    && (forall i, j :: 0 <= i < j < |marks| ==> marks[i] < marks[j])
  }

  /** Every selected row was delivered, or lies ahead of everything that was. */
  ghost predicate NothingMissed(f: Filtering, table: seq<Event>, marks: seq<nat>) {
    forall i :: 0 <= i < |table| && Asked(f, table[i]) && i !in marks ==> forall j :: j in marks ==> j < i
  }

  /** No loss, no repeat, capture order. */
  ghost predicate Delivers(f: Filtering, s: Tail) {
    exists marks :: Delivered(s, marks) && NothingMissed(f, s.table, marks)
  }

  /** Everything delivered is the beginning of the current listing. */
  ghost predicate InOrder(f: Filtering, s: Tail) {
    s.delivered <= Ids(Full(s.table, f, true))
  }

  ghost predicate AllDelivered(f: Filtering, s: Tail) {
    forall e :: e in s.table && Asked(f, e) ==> e.fixed.id in s.delivered
  }

  // ---- The invariant ----

  /** The places of the selected rows among `table[lo..hi]`. */
  function Marks(table: seq<Event>, f: Filtering, lo: nat, hi: nat): seq<nat>
    requires lo <= hi <= |table|
    decreases hi
  {
    if lo == hi then []
    else Marks(table, f, lo, hi - 1) + if Selects(f, table[hi - 1]) then [hi - 1] else []
  }

  lemma {:induction false} MarksAre(table: seq<Event>, f: Filtering, lo: nat, hi: nat)
    requires lo <= hi <= |table|
    ensures
      var (rows, marks) := (Filter(table[lo..hi], Matches(f)), Marks(table, f, lo, hi));
      && |marks| == |rows|
      && (forall i :: 0 <= i < |marks| ==> lo <= marks[i] < hi && table[marks[i]] == rows[i])
      && (forall i, j :: 0 <= i < j < |marks| ==> marks[i] < marks[j])
      && (forall i :: lo <= i < hi && Selects(f, table[i]) ==> i in marks)
    decreases hi
  {
    if lo < hi {
      MarksAre(table, f, lo, hi - 1);
      assert table[lo..hi] == table[lo..hi - 1] + [table[hi - 1]];
      FilterConcat(table[lo..hi - 1], [table[hi - 1]], Matches(f));
      assert [table[hi - 1]][1..] == [];
    }
  }

  /**
   The first `m` rows are behind the cursor: it is the last of them that was delivered, and so was
   every one of them the filter selects.
   */
  ghost predicate Caught(k: Cursor.Signer, scope: string, f: Filtering, s: Tail, marks: seq<nat>, m: nat) {
    && Keyed(s.table) && Ascending(s.table) && m <= |s.table|
    && s.cursor == (if m == 0 then None else Some(EncodeSeq(k, scope, s.table[m - 1].fixed.position.value)))
    && Delivered(s, marks)
    && (forall j :: j in marks ==> j < m)
    && (forall i :: 0 <= i < m && Selects(f, s.table[i]) ==> i in marks)
    && (Settled(f) ==> marks == Marks(s.table, f, 0, m))
  }

  lemma {:induction false} SettledMarks(a: seq<Event>, b: seq<Event>, f: Filtering, lo: nat, hi: nat)
    requires Settled(f) && lo <= hi <= |a| <= |b| && Grows(a, b)
    ensures Marks(a, f, lo, hi) == Marks(b, f, lo, hi)
    decreases hi
  {
    if lo < hi {
      assert Evolves(a[hi - 1], b[hi - 1]);
      SettledMarks(a, b, f, lo, hi - 1);
    }
  }

  /** A change adds behind no cursor: no row joins a lasting filter's selection. */
  lemma NoneJoins(table: seq<Event>, table': seq<Event>, f: Filtering, i: nat)
    requires Lasting(f) && Grows(table, table') && i < |table| && Selects(f, table'[i])
    ensures Selects(f, table[i])
  {
    assert Evolves(table[i], table'[i]);
  }

  lemma ChangeKeeps(k: Cursor.Signer, scope: string, f: Filtering, s: Tail, a: Action, marks: seq<nat>, m: nat)
    requires Lasting(f) && Caught(k, scope, f, s, marks, m)
    ensures Caught(k, scope, f, Step(k, scope, f, s, Change(a)), marks, m)
  {
    var table' := Act(s.table, a);
    ActKeeps(s.table, a);
    ActGrows(s.table, a);
    forall i | 0 <= i < m && Selects(f, table'[i]) ensures i in marks {
      NoneJoins(s.table, table', f, i);
    }
    forall i | 0 <= i < |s.table| ensures table'[i].fixed == s.table[i].fixed {
      assert Evolves(s.table[i], table'[i]);
    }
    if Settled(f) {
      SettledMarks(s.table, table', f, 0, m);
    }
  }

  // ---- A poll ----

  /** What is left behind `m` rows, as the query under the cursor of row `m` selects it. */
  lemma RestFrom(table: seq<Event>, f: Filtering, m: nat, c: Option<EventCursor>)
    requires BySeq(f) && Ascending(table) && m <= |table|
    requires c == if m == 0 then None else Some(Seq(table[m - 1].fixed.position.value))
    ensures Listing(table, Where(f, true, c), Order(BySeq(f), true)) == Filter(table[m..], Matches(f))
  {
    var le := Order(true, true);
    AscendingSorted(table);
    FilterSorted(table, Where(f, true, c), le);
    SortIdempotent(Filter(table, Where(f, true, c)), le);
    assert table == table[..m] + table[m..];
    FilterConcat(table[..m], table[m..], Where(f, true, c));
    FilterNone(table[..m], Where(f, true, c));
    FilterSame(table[m..], Where(f, true, c), Matches(f));
  }

  /** The first rows of a selection are the selection of the first rows. */
  lemma {:induction false} TakeSelected<T>(rows: seq<T>, p: T -> bool, limit: nat) returns (n: nat)
    ensures n <= |rows| && Take(Filter(rows, p), limit) == Filter(rows[..n], p)
    ensures n == 0 <==> Take(Filter(rows, p), limit) == []
    ensures n > 0 ==> Filter(rows[..n], p)[|Filter(rows[..n], p)| - 1] == rows[n - 1]
  {
    if limit == 0 || Filter(rows, p) == [] {
      n := 0;
    } else {
      var rest := rows[1..];
      n := TakeSelected(rest, p, if p(rows[0]) then limit - 1 else limit);
      assert rows[..n + 1][1..] == rest[..n];
      n := n + 1;
    }
  }

  lemma PagedFrom(k: Cursor.Signer, scope: string, table: seq<Event>, f: Filtering, limit: nat, m: nat, cursor: Option<string>, c: Option<EventCursor>)
    requires Cursor.Lawful(k) && BySeq(f) && Ascending(table) && m <= |table|
    requires cursor == if m == 0 then None else Some(EncodeSeq(k, scope, table[m - 1].fixed.position.value))
    requires c == if m == 0 then None else Some(Seq(table[m - 1].fixed.position.value))
    ensures PagedEvents(k, scope, table, f, true, limit, cursor) == Ok(Fetch(k, scope, table, f, true, Clamp(limit), c))
  {
    if m > 0 {
      DecodeSeq(k, scope, table[m - 1].fixed.position.value);
    }
  }

  /** One poll behind `m` rows takes the next selected ones and leaves its cursor at the last of them. */
  lemma PollFetches(k: Cursor.Signer, scope: string, f: Filtering, s: Tail, limit: nat, m: nat, shown: seq<Event>)
    requires Cursor.Lawful(k) && BySeq(f) && Ascending(s.table) && m <= |s.table|
    requires s.cursor == if m == 0 then None else Some(EncodeSeq(k, scope, s.table[m - 1].fixed.position.value))
    requires shown == Take(Filter(s.table[m..], Matches(f)), Clamp(limit))
    ensures Step(k, scope, f, s, Poll(limit)) ==
            Tail(s.table, if shown == [] then s.cursor else Some(CursorOf(k, scope, true, shown[|shown| - 1])),
                 s.delivered + Ids(shown))
  {
    var c := if m == 0 then None else Some(Seq(s.table[m - 1].fixed.position.value));
    RestFrom(s.table, f, m, c);
    var rest := Filter(s.table[m..], Matches(f));
    FetchIs(k, scope, s.table, f, true, Clamp(limit), c, rest);
    TakeTwice(rest, Clamp(limit));
    PagedFrom(k, scope, s.table, f, limit, m, s.cursor, c);
  }

  lemma NextShown(table: seq<Event>, f: Filtering, limit: nat, m: nat) returns (m': nat, shown: seq<Event>)
    requires m <= |table|
    ensures m <= m' <= |table| && shown == Filter(table[m..m'], Matches(f)) == Take(Filter(table[m..], Matches(f)), limit)
    ensures (m == m' <==> shown == []) && (m < m' ==> shown[|shown| - 1] == table[m' - 1])
  {
    var n := TakeSelected(table[m..], Matches(f), limit);
    m' := m + n;
    assert table[m..][..n] == table[m..m'];
    shown := Filter(table[m..m'], Matches(f));
  }

  lemma PollKeeps(k: Cursor.Signer, scope: string, f: Filtering, s: Tail, limit: nat, marks: seq<nat>, m: nat)
    returns (marks': seq<nat>, m': nat)
    requires Cursor.Lawful(k) && BySeq(f) && Caught(k, scope, f, s, marks, m)
    ensures Caught(k, scope, f, Step(k, scope, f, s, Poll(limit)), marks', m')
    ensures m <= m' <= |s.table|
    ensures
      var shown := Take(Filter(s.table[m..], Matches(f)), Clamp(limit));
      var s' := Step(k, scope, f, s, Poll(limit));
      && shown == Filter(s.table[m..m'], Matches(f))
      && s'.table == s.table && s'.delivered == s.delivered + Ids(shown)
  {
    var shown;
    m', shown := NextShown(s.table, f, Clamp(limit), m);
    PollFetches(k, scope, f, s, limit, m, shown);
    marks' := marks + Marks(s.table, f, m, m');
    PolledCatches(k, scope, f, s, Step(k, scope, f, s, Poll(limit)), marks, m, m');
  }

  lemma DeliveredOn(s: Tail, s': Tail, marks: seq<nat>, more: seq<nat>, rows: seq<Event>, m: nat)
    requires Delivered(s, marks) && forall j :: j in marks ==> j < m
    requires |more| == |rows| && forall i :: 0 <= i < |more| ==> m <= more[i] < |s.table| && s.table[more[i]] == rows[i]
    requires forall i, j :: 0 <= i < j < |more| ==> more[i] < more[j]
    requires s'.table == s.table && s'.delivered == s.delivered + Ids(rows)
    ensures Delivered(s', marks + more)
  {
    var all := marks + more;
    forall i, j | 0 <= i < j < |all| ensures all[i] < all[j] {
      if i < |marks| {
        assert marks[i] in marks;
      }
    }
  }

  lemma PolledCatches(k: Cursor.Signer, scope: string, f: Filtering, s: Tail, s': Tail, marks: seq<nat>, m: nat, m': nat)
    requires Caught(k, scope, f, s, marks, m) && m <= m' <= |s.table|
    requires s'.table == s.table && s'.delivered == s.delivered + Ids(Filter(s.table[m..m'], Matches(f)))
    requires s'.cursor == if m == m' then s.cursor else Some(EncodeSeq(k, scope, s.table[m' - 1].fixed.position.value))
    ensures Caught(k, scope, f, s', marks + Marks(s.table, f, m, m'), m')
  {
    var more := Marks(s.table, f, m, m');
    MarksAre(s.table, f, m, m');
    DeliveredOn(s, s', marks, more, Filter(s.table[m..m'], Matches(f)), m);
    MarksConcat(s.table, f, m, m');
    forall j | j in marks + more ensures j < m' {
      assert j in marks || j in more;
    }
    forall i | 0 <= i < m' && Selects(f, s.table[i]) ensures i in marks + more {
      assert i < m ==> i in marks;
    }
  }

  lemma {:induction false} MarksConcat(table: seq<Event>, f: Filtering, m: nat, hi: nat)
    requires m <= hi <= |table|
    ensures Marks(table, f, 0, hi) == Marks(table, f, 0, m) + Marks(table, f, m, hi)
    decreases hi
  {
    if m < hi {
      MarksConcat(table, f, m, hi - 1);
    }
  }

  lemma {:induction false} FollowKeeps(k: Cursor.Signer, scope: string, f: Filtering, s: Tail, moves: seq<Move>, marks: seq<nat>, m: nat)
    returns (marks': seq<nat>, m': nat)
    requires Cursor.Lawful(k) && BySeq(f) && Lasting(f) && Caught(k, scope, f, s, marks, m)
    ensures Caught(k, scope, f, Follow(k, scope, f, s, moves), marks', m')
    decreases |moves|
  {
    marks', m' := marks, m;
    if moves != [] {
      match moves[0] {
        case Change(a) => ChangeKeeps(k, scope, f, s, a, marks, m);
        case Poll(limit) => marks', m' := PollKeeps(k, scope, f, s, limit, marks, m);
      }
      marks', m' := FollowKeeps(k, scope, f, Step(k, scope, f, s, moves[0]), moves[1..], marks', m');
    }
  }

  // ---- The theorem ----

  lemma CaughtMissesNone(k: Cursor.Signer, scope: string, f: Filtering, s: Tail, marks: seq<nat>, m: nat)
    requires Caught(k, scope, f, s, marks, m)
    ensures NothingMissed(f, s.table, marks)
  {
    forall i | 0 <= i < |s.table| && Asked(f, s.table[i]) && i !in marks ensures forall j :: j in marks ==> j < i {
      SelectsAsked(f, s.table[i]);
    }
  }

  lemma FrontListed(table: seq<Event>, f: Filtering, m: nat)
    requires Ascending(table) && Keyed(table) && BySeq(f) && m <= |table|
    ensures Ids(Filter(table[..m], Matches(f))) <= Ids(Full(table, f, true))
  {
    var (front, back) := (Filter(table[..m], Matches(f)), Filter(table[m..], Matches(f)));
    AscendingFull(table, f);
    assert table == table[..m] + table[m..];
    FilterConcat(table[..m], table[m..], Matches(f));
    assert Ids(front + back)[..|front|] == Ids(front);
  }

  lemma CaughtInOrder(k: Cursor.Signer, scope: string, f: Filtering, s: Tail, marks: seq<nat>, m: nat)
    requires Caught(k, scope, f, s, marks, m) && BySeq(f) && Settled(f)
    ensures InOrder(f, s)
  {
    MarksAre(s.table, f, 0, m);
    assert s.table[0..m] == s.table[..m];
    assert s.delivered == Ids(Filter(s.table[..m], Matches(f)));
    FrontListed(s.table, f, m);
  }

  lemma CaughtDelivers(k: Cursor.Signer, scope: string, f: Filtering, s: Tail, marks: seq<nat>, m: nat)
    requires Caught(k, scope, f, s, marks, m) && BySeq(f)
    ensures Delivers(f, s) && Distinct(s.delivered)
    ensures Settled(f) ==> InOrder(f, s)
  {
    CaughtMissesNone(k, scope, f, s, marks, m);
    if Settled(f) {
      CaughtInOrder(k, scope, f, s, marks, m);
    }
  }

  lemma CaughtUp(k: Cursor.Signer, scope: string, f: Filtering, s: Tail, marks: seq<nat>, m: nat)
    requires Caught(k, scope, f, s, marks, m) && Filter(s.table[m..], Matches(f)) == []
    ensures AllDelivered(f, s)
  {
    forall e | e in s.table && Asked(f, e) ensures e.fixed.id in s.delivered {
      SelectsAsked(f, e);
      var i :| 0 <= i < |s.table| && s.table[i] == e;
      if i >= m {
        NoneLeft(s.table[m..], f, i - m);
      }
      MarkDelivered(s, marks, i);
    }
  }

  lemma NoneLeft(rows: seq<Event>, f: Filtering, i: nat)
    requires Filter(rows, Matches(f)) == [] && i < |rows|
    ensures !Selects(f, rows[i])
  {
    FilterMembers(rows, Matches(f));
    assert Matches(f)(rows[i]) == Selects(f, rows[i]) && rows[i] in rows;
  }

  lemma MarkDelivered(s: Tail, marks: seq<nat>, i: nat)
    requires Delivered(s, marks) && i in marks && i < |s.table|
    ensures s.table[i].fixed.id in s.delivered
  {
    var n :| 0 <= n < |marks| && marks[n] == i;
  }

  /** A poll delivers selected events only, and a full page or everything that is left. */
  lemma PollDelivers(k: Cursor.Signer, scope: string, f: Filtering, s: Tail, limit: nat, marks: seq<nat>, m: nat)
    requires Cursor.Lawful(k) && BySeq(f) && Caught(k, scope, f, s, marks, m)
    ensures
      var s' := Step(k, scope, f, s, Poll(limit));
      && Delivers(f, s') && (Settled(f) ==> InOrder(f, s'))
      && s.delivered <= s'.delivered
      && (forall i :: |s.delivered| <= i < |s'.delivered| ==> SelectedId(f, s.table, s'.delivered[i]))
      && (AllDelivered(f, s') || |s'.delivered| == |s.delivered| + Clamp(limit))
  {
    var s' := Step(k, scope, f, s, Poll(limit));
    var marks', m' := PollKeeps(k, scope, f, s, limit, marks, m);
    CaughtDelivers(k, scope, f, s', marks', m');
    var rest := Filter(s.table[m..], Matches(f));
    ShownSelected(s.table, f, m, m');
    if |rest| <= Clamp(limit) {
      RestIsDone(s.table, f, m, m');
      CaughtUp(k, scope, f, s', marks', m');
    }
  }

  ghost predicate SelectedId(f: Filtering, table: seq<Event>, id: string) {
    exists e :: e in table && Asked(f, e) && e.fixed.id == id
  }

  lemma ShownSelected(table: seq<Event>, f: Filtering, m: nat, m': nat)
    requires m <= m' <= |table|
    ensures
      var ids := Ids(Filter(table[m..m'], Matches(f)));
      forall i :: 0 <= i < |ids| ==> SelectedId(f, table, ids[i])
  {
    var shown := Filter(table[m..m'], Matches(f));
    FilterMembers(table[m..m'], Matches(f));
    forall i | 0 <= i < |shown| ensures SelectedId(f, table, Ids(shown)[i]) {
      assert shown[i] in shown;
      assert shown[i] in table && Selects(f, shown[i]);
    }
  }

  /**
   Exactly once, in capture order: at every point of every run no selected event was passed over and
   none was delivered twice; a poll delivers selected events only, and either a full page or all that
   is left. Under a settled filter what was delivered is moreover the beginning of the listing.
   */
  lemma ExactlyOnce(k: Cursor.Signer, scope: string, f: Filtering, table: seq<Event>, moves: seq<Move>, limit: nat)
    requires Cursor.Lawful(k) && BySeq(f) && Lasting(f) && Keyed(table) && Ascending(table)
    ensures
      var s := Follow(k, scope, f, Tail(table, None, []), moves);
      var s' := Step(k, scope, f, s, Poll(limit));
      && Delivers(f, s) && Delivers(f, s') && Distinct(s.delivered)
      && (Settled(f) ==> InOrder(f, s) && InOrder(f, s'))
      && s.delivered <= s'.delivered
      && (forall i :: |s.delivered| <= i < |s'.delivered| ==> SelectedId(f, s.table, s'.delivered[i]))
      && (AllDelivered(f, s') || |s'.delivered| == |s.delivered| + Clamp(limit))
  {
    var start := Tail(table, None, []);
    var marks, m := FollowKeeps(k, scope, f, start, moves, [], 0);
    var s := Follow(k, scope, f, start, moves);
    CaughtDelivers(k, scope, f, s, marks, m);
    PollDelivers(k, scope, f, s, limit, marks, m);
  }

  lemma RestIsDone(table: seq<Event>, f: Filtering, m: nat, m': nat)
    requires m <= m' <= |table| && Filter(table[m..], Matches(f)) == Filter(table[m..m'], Matches(f))
    ensures Filter(table[m'..], Matches(f)) == []
  {
    assert table[m..] == table[m..m'] + table[m'..];
    FilterConcat(table[m..m'], table[m'..], Matches(f));
  }

  // ---- Exactly which filters can be tailed ----

  /** A system event in the inbox never has a target, so such a filter selects nothing, ever. */
  predicate SelectsNothing(f: Filtering) {
    f.kind == Some(System) && f.status == Some(Inbox) && f.target.Some?
  }

  ghost predicate NoTargetedSystemInbox(table: seq<Event>) {
    forall e :: e in table && KindOf(e) == System && e.status == Inbox ==> e.target.None?
  }

  lemma NothingStep(k: Cursor.Signer, scope: string, f: Filtering, s: Tail, m: Move)
    requires SelectsNothing(f) && NoTargetedSystemInbox(s.table) && s.cursor == None && s.delivered == []
    ensures
      var s' := Step(k, scope, f, s, m);
      NoTargetedSystemInbox(s'.table) && s'.cursor == None && s'.delivered == []
  {
    match m
    case Change(DoCapture(e, minted, attestation)) =>
    case Change(DoAssign(id, target)) => FindIsIndex(s.table, id);
    case Poll(limit) =>
      FilterNone(s.table, Where(f, true, None));
      FetchIs(k, scope, s.table, f, true, Clamp(limit), None, []);
  }

  lemma {:induction false} NothingFollow(k: Cursor.Signer, scope: string, f: Filtering, s: Tail, moves: seq<Move>)
    requires SelectsNothing(f) && NoTargetedSystemInbox(s.table) && s.cursor == None && s.delivered == []
    ensures Follow(k, scope, f, s, moves).delivered == []
    decreases |moves|
  {
    if moves != [] {
      NothingStep(k, scope, f, s, moves[0]);
      NothingFollow(k, scope, f, Step(k, scope, f, s, moves[0]), moves[1..]);
    }
  }

  /** An event a filter is interested in, but for its status and target. */
  function Sample(f: Filtering, id: string, target: Option<string>): NewEvent {
    NewEvent(Some(id), None, "", "", match f.labelSkill case None => "" case Some(l) => l, target, "", "", "",
             if f.kind == Some(System) then System else User, f.root, f.run)
  }

  function Arrive(f: Filtering, id: string, target: Option<string>): Move {
    Change(DoCapture(Sample(f, id, target), id, None))
  }

  lemma SampleSelected(f: Filtering, table: seq<Event>, id: string, target: Option<string>)
    ensures
      var row := NewRow(table, Sample(f, id, target), id, None);
      forall e: Event | e.fixed == row.fixed ::
        Selects(f, e) <==> (f.status.Some? ==> e.status == f.status.value) && (f.target.Some? ==> e.target == f.target)
  {}

  /** One poll of a caught-up tail whose listing has one event delivers that event. */
  lemma PollOne(k: Cursor.Signer, scope: string, f: Filtering, s: Tail, e: Event)
    requires Cursor.Lawful(k) && BySeq(f) && Keyed(s.table) && Ascending(s.table)
    requires s.cursor == None && s.delivered == [] && Full(s.table, f, true) == [e]
    ensures
      var s' := Step(k, scope, f, s, Poll(1));
      s'.table == s.table && s'.delivered == [e.fixed.id]
  {
    AscendingFull(s.table, f);
    assert s.table[0..] == s.table;
    var marks, m := PollKeeps(k, scope, f, s, 1, [], 0);
    assert Ids([e]) == [e.fixed.id];
  }

  lemma OneRow(f: Filtering, a: Event)
    requires BySeq(f) && a.fixed.position.Some?
    ensures Keyed([a]) && Ascending([a])
    ensures Full([a], f, true) == if Selects(f, a) then [a] else []
  {
    AscendingFull([a], f);
    assert [a][1..] == [];
  }

  lemma LeftListing(k: Cursor.Signer, scope: string, f: Filtering, a: Event)
    requires Cursor.Lawful(k) && BySeq(f) && f.status == Some(Inbox) && Selects(f, a)
    requires a.fixed.position == Some(1) && a.fixed.id == "a"
    ensures !InOrder(f, Step(k, scope, f, Step(k, scope, f, Tail([a], None, []), Poll(1)), Change(DoAssign("a", "t"))))
  {
    OneRow(f, a);
    PollOne(k, scope, f, Tail([a], None, []), a);
    var s2 := Step(k, scope, f, Tail([a], None, []), Poll(1));
    assert Find([a], "a") == Some(0);
    var a' := a.(status := Processed, target := Some("t"));
    var s3 := Step(k, scope, f, s2, Change(DoAssign("a", "t")));
    assert s3.table == [a'] && s3.delivered == ["a"];
    OneRow(f, a');
  }

  /** Delivered while in the inbox, then assigned: no longer in the listing it was delivered from. */
  lemma LeavesListing(k: Cursor.Signer, scope: string, f: Filtering) returns (moves: seq<Move>)
    requires Cursor.Lawful(k) && BySeq(f) && f.status == Some(Inbox) && !SelectsNothing(f)
    ensures !InOrder(f, Follow(k, scope, f, Tail([], None, []), moves))
  {
    var m1, m2, m3 := Arrive(f, "a", f.target), Poll(1), Change(DoAssign("a", "t"));
    moves := [m1, m2, m3];
    var s0 := Tail([], None, []);
    var a := NewRow([], Sample(f, "a", f.target), "a", None);
    SampleSelected(f, [], "a", f.target);
    assert Step(k, scope, f, s0, m1) == Tail([a], None, []);
    LeftListing(k, scope, f, a);
    Follow3(k, scope, f, s0, m1, m2, m3);
  }

  lemma Follow3(k: Cursor.Signer, scope: string, f: Filtering, s: Tail, m1: Move, m2: Move, m3: Move)
    ensures Follow(k, scope, f, s, [m1, m2, m3]) ==
            Step(k, scope, f, Step(k, scope, f, Step(k, scope, f, s, m1), m2), m3)
  {
    assert [m1, m2, m3][1..] == [m2, m3] && [m2, m3][1..] == [m3] && [m3][1..] == [];
    var s1 := Step(k, scope, f, s, m1);
    var s2 := Step(k, scope, f, s1, m2);
    assert Follow(k, scope, f, s2, [m3]) == Step(k, scope, f, s2, m3);
  }

  /** The later event is delivered, then the earlier one is assigned and joins the listing behind the cursor. */
  lemma JoinedBehind(k: Cursor.Signer, scope: string, f: Filtering, a: Event, b: Event, t: string, a': Event)
    requires Cursor.Lawful(k) && BySeq(f)
    requires a.fixed.position == Some(1) && b.fixed.position == Some(2) && a.fixed.id == "a" && b.fixed.id == "b"
    requires a.status == Inbox && a' == a.(status := Processed, target := Some(t))
    requires !Selects(f, a) && Selects(f, a') && Selects(f, b)
    ensures
      var s := Step(k, scope, f, Step(k, scope, f, Tail([a, b], None, []), Poll(1)), Change(DoAssign("a", t)));
      !InOrder(f, s) && !Delivers(f, s)
  {
    var s3 := Tail([a, b], None, []);
    TwoRows(f, a, b, false);
    PollOne(k, scope, f, s3, b);
    var s4 := Step(k, scope, f, s3, Poll(1));
    assert Find(s4.table, "a") == Some(0);
    var s5 := Step(k, scope, f, s4, Change(DoAssign("a", t)));
    assert s5.table == [a', b] && s5.delivered == ["b"];
    TwoRows(f, a', b, true);
    assert Ids(Full(s5.table, f, true))[0] == "a";
    forall marks | Delivered(s5, marks) ensures !NothingMissed(f, s5.table, marks) {
      assert marks[0] == 1 && 1 in marks;
      SelectsAsked(f, s5.table[0]);
      assert 0 !in marks && Asked(f, s5.table[0]);
    }
  }

  /** Two captured, the later assigned and delivered, then the earlier assigned: it is never delivered. */
  lemma JoinsBehind(k: Cursor.Signer, scope: string, f: Filtering) returns (moves: seq<Move>)
    requires Cursor.Lawful(k) && BySeq(f) && !Lasting(f)
    ensures
      var s := Follow(k, scope, f, Tail([], None, []), moves);
      !InOrder(f, s) && !Delivers(f, s)
  {
    var t := match f.target case None => "t" case Some(x) => x;
    var m1, m2, m3, m4, m5 :=
      Arrive(f, "a", None), Arrive(f, "b", None), Change(DoAssign("b", t)), Poll(1), Change(DoAssign("a", t));
    var s0 := Tail([], None, []);
    var a := NewRow([], Sample(f, "a", None), "a", None);
    var b := NewRow([a], Sample(f, "b", None), "b", None);
    assert [a][1..] == [] && MaxSeq([a]) == Some(1);
    SampleSelected(f, [], "a", None);
    SampleSelected(f, [a], "b", None);
    var a', b' := a.(status := Processed, target := Some(t)), b.(status := Processed, target := Some(t));
    TwoCaptured(k, scope, f, s0, a, b, m1, m2, m3, t, b');
    JoinedBehind(k, scope, f, a, b', t, a');
    Follow3(k, scope, f, s0, m1, m2, m3);
    Follow2(k, scope, f, Tail([a, b'], None, []), m4, m5);
    FollowConcat(k, scope, f, s0, [m1, m2, m3], [m4, m5]);
    moves := [m1, m2, m3] + [m4, m5];
  }

  lemma Follow2(k: Cursor.Signer, scope: string, f: Filtering, s: Tail, m1: Move, m2: Move)
    ensures Follow(k, scope, f, s, [m1, m2]) == Step(k, scope, f, Step(k, scope, f, s, m1), m2)
  {
    assert [m1, m2][1..] == [m2] && [m2][1..] == [];
    var s1 := Step(k, scope, f, s, m1);
    assert Follow(k, scope, f, s1, [m2]) == Step(k, scope, f, s1, m2);
  }

  lemma TwoCaptured(k: Cursor.Signer, scope: string, f: Filtering, s0: Tail, a: Event, b: Event,
                    m1: Move, m2: Move, m3: Move, t: string, b': Event)
    requires s0 == Tail([], None, [])
    requires a == NewRow([], Sample(f, "a", None), "a", None) && b == NewRow([a], Sample(f, "b", None), "b", None)
    requires m1 == Arrive(f, "a", None) && m2 == Arrive(f, "b", None) && m3 == Change(DoAssign("b", t))
    requires b' == b.(status := Processed, target := Some(t))
    ensures Step(k, scope, f, Step(k, scope, f, Step(k, scope, f, s0, m1), m2), m3) == Tail([a, b'], None, [])
  {
    var s1 := Step(k, scope, f, s0, m1);
    assert s1.table == [a];
    assert [a][1..] == [];
    assert Find([a], "b") == None;
    var s2 := Step(k, scope, f, s1, m2);
    assert s2.table == [a, b];
    assert [a, b][1..] == [b];
    assert Find([a, b], "b") == Some(1);
  }

  /** The listing of two rows of which the second is selected. */
  lemma TwoRows(f: Filtering, a: Event, b: Event, both: bool)
    requires BySeq(f) && Selects(f, b) && Selects(f, a) == both
    requires a.fixed.position == Some(1) && b.fixed.position == Some(2) && a.fixed.id != b.fixed.id
    ensures Keyed([a, b]) && Ascending([a, b])
    ensures Full([a, b], f, true) == if both then [a, b] else [b]
  {
    AscendingFull([a, b], f);
    assert [a, b][1..] == [b] && [b][1..] == [];
    assert Filter([b], Matches(f)) == [b];
  }

  lemma {:induction false} FollowConcat(k: Cursor.Signer, scope: string, f: Filtering, s: Tail, xs: seq<Move>, ys: seq<Move>)
    ensures Follow(k, scope, f, s, xs + ys) == Follow(k, scope, f, Follow(k, scope, f, s, xs), ys)
    decreases |xs|
  {
    if xs == [] {
      assert xs + ys == ys;
    } else {
      assert (xs + ys)[1..] == xs[1..] + ys;
      FollowConcat(k, scope, f, Step(k, scope, f, s, xs[0]), xs[1..], ys);
    }
  }

  /**
   Tailing delivers every event once, in capture order, over every run iff the filter settles what it
   selects at capture or asks for the inbox: otherwise an assignment selects an event behind the cursor.
   */
  lemma TailIff(k: Cursor.Signer, scope: string, f: Filtering)
    requires Cursor.Lawful(k) && BySeq(f)
    ensures (forall moves :: Delivers(f, Follow(k, scope, f, Tail([], None, []), moves))) <==> Lasting(f)
  {
    if Lasting(f) {
      forall moves ensures Delivers(f, Follow(k, scope, f, Tail([], None, []), moves)) {
        ExactlyOnce(k, scope, f, [], moves, 1);
      }
    } else {
      var moves := JoinsBehind(k, scope, f);
    }
  }

  /**
   What was delivered stays the beginning of the listing over every run iff the filter is settled (or
   asks for a combination no event ever has): an event delivered from the inbox may leave it.
   */
  lemma PrefixIff(k: Cursor.Signer, scope: string, f: Filtering)
    requires Cursor.Lawful(k) && BySeq(f)
    ensures (forall moves :: InOrder(f, Follow(k, scope, f, Tail([], None, []), moves))) <==> Settled(f) || SelectsNothing(f)
  {
    if Settled(f) {
      forall moves ensures InOrder(f, Follow(k, scope, f, Tail([], None, []), moves)) {
        ExactlyOnce(k, scope, f, [], moves, 1);
      }
    } else if SelectsNothing(f) {
      forall moves ensures InOrder(f, Follow(k, scope, f, Tail([], None, []), moves)) {
        NothingFollow(k, scope, f, Tail([], None, []), moves);
      }
    } else if f.status == Some(Inbox) {
      var moves := LeavesListing(k, scope, f);
    } else {
      var moves := JoinsBehind(k, scope, f);
    }
  }
}

/** Paged chat history (escurel-index/src/chat.rs, `list_chat_messages`), over `(ts, msg_id)`. */
module ChatPaging {

  import opened Wrappers
  import opened Ordering
  import opened Text
  import opened Keyset
  import EventPaging
  import Cursor
  import Decimal

  const MAX_LIMIT: nat := 1000

  /** `ts` is in microseconds; the wire shows it at second precision. */
  datatype Row = Row(group: string, id: string, ts: int, role: string, author: Option<string>, content: string)

  datatype Message = Message(group: string, id: string, wireTs: int, role: string, author: Option<string>, content: string)

  /** A bound that does not parse as a timestamp compares to nothing. */
  datatype Bound = Absent | Timestamp(us: int) | Unparsable

  datatype Query = Query(group: string, since: Bound, until: Bound, asc: bool)

  predicate Selects(q: Query, r: Row) {
    && r.group == q.group
    && (match q.since case Absent => true case Timestamp(t) => r.ts >= t case Unparsable => false)
    && (match q.until case Absent => true case Timestamp(t) => r.ts < t case Unparsable => false)
  }

  function Matches(q: Query): Row -> bool { (r: Row) => Selects(q, r) }

  function Order(asc: bool): Leq<Row> {
    (a: Row, b: Row) => !EventPaging.Before(asc, Some(b.ts), b.id, Some(a.ts), a.id)
  }

  lemma OrderTotal(asc: bool)
    ensures TotalPreorder(Order(asc))
  {
    var le := Order(asc);
    forall x, y ensures le(x, y) || le(y, x) {
      EventPaging.BeforeStrict(asc, Some(x.ts), x.id, Some(y.ts), y.id);
    }
    forall x, y, z | le(x, y) && le(y, z) ensures le(x, z) {
      if EventPaging.Before(asc, Some(z.ts), z.id, Some(x.ts), x.id) {
        EventPaging.BeforeStrict(asc, Some(x.ts), x.id, Some(y.ts), y.id);
        EventPaging.BeforeStrict(asc, Some(y.ts), y.id, Some(z.ts), z.id);
        if EventPaging.Before(asc, Some(x.ts), x.id, Some(y.ts), y.id) {
          EventPaging.BeforeTrans(asc, Some(z.ts), z.id, Some(x.ts), x.id, Some(y.ts), y.id);
        }
      }
    }
  }

  // ---- Cursor ----

  datatype Place = Place(ts: string, id: string)

  function Encode(k: Cursor.Signer, scope: string, ts: int, id: string): string {
    Cursor.Seal(k, scope, Decimal.Show(ts) + "|" + id)
  }

  function Decode(k: Cursor.Signer, scope: string, token: string): Option<Place> {
    match Cursor.Unseal(k, scope, token)
    case None => None
    case Some(s) => match SplitOnce(s, '|') case None => None case Some((ts, id)) => Some(Place(ts, id))
  }

  /** `(ts, msg_id) > (?, ?)`, or `<` going down. */
  predicate Resumes(asc: bool, p: Place, r: Row) {
    var t := Decimal.Parse(p.ts);
    && t.Some?
    && if asc then r.ts > t.value || (r.ts == t.value && LexLess(p.id, r.id))
       else r.ts < t.value || (r.ts == t.value && LexLess(r.id, p.id))
  }

  lemma ResumesAfter(k: Cursor.Signer, scope: string, asc: bool, last: Row, r: Row)
    requires Cursor.Lawful(k)
    ensures
      var p := Decode(k, scope, Encode(k, scope, last.ts, last.id));
      p.Some? && (Resumes(asc, p.value, r) <==> !Order(asc)(r, last))
  {
    var head := Decimal.Show(last.ts);
    Decimal.ParseShow(last.ts);
    Cursor.UnsealSeal(k, scope, head + "|" + last.id);
    SplitOnceAt(head, '|', last.id);
  }

  // ---- A page ----

  datatype Page = Page(messages: seq<Message>, next: Option<string>)

  datatype Error = InvalidCursor

  function Clamp(limit: nat): (n: nat)
    ensures 1 <= n <= 1000 && (1 <= limit <= 1000 ==> n == limit) && (limit > 1000 ==> n == 1000)
  {
    if limit < 1 then 1 else if limit > MAX_LIMIT then MAX_LIMIT else limit
  }

  function Wire(r: Row): Message { Message(r.group, r.id, r.ts / 1_000_000, r.role, r.author, r.content) }

  function WireAll(rows: seq<Row>): seq<Message> {
    seq(|rows|, i requires 0 <= i < |rows| => Wire(rows[i]))
  }

  function Where(q: Query, p: Option<Place>): Row -> bool {
    (r: Row) => Selects(q, r) && (p.Some? ==> Resumes(q.asc, p.value, r))
  }

  function Full(table: seq<Row>, q: Query): seq<Row> { Listing(table, Matches(q), Order(q.asc)) }

  /** `(chat_group_id, ts, msg_id)` is the primary key. */
  ghost predicate Keyed(table: seq<Row>) {
    forall i, j :: 0 <= i < j < |table| ==>
      (table[i].group, table[i].ts, table[i].id) != (table[j].group, table[j].ts, table[j].id)
  }

  lemma KeysDecideRows(table: seq<Row>, q: Query)
    requires Keyed(table)
    ensures KeysDecide(Filter(table, Matches(q)), Order(q.asc))
  {
    var le := Order(q.asc);
    assert Distinct(table);
    FilterDistinct(table, Matches(q));
    FilterMembers(table, Matches(q));
    forall x, y | x in Filter(table, Matches(q)) && y in Filter(table, Matches(q)) && le(x, y) && le(y, x) ensures x == y {
      EventPaging.BeforeStrict(q.asc, Some(x.ts), x.id, Some(y.ts), y.id);
      assert x in table && y in table;
    }
  }

  /** The cursor a client holds after `n` rows. */
  ghost predicate Points(k: Cursor.Signer, scope: string, table: seq<Row>, q: Query, cursor: Option<string>, n: nat) {
    n <= |Full(table, q)| && (
      if n == 0 then cursor == None
      else cursor == Some(Encode(k, scope, Full(table, q)[n - 1].ts, Full(table, q)[n - 1].id)))
  }

  /** The decoded cursor; `None` for no cursor at all. */
  function Opened(k: Cursor.Signer, scope: string, cursor: Option<string>): Result<Option<Place>, Error> {
    if cursor.None? then Ok(None)
    else match Decode(k, scope, cursor.value) case None => Err(InvalidCursor) case Some(p) => Ok(Some(p))
  }

  lemma RestOfListing(k: Cursor.Signer, scope: string, table: seq<Row>, q: Query, cursor: Option<string>, n: nat)
    returns (p: Option<Place>)
    requires Cursor.Lawful(k) && Keyed(table) && Points(k, scope, table, q, cursor, n)
    ensures Opened(k, scope, cursor) == Ok(p)
    ensures Listing(table, Where(q, p), Order(q.asc)) == Full(table, q)[n..]
  {
    var full := Full(table, q);
    if n == 0 {
      p := None;
      FilterSame(table, Matches(q), Where(q, p));
      assert full[0..] == full;
    } else {
      var le := Order(q.asc);
      var last := full[n - 1];
      ResumesAfter(k, scope, q.asc, last, last);
      p := Decode(k, scope, cursor.value);
      KeysDecideRows(table, q);
      OrderTotal(q.asc);
      var resume := (r: Row) => Resumes(q.asc, p.value, r);
      forall r | r in table && Selects(q, r) ensures resume(r) <==> !le(r, last) {
        ResumesAfter(k, scope, q.asc, last, r);
      }
      ResumeIsSuffix(table, Matches(q), le, resume, Where(q, p), n - 1);
    }
  }

  /** The first `n` of the rows that remain, and a cursor when there are more. */
  function PageOf(k: Cursor.Signer, scope: string, rest: seq<Row>, n: nat): Page
    requires n >= 1
  {
    Page(WireAll(Take(rest, n)),
         if |rest| > n then Some(Encode(k, scope, rest[n - 1].ts, rest[n - 1].id)) else None)
  }

  lemma WireSlices(full: seq<Row>, n: nat, m: nat)
    requires n <= m <= |full|
    ensures WireAll(full[..n]) + WireAll(full[n..m]) == WireAll(full[..m])
  {}

  lemma PageOfSlice(k: Cursor.Signer, scope: string, full: seq<Row>, n: nat, limit: nat) returns (m: nat)
    requires n <= |full| && limit >= 1
    ensures n <= m <= |full| && (m == |full| || n < m)
    ensures PageOf(k, scope, full[n..], limit).messages == WireAll(full[n..m])
    ensures PageOf(k, scope, full[n..], limit).next ==
            if m < |full| then Some(Encode(k, scope, full[m - 1].ts, full[m - 1].id)) else None
  {
    m := if |full| - n <= limit then |full| else n + limit;
    EventPaging.Slices(full, n, m);
  }

  /**
   One page. The loop reads the fetched rows into the wire messages and, beside them, the cursor
   timestamps at full precision; both are cut to the limit when a row lies past it.
   */
  method ListMessages(k: Cursor.Signer, scope: string, table: seq<Row>, q: Query, limit: nat, cursor: Option<string>)
    returns (r: Result<Page, Error>)
    ensures
      match Opened(k, scope, cursor)
      case Err(e) => r == Err(e)
      case Ok(p) => r == Ok(PageOf(k, scope, Listing(table, Where(q, p), Order(q.asc)), Clamp(limit)))
  {
    var n := Clamp(limit);
    var place := Opened(k, scope, cursor);
    if place.Err? {
      return Err(place.error);
    }
    var rest := Listing(table, Where(q, place.value), Order(q.asc));
    var rows := Take(rest, n + 1);
    var messages: seq<Message> := [];
    var cursorTs: seq<int> := [];
    for i := 0 to |rows|
      invariant messages == WireAll(rows[..i])
      invariant |cursorTs| == i && forall j :: 0 <= j < i ==> cursorTs[j] == rows[j].ts
    {
      messages := messages + [Wire(rows[i])];
      cursorTs := cursorTs + [rows[i].ts];
    }
    assert rows[..|rows|] == rows;
    if |messages| > n {
      messages, cursorTs := messages[..n], cursorTs[..n];
      assert rest[..n] == rows[..n] && messages == WireAll(rest[..n]);
      return Ok(Page(messages, Some(Encode(k, scope, cursorTs[n - 1], messages[n - 1].id))));
    }
    return Ok(Page(messages, None));
  }

  /** The history is the selected messages, each once, in order. */
  lemma FullIsSorted(table: seq<Row>, q: Query)
    requires Keyed(table)
    ensures multiset(Full(table, q)) == multiset(Filter(table, Matches(q)))
    ensures Sorted(Full(table, q), Order(q.asc)) && Distinct(Full(table, q))
  {
    SortPerm(Filter(table, Matches(q)), Order(q.asc));
    OrderTotal(q.asc);
    SortSorted(Filter(table, Matches(q)), Order(q.asc));
    assert Distinct(table);
    FilterDistinct(table, Matches(q));
    SortDistinct(Filter(table, Matches(q)), Order(q.asc));
  }

  /** What a query asks of a row: its group, at or after one bound and before the other; a bound no timestamp meets nothing. */
  ghost predicate Asked(q: Query, r: Row) {
    && r.group == q.group
    && q.since != Unparsable && (forall t :: q.since == Timestamp(t) ==> t <= r.ts)
    && q.until != Unparsable && (forall t :: q.until == Timestamp(t) ==> r.ts < t)
  }

  predicate Precedes(asc: bool, a: Row, b: Row) {
    if asc then a.ts < b.ts || (a.ts == b.ts && LexLess(a.id, b.id)) else b.ts < a.ts || (a.ts == b.ts && LexLess(b.id, a.id))
  }

  /** The message is the row, its timestamp cut to the second. */
  predicate Shows(m: Message, r: Row) {
    && m.group == r.group && m.id == r.id && m.role == r.role && m.author == r.author && m.content == r.content
    && m.wireTs * 1_000_000 <= r.ts < (m.wireTs + 1) * 1_000_000
  }

  lemma FullMeans(table: seq<Row>, q: Query)
    requires Keyed(table)
    ensures forall r :: r in Full(table, q) <==> r in table && Asked(q, r)
    ensures forall i, j :: 0 <= i < j < |Full(table, q)| ==> Precedes(q.asc, Full(table, q)[i], Full(table, q)[j])
  {
    var full := Full(table, q);
    ListingMembers(table, Matches(q), Order(q.asc));
    forall r ensures Selects(q, r) <==> Asked(q, r) {}
    FullIsSorted(table, q);
    forall i, j | 0 <= i < j < |full| ensures Precedes(q.asc, full[i], full[j]) {
      assert full[i] in full && full[j] in full && Order(q.asc)(full[i], full[j]);
      EventPaging.BeforeStrict(q.asc, Some(full[i].ts), full[i].id, Some(full[j].ts), full[j].id);
      OtherKey(table, full[i], full[j]);
    }
  }

  lemma OtherKey(table: seq<Row>, a: Row, b: Row)
    requires Keyed(table) && a in table && b in table && a != b && a.group == b.group
    ensures a.ts != b.ts || a.id != b.id
  {}

  /** Following `next` until it is absent reads the selected history once each, in order. */
  method ReadAll(k: Cursor.Signer, scope: string, table: seq<Row>, q: Query, limit: nat) returns (all: seq<Message>)
    requires Cursor.Lawful(k) && Keyed(table)
    ensures all == WireAll(Full(table, q))
    ensures multiset(Full(table, q)) == multiset(Filter(table, Matches(q)))
    ensures Sorted(Full(table, q), Order(q.asc)) && Distinct(Full(table, q))
    ensures forall r :: r in Full(table, q) <==> r in table && Asked(q, r)
    ensures forall i, j :: 0 <= i < j < |all| ==> Precedes(q.asc, Full(table, q)[i], Full(table, q)[j])
    ensures forall i :: 0 <= i < |all| ==> Shows(all[i], Full(table, q)[i])
  {
    FullIsSorted(table, q);
    FullMeans(table, q);
    all := ReadPages(k, scope, table, q, limit);
  }

  method ReadPages(k: Cursor.Signer, scope: string, table: seq<Row>, q: Query, limit: nat) returns (all: seq<Message>)
    requires Cursor.Lawful(k) && Keyed(table)
    ensures all == WireAll(Full(table, q))
  {
    all := [];
    var cursor: Option<string> := None;
    ghost var full := Full(table, q);
    while true
      invariant Points(k, scope, table, q, cursor, |all|)
      invariant all == WireAll(full[..|all|])
      decreases |full| - |all|
    {
      ghost var p := RestOfListing(k, scope, table, q, cursor, |all|);
      var page := ListMessages(k, scope, table, q, limit, cursor);
      ghost var m := PageOfSlice(k, scope, full, |all|, Clamp(limit));
      WireSlices(full, |all|, m);
      all := all + page.value.messages;
      if page.value.next.None? {
        return;
      }
      cursor := page.value.next;
    }
  }
}

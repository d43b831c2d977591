/**
 Paged event listings (escurel-index/src/events.rs, `paged_events` and `EventCursor`): chronological
 with NULL timestamps last in both directions, or by ingestion position for a label, a lineage or a
 run; resumed through the sealed cursor strings.
 */
module EventPaging {

  import opened Wrappers
  import opened Ordering
  import opened Text
  import opened Keyset
  import opened Events
  import Cursor
  import Decimal

  const EVENTS_MAX_LIMIT: nat := 10_000

  datatype Filtering = Filtering(
    target: Option<string>,
    root: Option<string>,
    run: Option<string>,
    labelSkill: Option<string>,
    kind: Option<Kind>,
    includeSystem: bool,
    status: Option<Status>)

  function KindOf(e: Event): Kind { if e.fixed.kind.None? then User else e.fixed.kind.value }

  predicate Selects(f: Filtering, e: Event) {
    && (f.target.Some? ==> e.target == f.target)
    && (f.root.Some? ==> e.fixed.root == f.root || e.fixed.id == f.root.value)
    && (f.run.Some? ==> e.fixed.run == f.run)
    && (f.labelSkill.Some? ==> e.fixed.labelSkill == f.labelSkill.value)
    && (f.status.Some? ==> e.status == f.status.value)
    && (match f.kind
        case Some(k) => KindOf(e) == k
        case None => f.includeSystem || KindOf(e) != System)
  }

  /** What a filter asks of a row, field by field; a row without a kind is a user row. */
  predicate Asked(f: Filtering, e: Event) {
    && f.target in {None, e.target}
    && (f.root in {None, e.fixed.root} || f.root == Some(e.fixed.id))
    && f.run in {None, e.fixed.run}
    && f.labelSkill in {None, Some(e.fixed.labelSkill)}
    && f.status in {None, Some(e.status)}
    && (f.kind == Some(System) ==> e.fixed.kind == Some(System))
    && (f.kind == Some(User) ==> e.fixed.kind != Some(System))
    && (f.kind == None && !f.includeSystem ==> e.fixed.kind != Some(System))
  }

  function Matches(f: Filtering): Event -> bool { (e: Event) => Selects(f, e) }

  /** A label, a lineage or a run is a tail and pages by ingestion position. */
  predicate BySeq(f: Filtering) { f.labelSkill.Some? || f.root.Some? || f.run.Some? }

  // ---- Order ----

  function SortKey(bySeq: bool, e: Event): Option<int> { if bySeq then e.fixed.position else e.fixed.at }

  /** `key <dir> NULLS LAST, event_id <dir>`. */
  predicate Before(asc: bool, key: Option<int>, id: string, key': Option<int>, id': string) {
    match (key, key')
    case (Some(_), None) => true
    case (None, Some(_)) => false
    case (None, None) => if asc then LexLess(id, id') else LexLess(id', id)
    case (Some(a), Some(b)) =>
      if a == b then (if asc then LexLess(id, id') else LexLess(id', id))
      else if asc then a < b else b < a
  }

  function Order(bySeq: bool, asc: bool): Leq<Event> {
    (a: Event, b: Event) => !Before(asc, SortKey(bySeq, b), b.fixed.id, SortKey(bySeq, a), a.fixed.id)
  }

  lemma BeforeStrict(asc: bool, k: Option<int>, i: string, k': Option<int>, i': string)
    ensures !(Before(asc, k, i, k', i') && Before(asc, k', i', k, i))
    ensures Before(asc, k, i, k', i') || Before(asc, k', i', k, i) || (k == k' && i == i')
    ensures k == k' && i == i' ==> !Before(asc, k, i, k', i')
  {
    LexTotal(i, i');
    LexTotal(i', i);
  }

  lemma BeforeTrans(asc: bool, k: Option<int>, i: string, k': Option<int>, i': string, k'': Option<int>, i'': string)
    requires Before(asc, k, i, k', i') && Before(asc, k', i', k'', i'')
    ensures Before(asc, k, i, k'', i'')
  {
    if k == k' == k'' {
      if asc { LexTrans(i, i', i''); } else { LexTrans(i'', i', i); }
    }
  }

  lemma OrderTotal(bySeq: bool, asc: bool)
    ensures TotalPreorder(Order(bySeq, asc))
  {
    var le := Order(bySeq, asc);
    forall x, y ensures le(x, y) || le(y, x) {
      BeforeStrict(asc, SortKey(bySeq, x), x.fixed.id, SortKey(bySeq, y), y.fixed.id);
    }
    forall x, y, z | le(x, y) && le(y, z) ensures le(x, z) {
      var (a, b, c) := (SortKey(bySeq, x), SortKey(bySeq, y), SortKey(bySeq, z));
      if Before(asc, c, z.fixed.id, a, x.fixed.id) {
        BeforeStrict(asc, a, x.fixed.id, b, y.fixed.id);
        BeforeStrict(asc, b, y.fixed.id, c, z.fixed.id);
        if Before(asc, a, x.fixed.id, b, y.fixed.id) {
          BeforeTrans(asc, c, z.fixed.id, a, x.fixed.id, b, y.fixed.id);
        }
      }
    }
  }

  // ---- Cursors ----

  datatype EventCursor = At(at: Option<string>, id: string) | Seq(n: int)

  const SEQ_TAG := "seq"

  function EncodeAt(k: Cursor.Signer, scope: string, at: Option<int>, id: string): string {
    Cursor.Seal(k, scope, (match at case None => "" case Some(t) => Decimal.Show(t)) + "|" + id)
  }

  function EncodeSeq(k: Cursor.Signer, scope: string, n: int): string {
    Cursor.Seal(k, scope, SEQ_TAG + "|" + Decimal.Show(n))
  }

  function Decode(k: Cursor.Signer, scope: string, token: string): Option<EventCursor> {
    match Cursor.Unseal(k, scope, token)
    case None => None
    case Some(s) =>
      match SplitOnce(s, '|')
      case None => None
      case Some((head, tail)) =>
        if head == SEQ_TAG then
          match Decimal.Parse(tail) case None => None case Some(n) => Some(Seq(n))
        else Some(At(if head == "" then None else Some(head), tail))
  }

  lemma DecodeAt(k: Cursor.Signer, scope: string, at: Option<int>, id: string)
    requires Cursor.Lawful(k)
    ensures Decode(k, scope, EncodeAt(k, scope, at, id)) ==
            Some(At(match at case None => None case Some(t) => Some(Decimal.Show(t)), id))
  {
    var head := match at case None => "" case Some(t) => Decimal.Show(t);
    if at.Some? {
      Decimal.ParseShow(at.value);
      assert head[0] in head;
    }
    Cursor.UnsealSeal(k, scope, head + "|" + id);
    SplitOnceAt(head, '|', id);
  }

  lemma DecodeSeq(k: Cursor.Signer, scope: string, n: int)
    requires Cursor.Lawful(k)
    ensures Decode(k, scope, EncodeSeq(k, scope, n)) == Some(Seq(n))
  {
    Cursor.UnsealSeal(k, scope, SEQ_TAG + "|" + Decimal.Show(n));
    SplitOnceAt(SEQ_TAG, '|', Decimal.Show(n));
    Decimal.ParseShow(n);
  }

  /** The resume predicate, comparison by comparison; NULL compares to nothing. */
  predicate Resumes(asc: bool, c: EventCursor, e: Event) {
    match c
    case Seq(n) => e.fixed.position.Some? && if asc then e.fixed.position.value > n else e.fixed.position.value < n
    case At(None, id) => e.fixed.at.None? && IdPast(asc, e.fixed.id, id)
    case At(Some(text), id) =>
      var at := Decimal.Parse(text);
      || (e.fixed.at.Some? && at.Some? && if asc then e.fixed.at.value > at.value else e.fixed.at.value < at.value)
      || (e.fixed.at.Some? && at.Some? && e.fixed.at.value == at.value && IdPast(asc, e.fixed.id, id))
      || e.fixed.at.None?
  }

  predicate IdPast(asc: bool, id: string, cursor: string) {
    if asc then LexLess(cursor, id) else LexLess(id, cursor)
  }

  // ---- A page ----

  datatype Page = Page(events: seq<Event>, next: Option<string>, resume: Option<string>)

  datatype PageError = InvalidCursor

  function Clamp(limit: nat): (n: nat)
    ensures 1 <= n <= 10_000 && (1 <= limit <= 10_000 ==> n == limit) && (limit > 10_000 ==> n == 10_000)
  {
    if limit < 1 then 1 else if limit > EVENTS_MAX_LIMIT then EVENTS_MAX_LIMIT else limit
  }

  function CursorOf(k: Cursor.Signer, scope: string, bySeq: bool, e: Event): string {
    if bySeq && e.fixed.position.Some? then EncodeSeq(k, scope, e.fixed.position.value)
    else EncodeAt(k, scope, e.fixed.at, e.fixed.id)
  }

  function Where(f: Filtering, asc: bool, c: Option<EventCursor>): Event -> bool {
    (e: Event) => Selects(f, e) && (c.Some? ==> Resumes(asc, c.value, e))
  }

  /** Fetch one row more than the limit to learn whether the listing goes on. */
  function Fetch(k: Cursor.Signer, scope: string, table: seq<Event>, f: Filtering, asc: bool, limit: nat, c: Option<EventCursor>): Page {
    var rows := Take(Listing(table, Where(f, asc, c), Order(BySeq(f), asc)), limit + 1);
    var shown := Take(rows, limit);
    var resume := if shown == [] then None else Some(CursorOf(k, scope, BySeq(f), shown[|shown| - 1]));
    Page(shown, if |rows| > limit then resume else None, resume)
  }

  function PagedEvents(k: Cursor.Signer, scope: string, table: seq<Event>, f: Filtering, asc: bool, limit: nat,
                       cursor: Option<string>): Result<Page, PageError>
  {
    match cursor
    case None => Ok(Fetch(k, scope, table, f, asc, Clamp(limit), None))
    case Some(raw) =>
      match Decode(k, scope, raw)
      case None => Err(InvalidCursor)
      case Some(c) =>
        if BySeq(f) != c.Seq? then Err(InvalidCursor)
        else Ok(Fetch(k, scope, table, f, asc, Clamp(limit), Some(c)))
  }

  /** A request is refused exactly when its cursor does not open, is no cursor, or is one of the other kind of listing. */
  lemma RefusedIff(k: Cursor.Signer, scope: string, table: seq<Event>, f: Filtering, asc: bool, limit: nat, cursor: Option<string>)
    ensures PagedEvents(k, scope, table, f, asc, limit, cursor).Err? <==>
            cursor.Some? && !exists c :: Decode(k, scope, cursor.value) == Some(c)
                                         && (c.Seq? <==> f.labelSkill.Some? || f.root.Some? || f.run.Some?)
  {}

  /** What a payload decodes to: a number after `seq|`, else whatever is around its first bar. */
  lemma DecodeMeans(k: Cursor.Signer, scope: string, token: string, head: string, tail: string)
    requires Cursor.Unseal(k, scope, token) == Some(head + ['|'] + tail) && '|' !in head
    ensures head == "seq" ==>
              Decode(k, scope, token) == if Decimal.Parse(tail).Some? then Some(Seq(Decimal.Parse(tail).value)) else None
    ensures head != "seq" ==> Decode(k, scope, token) == Some(At(if head == "" then None else Some(head), tail))
  {
    SplitOnceAt(head, '|', tail);
  }

  // ---- Refinement of the full listing ----

  function Full(table: seq<Event>, f: Filtering, asc: bool): seq<Event> {
    Listing(table, Matches(f), Order(BySeq(f), asc))
  }

  /** Listings by position need every selected row positioned, no two alike. */
  ghost predicate Positioned(table: seq<Event>, f: Filtering) {
    && (forall e :: e in table && Selects(f, e) ==> e.fixed.position.Some?)
    && (forall e, e' :: e in table && e' in table && Selects(f, e) && Selects(f, e') ==>
          e.fixed.position == e'.fixed.position ==> e == e')
  }

  lemma KeysDecideRows(table: seq<Event>, f: Filtering, asc: bool)
    requires Keyed(table)
    ensures KeysDecide(Filter(table, Matches(f)), Order(BySeq(f), asc))
  {
    var le := Order(BySeq(f), asc);
    assert Distinct(table);
    FilterDistinct(table, Matches(f));
    FilterMembers(table, Matches(f));
    forall x, y | x in Filter(table, Matches(f)) && y in Filter(table, Matches(f)) && le(x, y) && le(y, x) ensures x == y {
      BeforeStrict(asc, SortKey(BySeq(f), x), x.fixed.id, SortKey(BySeq(f), y), y.fixed.id);
      assert x in table && y in table;
    }
  }

  /** The cursor of a row resumes exactly at the rows that sort after it. */
  lemma ResumesAfter(k: Cursor.Signer, scope: string, table: seq<Event>, f: Filtering, asc: bool, last: Event, e: Event)
    requires Cursor.Lawful(k) && (BySeq(f) ==> Positioned(table, f))
    requires last in table && Selects(f, last) && e in table && Selects(f, e)
    ensures
      var c := Decode(k, scope, CursorOf(k, scope, BySeq(f), last));
      && c.Some? && c.value.Seq? == BySeq(f)
      && (Resumes(asc, c.value, e) <==> !Order(BySeq(f), asc)(e, last))
  {
    var (key, key') := (SortKey(BySeq(f), last), SortKey(BySeq(f), e));
    BeforeStrict(asc, key, last.fixed.id, key', e.fixed.id);
    if BySeq(f) {
      DecodeSeq(k, scope, last.fixed.position.value);
    } else {
      DecodeAt(k, scope, last.fixed.at, last.fixed.id);
      if last.fixed.at.Some? {
        Decimal.ParseShow(last.fixed.at.value);
      }
    }
  }

  /** The cursor strings a client may hold after `n` rows: none at the start, else the last row's. */
  ghost predicate Points(k: Cursor.Signer, scope: string, table: seq<Event>, f: Filtering, asc: bool, cursor: Option<string>, n: nat) {
    n <= |Full(table, f, asc)| && (
      if n == 0 then cursor == None
      else cursor == Some(CursorOf(k, scope, BySeq(f), Full(table, f, asc)[n - 1])))
  }

  lemma RestOfListing(k: Cursor.Signer, scope: string, table: seq<Event>, f: Filtering, asc: bool, limit: nat, cursor: Option<string>, n: nat)
    returns (c: Option<EventCursor>)
    requires Cursor.Lawful(k) && Keyed(table) && (BySeq(f) ==> Positioned(table, f))
    requires Points(k, scope, table, f, asc, cursor, n)
    ensures PagedEvents(k, scope, table, f, asc, limit, cursor) == Ok(Fetch(k, scope, table, f, asc, Clamp(limit), c))
    ensures Listing(table, Where(f, asc, c), Order(BySeq(f), asc)) == Full(table, f, asc)[n..]
  {
    var full := Full(table, f, asc);
    if n == 0 {
      c := None;
      FilterSame(table, Matches(f), Where(f, asc, c));
      assert full[0..] == full;
    } else {
      ListingMembers(table, Matches(f), Order(BySeq(f), asc));
      var last := full[n - 1];
      assert last in full;
      ResumesAfter(k, scope, table, f, asc, last, last);
      c := Decode(k, scope, cursor.value);
      RestAfter(k, scope, table, f, asc, n, c);
    }
  }

  function ResumesFrom(asc: bool, c: EventCursor): Event -> bool { (e: Event) => Resumes(asc, c, e) }

  lemma SuffixAfter(table: seq<Event>, f: Filtering, asc: bool, n: nat, c: EventCursor)
    requires Keyed(table) && 0 < n <= |Full(table, f, asc)|
    requires forall e :: e in table && Selects(f, e) ==> (Resumes(asc, c, e) <==> !Order(BySeq(f), asc)(e, Full(table, f, asc)[n - 1]))
    ensures Listing(table, Where(f, asc, Some(c)), Order(BySeq(f), asc)) == Full(table, f, asc)[n..]
  {
    KeysDecideRows(table, f, asc);
    OrderTotal(BySeq(f), asc);
    ResumeIsSuffix(table, Matches(f), Order(BySeq(f), asc), ResumesFrom(asc, c), Where(f, asc, Some(c)), n - 1);
  }

  lemma RestAfter(k: Cursor.Signer, scope: string, table: seq<Event>, f: Filtering, asc: bool, n: nat, c: Option<EventCursor>)
    requires Cursor.Lawful(k) && Keyed(table) && (BySeq(f) ==> Positioned(table, f))
    requires 0 < n <= |Full(table, f, asc)| && c.Some?
    requires c == Decode(k, scope, CursorOf(k, scope, BySeq(f), Full(table, f, asc)[n - 1]))
    ensures Listing(table, Where(f, asc, c), Order(BySeq(f), asc)) == Full(table, f, asc)[n..]
  {
    var le, last := Order(BySeq(f), asc), Full(table, f, asc)[n - 1];
    ListingMembers(table, Matches(f), le);
    assert last in Full(table, f, asc);
    forall e | e in table && Selects(f, e) ensures Resumes(asc, c.value, e) <==> !le(e, last) {
      ResumesAfter(k, scope, table, f, asc, last, e);
    }
    SuffixAfter(table, f, asc, n, c.value);
  }

  lemma FetchIs(k: Cursor.Signer, scope: string, table: seq<Event>, f: Filtering, asc: bool, limit: nat, c: Option<EventCursor>,
                rest: seq<Event>)
    requires Listing(table, Where(f, asc, c), Order(BySeq(f), asc)) == rest && limit >= 1
    ensures
      var page := Fetch(k, scope, table, f, asc, limit, c);
      && page.events == Take(rest, limit)
      && page.next == (if |rest| > limit then Some(CursorOf(k, scope, BySeq(f), rest[limit - 1])) else None)
      && page.resume == (if rest == [] then None else Some(CursorOf(k, scope, BySeq(f), rest[|page.events| - 1])))
  {
    TakeTwice(rest, limit);
  }

  lemma TakeTwice<T>(rest: seq<T>, limit: nat)
    requires limit >= 1
    ensures Take(Take(rest, limit + 1), limit) == Take(rest, limit)
    ensures |Take(rest, limit + 1)| > limit <==> |rest| > limit
    ensures |rest| > limit ==> |Take(rest, limit)| == limit
    ensures rest != [] ==> Take(rest, limit) != [] && Take(rest, limit)[|Take(rest, limit)| - 1] == rest[|Take(rest, limit)| - 1]
  {}

  lemma Slices<T>(full: seq<T>, n: nat, m: nat)
    requires n <= m <= |full|
    ensures full[..n] + full[n..m] == full[..m]
    ensures Take(full[n..], m - n) == full[n..m]
    ensures forall i :: 0 <= i < |full| - n ==> full[n..][i] == full[n + i]
  {}

  /** One page from row `n`: the next rows of the listing, and the cursor of where they end. */
  lemma PageFrom(k: Cursor.Signer, scope: string, table: seq<Event>, f: Filtering, asc: bool, limit: nat, cursor: Option<string>, n: nat)
    returns (m: nat, page: Page)
    requires Cursor.Lawful(k) && Keyed(table) && (BySeq(f) ==> Positioned(table, f))
    requires Points(k, scope, table, f, asc, cursor, n)
    ensures PagedEvents(k, scope, table, f, asc, limit, cursor) == Ok(page)
    ensures n <= m <= |Full(table, f, asc)| && (m < |Full(table, f, asc)| ==> m == n + Clamp(limit))
    ensures page.events == Full(table, f, asc)[n..m]
    ensures page.next == if m < |Full(table, f, asc)| then page.resume else None
    ensures page.resume == if n < m then Some(CursorOf(k, scope, BySeq(f), Full(table, f, asc)[m - 1])) else None
  {
    var c := RestOfListing(k, scope, table, f, asc, limit, cursor, n);
    m, page := FetchFrom(k, scope, table, f, asc, Clamp(limit), c, Full(table, f, asc), n);
  }

  lemma FetchFrom(k: Cursor.Signer, scope: string, table: seq<Event>, f: Filtering, asc: bool, limit: nat, c: Option<EventCursor>,
                  full: seq<Event>, n: nat)
    returns (m: nat, page: Page)
    requires n <= |full| && limit >= 1 && Listing(table, Where(f, asc, c), Order(BySeq(f), asc)) == full[n..]
    ensures page == Fetch(k, scope, table, f, asc, limit, c)
    ensures n <= m <= |full| && (m < |full| ==> m == n + limit)
    ensures page.events == full[n..m]
    ensures page.next == if m < |full| then page.resume else None
    ensures page.resume == if n < m then Some(CursorOf(k, scope, BySeq(f), full[m - 1])) else None
  {
    page := Fetch(k, scope, table, f, asc, limit, c);
    FetchIs(k, scope, table, f, asc, limit, c, full[n..]);
    m := PageEnds(k, scope, BySeq(f), full, n, limit, page);
  }

  lemma PageEnds(k: Cursor.Signer, scope: string, bySeq: bool, full: seq<Event>, n: nat, limit: nat, page: Page)
    returns (m: nat)
    requires n <= |full| && limit >= 1 && page.events == Take(full[n..], limit)
    requires page.next == if |full[n..]| > limit then Some(CursorOf(k, scope, bySeq, full[n..][limit - 1])) else None
    requires page.resume ==
             if full[n..] == [] then None else Some(CursorOf(k, scope, bySeq, full[n..][|page.events| - 1]))
    ensures n <= m <= |full| && (m < |full| ==> m == n + limit)
    ensures page.events == full[n..m]
    ensures page.next == if m < |full| then page.resume else None
    ensures page.resume == if n < m then Some(CursorOf(k, scope, bySeq, full[m - 1])) else None
  {
    m := if |full| - n <= limit then |full| else n + limit;
    Slices(full, n, m);
  }

  /**
   `a` comes before `b`: by position for a label, a lineage or a run, else by date with undated rows last
   in both directions; the id breaks ties.
   */
  predicate Precedes(f: Filtering, asc: bool, a: Event, b: Event) {
    var tail := f.labelSkill != None || f.root != None || f.run != None;
    var (x, y) := if tail then (a.fixed.position, b.fixed.position) else (a.fixed.at, b.fixed.at);
    var ids := if asc then LexLess(a.fixed.id, b.fixed.id) else LexLess(b.fixed.id, a.fixed.id);
    if x.Some? && y.Some? then (if asc then x.value < y.value else x.value > y.value) || (x.value == y.value && ids)
    else x.Some? || (y.None? && ids)
  }

  lemma FullPrecedes(table: seq<Event>, f: Filtering, asc: bool, i: nat, j: nat)
    requires Keyed(table) && i < j < |Full(table, f, asc)|
    ensures Precedes(f, asc, Full(table, f, asc)[i], Full(table, f, asc)[j])
  {
    var full, le := Full(table, f, asc), Order(BySeq(f), asc);
    var a, b := full[i], full[j];
    FullIsSorted(table, f, asc);
    ListingMembers(table, Matches(f), le);
    assert a in full && b in full && le(a, b) && a != b;
    BeforeStrict(asc, SortKey(BySeq(f), a), a.fixed.id, SortKey(BySeq(f), b), b.fixed.id);
    OtherId(table, a, b);
  }

  lemma OtherId(table: seq<Event>, a: Event, b: Event)
    requires Keyed(table) && a in table && b in table && a != b
    ensures a.fixed.id != b.fixed.id
  {}

  lemma SelectsAsked(f: Filtering, e: Event)
    ensures Selects(f, e) <==> Asked(f, e)
  {}

  /** The listing holds exactly the rows of the table that have what the filter asks. */
  lemma FullMembers(table: seq<Event>, f: Filtering, asc: bool)
    ensures forall e :: e in Full(table, f, asc) <==> e in table && Asked(f, e)
  {
    ListingMembers(table, Matches(f), Order(BySeq(f), asc));
    forall e ensures e in Full(table, f, asc) <==> e in table && Asked(f, e) {
      SelectsAsked(f, e);
    }
  }

  /** The listing is the selected rows, each once, in order. */
  lemma FullIsSorted(table: seq<Event>, f: Filtering, asc: bool)
    requires Keyed(table)
    ensures multiset(Full(table, f, asc)) == multiset(Filter(table, Matches(f)))
    ensures Sorted(Full(table, f, asc), Order(BySeq(f), asc)) && Distinct(Full(table, f, asc))
  {
    OrderTotal(BySeq(f), asc);
    KeysDecideRows(table, f, asc);
    ListingDecided(table, Matches(f), Order(BySeq(f), asc));
    SortPerm(Filter(table, Matches(f)), Order(BySeq(f), asc));
  }

  /**
   Following `next` until it is absent yields the full listing, each row once, in order, NULL
   timestamps included. This is the client's loop.
   */
  method ListAll(k: Cursor.Signer, scope: string, table: seq<Event>, f: Filtering, asc: bool, limit: nat)
    returns (all: seq<Event>)
    requires Cursor.Lawful(k) && Keyed(table) && (BySeq(f) ==> Positioned(table, f))
    ensures all == Full(table, f, asc)
    ensures multiset(all) == multiset(Filter(table, Matches(f)))
    ensures Sorted(all, Order(BySeq(f), asc)) && Distinct(all)
    ensures forall e :: e in all <==> e in table && Asked(f, e)
    ensures forall i, j :: 0 <= i < j < |all| ==> Precedes(f, asc, all[i], all[j])
  {
    all := Follow(k, scope, table, f, asc, limit);
    FullIsSorted(table, f, asc);
    FullMembers(table, f, asc);
    forall i, j | 0 <= i < j < |all| ensures Precedes(f, asc, all[i], all[j]) {
      FullPrecedes(table, f, asc, i, j);
    }
  }

  /** One request of a client that has read `read` so far. */
  method NextPage(k: Cursor.Signer, scope: string, table: seq<Event>, f: Filtering, asc: bool, limit: nat,
                  cursor: Option<string>, ghost read: seq<Event>)
    returns (page: Page)
    requires Cursor.Lawful(k) && Keyed(table) && (BySeq(f) ==> Positioned(table, f))
    requires Points(k, scope, table, f, asc, cursor, |read|) && read <= Full(table, f, asc)
    ensures read + page.events <= Full(table, f, asc)
    ensures page.next.None? ==> read + page.events == Full(table, f, asc)
    ensures page.next.Some? ==> page.events != [] && Points(k, scope, table, f, asc, page.next, |read + page.events|)
  {
    ghost var expected := PageKeeps(k, scope, table, f, asc, limit, cursor, read);
    page := PagedEvents(k, scope, table, f, asc, limit, cursor).value;
  }

  lemma PageKeeps(k: Cursor.Signer, scope: string, table: seq<Event>, f: Filtering, asc: bool, limit: nat, cursor: Option<string>, read: seq<Event>)
    returns (page: Page)
    requires Cursor.Lawful(k) && Keyed(table) && (BySeq(f) ==> Positioned(table, f))
    requires Points(k, scope, table, f, asc, cursor, |read|) && read <= Full(table, f, asc)
    ensures PagedEvents(k, scope, table, f, asc, limit, cursor) == Ok(page)
    ensures read + page.events <= Full(table, f, asc)
    ensures page.next.None? ==> read + page.events == Full(table, f, asc)
    ensures page.next.Some? ==> page.events != [] && Points(k, scope, table, f, asc, page.next, |read + page.events|)
  {
    var m;
    m, page := PageFrom(k, scope, table, f, asc, limit, cursor, |read|);
    ReadOn(Full(table, f, asc), read, page.events, m);
  }

  lemma ReadOn<T>(full: seq<T>, read: seq<T>, more: seq<T>, m: nat)
    requires read <= full && |read| <= m <= |full| && more == full[|read|..m]
    ensures read + more == full[..m] && |read + more| == m && (m == |full| ==> read + more == full)
    ensures read + more <= full && (|read| < m ==> more != [])
  {}

  method Follow(k: Cursor.Signer, scope: string, table: seq<Event>, f: Filtering, asc: bool, limit: nat)
    returns (all: seq<Event>)
    requires Cursor.Lawful(k) && Keyed(table) && (BySeq(f) ==> Positioned(table, f))
    ensures all == Full(table, f, asc)
  {
    all := [];
    var cursor: Option<string> := None;
    ghost var full := Full(table, f, asc);
    while true
      invariant Points(k, scope, table, f, asc, cursor, |all|)
      invariant all <= full
      decreases |full| - |all|
    {
      var page := NextPage(k, scope, table, f, asc, limit, cursor, all);
      all := all + page.events;
      if page.next.None? {
        return;
      }
      cursor := page.next;
    }
  }
}

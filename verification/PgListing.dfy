/** The listing statement built for Postgres (escurel-index/src/events.rs, the native `WHERE` of `paged_events`). */
module PgListing {

  import opened Wrappers
  import opened PgNative
  import opened Events
  import opened EventPaging

  /** A statement in pieces: plain text, a placeholder, a quoted constant. */
  datatype Part = Plain(text: string) | Param | Constant(text: string)

  datatype Clause = Clause(parts: seq<Part>, binds: seq<Bind>)

  function Flat(parts: seq<Part>): string {
    if parts == [] then ""
    else (match parts[0] case Plain(t) => t case Param => "?" case Constant(t) => "'" + t + "'") + Flat(parts[1..])
  }

  function Placeholders(parts: seq<Part>): nat {
    if parts == [] then 0 else (if parts[0].Param? then 1 else 0) + Placeholders(parts[1..])
  }

  // ---- The clauses ----

  function On(o: Option<string>, text: string): seq<Clause> {
    match o case None => [] case Some(v) => [Clause([Plain(text), Param], [Bind.Text(v)])]
  }

  function RootClause(root: Option<string>): seq<Clause> {
    match root
    case None => []
    case Some(r) =>
      [Clause([Plain("(root_event_id = "), Param, Plain(" OR event_id = "), Param, Plain(")")], [Bind.Text(r), Bind.Text(r)])]
  }

  function StatusName(status: Option<Status>): Option<string> {
    match status case None => None case Some(Inbox) => Some("inbox") case Some(Processed) => Some("processed")
  }

  function StatusClause(status: Option<Status>): seq<Clause> {
    On(StatusName(status), "status = ")
  }

  function KindClause(f: Filtering): seq<Clause> {
    match f.kind
    case Some(k) =>
      [Clause([Plain("COALESCE(kind, "), Constant("user"), Plain(") = "), Param],
              [Bind.Text(if k == User then "user" else "system")])]
    case None =>
      if f.includeSystem then []
      else [Clause([Plain("COALESCE(kind, "), Constant("user"), Plain(") <> "), Constant("system")], [])]
  }

  function CursorClause(asc: bool, c: Option<EventCursor>): seq<Clause> {
    match c
    case None => []
    case Some(Seq(n)) => [Clause([Plain(if asc then "seq > " else "seq < "), Param], [Int(n)])]
    case Some(At(None, id)) =>
      [Clause([Plain(if asc then "(at_ts IS NULL AND event_id > " else "(at_ts IS NULL AND event_id < "), Param, Plain(")")],
              [Bind.Text(id)])]
    case Some(At(Some(at), id)) =>
      [Clause([Plain(if asc then "((at_ts IS NOT NULL AND at_ts > CAST(" else "((at_ts IS NOT NULL AND at_ts < CAST("), Param,
               Plain(" AS timestamp)) OR (at_ts = CAST("), Param,
               Plain(if asc then " AS timestamp) AND event_id > " else " AS timestamp) AND event_id < "), Param,
               Plain(") OR at_ts IS NULL)")],
              [Bind.Text(at), Bind.Text(at), Bind.Text(id)])]
  }

  function FilterClauses(f: Filtering): seq<Clause> {
    On(f.target, "instance_page_id = ") + RootClause(f.root) + On(f.run, "run_id = ")
    + On(f.labelSkill, "label_skill = ") + StatusClause(f.status) + KindClause(f)
  }

  function Clauses(f: Filtering, tenant: string, asc: bool, c: Option<EventCursor>): seq<Clause> {
    var wanted := FilterClauses(f);
    (if wanted == [] then [Clause([Plain("TRUE")], [])] else wanted)
    + On(Some(tenant), "tenant = ") + CursorClause(asc, c)
  }

  function JoinParts(cs: seq<Clause>): seq<Part> {
    if cs == [] then []
    else if |cs| == 1 then cs[0].parts
    else cs[0].parts + ([Plain(" AND ")] + JoinParts(cs[1..]))
  }

  function JoinBinds(cs: seq<Clause>): seq<Bind> {
    if cs == [] then [] else cs[0].binds + JoinBinds(cs[1..])
  }

  // ---- Pieces that stand apart ----

  /** White space of Postgres. */
  predicate White(c: char) { c == ' ' || c == '\t' || c == '\n' || c == '\r' || c == '\U{000B}' || c == '\U{000C}' }

  /** A character that opens no quote, comment or parameter. */
  predicate QuietChar(c: char) {
    || 'a' <= c <= 'z' || 'A' <= c <= 'Z' || '0' <= c <= '9' || c == '_'
    || c == ' ' || c == '(' || c == ')' || c == ',' || c == '=' || c == '<' || c == '>'
  }

  predicate Quiet(t: string) { forall c :: c in t ==> QuietChar(c) }

  predicate PlainText(t: string) { t != "" && Quiet(t) }

  /** It ends in `(`, or in a single space. */
  predicate EndsBreak(t: string) {
    t != "" && (t[|t| - 1] == '(' || (|t| >= 2 && t[|t| - 1] == ' ' && t[|t| - 2] != ' '))
  }

  /** It starts with `)`, or with a single space. */
  predicate StartsBreak(t: string) {
    t != "" && (t[0] == ')' || (|t| >= 2 && t[0] == ' ' && t[1] != ' '))
  }

  predicate Proper(p: Part) { p.Param? || PlainText(p.text) }

  predicate StartsWell(p: Part) { p.Plain? ==> p.text != "" && p.text[0] != ' ' }

  predicate EndsWell(p: Part) { p.Plain? ==> p.text != "" && p.text[|p.text| - 1] != ' ' }

  /** Two pieces meet at a parenthesis or at a single space. */
  predicate Joint(p: Part, q: Part) {
    || (p.Plain? && EndsBreak(p.text) && (p.text[|p.text| - 1] == '(' || StartsWell(q)))
    || (q.Plain? && StartsBreak(q.text) && (q.text[0] == ')' || EndsWell(p)))
  }

  predicate Spaced(parts: seq<Part>) {
    parts == [] || (Proper(parts[0]) && (|parts| > 1 ==> Joint(parts[0], parts[1])) && Spaced(parts[1..]))
  }

  lemma SpacedCons(p: Part, rest: seq<Part>)
    requires Proper(p) && Spaced(rest) && (rest != [] ==> Joint(p, rest[0]))
    ensures Spaced([p] + rest)
    ensures Placeholders([p] + rest) == Placeholders(rest) + if p.Param? then 1 else 0
  {
    assert ([p] + rest)[1..] == rest;
  }

  lemma {:induction false} SpacedConcat(a: seq<Part>, b: seq<Part>)
    requires a != [] && b != [] && Spaced(a) && Spaced(b) && Joint(a[|a| - 1], b[0])
    ensures Spaced(a + b) && Placeholders(a + b) == Placeholders(a) + Placeholders(b)
  {
    assert a + b == [a[0]] + (a[1..] + b);
    if |a| == 1 {
      assert a[1..] + b == b;
    } else {
      SpacedConcat(a[1..], b);
    }
    SpacedCons(a[0], a[1..] + b);
  }

  lemma WordPrefix(t: string, rest: string, free: bool)
    requires t != "" && IsWordChar(t[0]) && WellPlaced(t[1..] + rest, false)
    ensures WellPlaced(t + rest, free)
  {
    var s := t + rest;
    assert s[1..] == t[1..] + rest;
    var n := WordLength(s[1..]);
    assert s[WordLength(s)..] == s[1..][n..];
    if n > 0 {
      assert IsWordChar(s[1..][0]);
    } else {
      assert s[1..][0..] == s[1..];
    }
  }

  /** Text without quotes or placeholders passes the question on to what follows it. */
  lemma {:induction false} PlainPlaced(t: string, rest: string, free: bool)
    requires PlainText(t) && WellPlaced(rest, Boundary(t[|t| - 1]))
    ensures WellPlaced(t + rest, free)
    decreases |t|
  {
    var s := t + rest;
    assert t[0] in t;
    var word := IsWordChar(t[0]);
    assert s[1..] == t[1..] + rest;
    if |t| == 1 {
      assert t[1..] + rest == rest;
    } else {
      PlainPlaced(t[1..], rest, !word);
    }
    if word {
      WordPrefix(t, rest, free);
    }
  }

  lemma ConstantPlaced(t: string, rest: string, free: bool)
    requires '?' !in t && '\'' !in t && WellPlaced(rest, false) && (rest != "" ==> Boundary(rest[0]))
    ensures WellPlaced("'" + t + "'" + rest, free)
  {
    var s := "'" + t + "'" + rest;
    DoubledPlain(t);
    UnquoteDoubled(t, rest);
    assert s[1..] == t + "'" + rest;
    assert LiteralSpan(s) == "'" + t + "'";
  }

  lemma {:induction false} DoubledPlain(t: string)
    requires '\'' !in t
    ensures Doubled(t) == t
  {
    if t != "" {
      DoubledPlain(t[1..]);
      assert [t[0]] + t[1..] == t;
    }
  }

  lemma {:induction false} NoParams(a: string)
    requires '?' !in a
    ensures Params(a) == 0
  {
    if a != "" {
      NoParams(a[1..]);
    }
  }

  /** What follows a parameter or a constant starts with a boundary. */
  lemma FlatHead(parts: seq<Part>)
    requires Spaced(parts) && parts != [] && parts[0].Plain?
    ensures Flat(parts) != "" && Flat(parts)[0] == parts[0].text[0]
  {}

  lemma QuietPlain(t: string)
    requires Quiet(t)
    ensures '?' !in t && '\'' !in t && '-' !in t && '\\' !in t && '\0' !in t
  {}

  /** Pieces that stand apart make a well-placed statement with as many `?` as placeholders. */
  lemma {:induction false} SpacedPlaced(parts: seq<Part>, free: bool)
    requires Spaced(parts) && (parts != [] && parts[0].Param? ==> free)
    ensures WellPlaced(Flat(parts), free) && Params(Flat(parts)) == Placeholders(parts)
  {
    if parts != [] {
      var rest := Flat(parts[1..]);
      if parts[0].Plain? {
        SpacedPlaced(parts[1..], Boundary(parts[0].text[|parts[0].text| - 1]));
        PlainPlaced(parts[0].text, rest, free);
        ParamsConcat(parts[0].text, rest);
        NoParams(parts[0].text);
      } else {
        SpacedPlaced(parts[1..], false);
        if |parts| > 1 {
          FlatHead(parts[1..]);
        }
        if parts[0].Param? {
          assert ("?" + rest)[1..] == rest;
        } else {
          var t := parts[0].text;
          QuietPlain(t);
          ConstantPlaced(t, rest, free);
          ParamsConcat("'" + t + "'", rest);
          NoParams("'" + t + "'");
        }
      }
    }
  }

  /** A clause whose pieces stand apart, fit for joining with `AND`, with a value for each parameter. */
  predicate Sound(c: Clause) {
    && c.parts != [] && Spaced(c.parts) && Placeholders(c.parts) == |c.binds|
    && c.parts[0].Plain? && StartsWell(c.parts[0]) && EndsWell(c.parts[|c.parts| - 1])
  }

  lemma AndText()
    ensures PlainText(" AND ") && EndsBreak(" AND ") && StartsBreak(" AND ")
  {}

  lemma {:induction false} JoinSound(cs: seq<Clause>)
    requires cs != [] && forall c :: c in cs ==> Sound(c)
    ensures Sound(Clause(JoinParts(cs), JoinBinds(cs)))
  {
    assert Sound(cs[0]);
    if |cs| == 1 {
      assert cs[1..] == [] && JoinBinds(cs) == cs[0].binds + [];
    } else {
      JoinSound(cs[1..]);
      AndText();
      var rest := JoinParts(cs[1..]);
      SpacedCons(Plain(" AND "), rest);
      SpacedConcat(cs[0].parts, [Plain(" AND ")] + rest);
    }
  }

  // ---- Every clause the listing builds ----

  predicate Opens(t: string) { PlainText(t) && EndsBreak(t) }

  predicate Closes(t: string) { PlainText(t) && StartsBreak(t) }

  /** A clause's last pieces: a parameter after `a`, and nothing or a closing text after it. */
  lemma Tail(a: string, rest: seq<Part>)
    requires Opens(a) && Spaced(rest) && (rest != [] ==> rest[0].Plain? && Closes(rest[0].text))
    ensures Spaced([Plain(a)] + ([Param] + rest))
    ensures Placeholders([Plain(a)] + ([Param] + rest)) == 1 + Placeholders(rest)
  {
    SpacedCons(Param, rest);
    SpacedCons(Plain(a), [Param] + rest);
  }

  lemma Closing(c: string)
    requires Closes(c)
    ensures Spaced([Plain(c)]) && Placeholders([Plain(c)]) == 0
  {
    assert [Plain(c)] == [Plain(c)] + [];
    SpacedCons(Plain(c), []);
  }

  lemma EndsInParam(a: string, v: Bind)
    requires Opens(a) && a[0] != ' '
    ensures Sound(Clause([Plain(a), Param], [v]))
  {
    Tail(a, []);
    assert [Plain(a), Param] == [Plain(a)] + ([Param] + []);
  }

  lemma OneInside(a: string, c: string, v: Bind)
    requires Opens(a) && a[0] != ' ' && Closes(c) && c[|c| - 1] != ' '
    ensures Sound(Clause([Plain(a), Param, Plain(c)], [v]))
  {
    Closing(c);
    Tail(a, [Plain(c)]);
    assert [Plain(a), Param, Plain(c)] == [Plain(a)] + ([Param] + [Plain(c)]);
  }

  lemma TwoInside(a: string, b: string, c: string, v: Bind, w: Bind)
    requires Opens(a) && a[0] != ' ' && Opens(b) && Closes(b) && Closes(c) && c[|c| - 1] != ' '
    ensures Sound(Clause([Plain(a), Param, Plain(b), Param, Plain(c)], [v, w]))
  {
    Closing(c);
    Tail(b, [Plain(c)]);
    var rest := [Plain(b)] + ([Param] + [Plain(c)]);
    Tail(a, rest);
    assert [Plain(a), Param, Plain(b), Param, Plain(c)] == [Plain(a)] + ([Param] + rest);
  }

  lemma ThreeInside(a: string, b: string, c: string, d: string, v: Bind, w: Bind, x: Bind)
    requires Opens(a) && a[0] != ' ' && Opens(b) && Closes(b) && Opens(c) && Closes(c) && Closes(d) && d[|d| - 1] != ' '
    ensures Sound(Clause([Plain(a), Param, Plain(b), Param, Plain(c), Param, Plain(d)], [v, w, x]))
  {
    Closing(d);
    Tail(c, [Plain(d)]);
    var rest := [Plain(c)] + ([Param] + [Plain(d)]);
    Tail(b, rest);
    var more := [Plain(b)] + ([Param] + rest);
    Tail(a, more);
    assert [Plain(a), Param, Plain(b), Param, Plain(c), Param, Plain(d)] == [Plain(a)] + ([Param] + more);
  }

  lemma AfterConstant(a: string, u: string, b: string, last: Part, binds: seq<Bind>)
    requires Opens(a) && a[0] != ' ' && PlainText(u) && Opens(b) && Closes(b) && !last.Plain? && Proper(last)
    requires |binds| == if last.Param? then 1 else 0
    ensures Sound(Clause([Plain(a), Constant(u), Plain(b), last], binds))
  {
    SpacedCons(last, []);
    SpacedCons(Plain(b), [last] + []);
    SpacedCons(Constant(u), [Plain(b)] + ([last] + []));
    SpacedCons(Plain(a), [Constant(u)] + ([Plain(b)] + ([last] + [])));
    assert [Plain(a), Constant(u), Plain(b), last] == [Plain(a)] + ([Constant(u)] + ([Plain(b)] + ([last] + [])));
  }

  lemma PageText()
    ensures Opens("instance_page_id = ") && Opens("run_id = ")
  {}

  lemma LabelText()
    ensures Opens("label_skill = ") && Opens("status = ")
  {}

  lemma TenantText()
    ensures Opens("tenant = ") && Opens("seq > ") && Opens("seq < ")
  {}

  lemma RootText()
    ensures Opens("(root_event_id = ") && Closes(")")
  {}

  lemma RootOrText()
    ensures Opens(" OR event_id = ") && Closes(" OR event_id = ")
  {}

  lemma KindText()
    ensures Opens("COALESCE(kind, ") && PlainText("user") && PlainText("system")
    ensures Opens(") = ") && Closes(") = ") && Opens(") <> ") && Closes(") <> ")
  {}

  lemma UndatedText(asc: bool)
    ensures Opens(if asc then "(at_ts IS NULL AND event_id > " else "(at_ts IS NULL AND event_id < ")
  {}

  lemma DatedText(asc: bool)
    ensures Opens(if asc then "((at_ts IS NOT NULL AND at_ts > CAST(" else "((at_ts IS NOT NULL AND at_ts < CAST(")
  {}

  lemma TieText(asc: bool)
    ensures Opens(if asc then " AS timestamp) AND event_id > " else " AS timestamp) AND event_id < ")
    ensures Closes(if asc then " AS timestamp) AND event_id > " else " AS timestamp) AND event_id < ")
  {}

  lemma SameText()
    ensures Opens(" AS timestamp)) OR (at_ts = CAST(") && Closes(" AS timestamp)) OR (at_ts = CAST(")
  {}

  lemma RestText()
    ensures Closes(") OR at_ts IS NULL)")
  {}

  lemma KindSound(f: Filtering)
    ensures forall c :: c in KindClause(f) ==> Sound(c)
  {
    KindText();
    match f.kind
    case Some(k) =>
      AfterConstant("COALESCE(kind, ", "user", ") = ", Param, [Bind.Text(if k == User then "user" else "system")]);
    case None => AfterConstant("COALESCE(kind, ", "user", ") <> ", Constant("system"), []);
  }

  lemma CursorSound(asc: bool, c: EventCursor)
    ensures forall k :: k in CursorClause(asc, Some(c)) ==> Sound(k)
  {
    match c
    case Seq(n) =>
      TenantText();
      EndsInParam(if asc then "seq > " else "seq < ", Int(n));
    case At(None, id) =>
      UndatedText(asc);
      RootText();
      OneInside(if asc then "(at_ts IS NULL AND event_id > " else "(at_ts IS NULL AND event_id < ", ")", Bind.Text(id));
    case At(Some(at), id) =>
      DatedText(asc);
      TieText(asc);
      SameText();
      RestText();
      ThreeInside(if asc then "((at_ts IS NOT NULL AND at_ts > CAST(" else "((at_ts IS NOT NULL AND at_ts < CAST(",
                  " AS timestamp)) OR (at_ts = CAST(",
                  if asc then " AS timestamp) AND event_id > " else " AS timestamp) AND event_id < ",
                  ") OR at_ts IS NULL)", Bind.Text(at), Bind.Text(at), Bind.Text(id));
  }

  lemma OnSound(o: Option<string>, text: string)
    requires Opens(text) && text[0] != ' '
    ensures forall k :: k in On(o, text) ==> Sound(k)
  {
    if o.Some? {
      EndsInParam(text, Bind.Text(o.value));
    }
  }

  lemma ClausesSound(f: Filtering, tenant: string, asc: bool, c: Option<EventCursor>)
    ensures forall k :: k in Clauses(f, tenant, asc, c) ==> Sound(k)
  {
    PageText();
    LabelText();
    TenantText();
    OnSound(f.target, "instance_page_id = ");
    OnSound(f.run, "run_id = ");
    OnSound(f.labelSkill, "label_skill = ");
    OnSound(StatusName(f.status), "status = ");
    OnSound(Some(tenant), "tenant = ");
    RootSound(f.root);
    KindSound(f);
    if c.Some? {
      CursorSound(asc, c.value);
    }
    TrueSound();
  }

  lemma RootSound(root: Option<string>)
    ensures forall k :: k in RootClause(root) ==> Sound(k)
  {
    RootText();
    RootOrText();
    if root.Some? {
      TwoInside("(root_event_id = ", " OR event_id = ", ")", Bind.Text(root.value), Bind.Text(root.value));
    }
  }

  lemma TrueSound()
    ensures Sound(Clause([Plain("TRUE")], []))
  {
    SpacedCons(Plain("TRUE"), []);
    assert [Plain("TRUE")] == [Plain("TRUE")] + [];
  }

  lemma ListingSound(f: Filtering, tenant: string, asc: bool, c: Option<EventCursor>)
    ensures
      var cs := Clauses(f, tenant, asc, c);
      Sound(Clause(JoinParts(cs), JoinBinds(cs)))
  {
    ClausesSound(f, tenant, asc, c);
    JoinSound(Clauses(f, tenant, asc, c));
  }

  /** Every `?` stands after a space or `(` and before a space, `)` or the end. */
  ghost predicate MarksApart(sql: string) {
    forall i :: 0 <= i < |sql| && sql[i] == '?' ==>
      && i > 0 && (sql[i - 1] == ' ' || sql[i - 1] == '(')
      && (i + 1 == |sql| || sql[i + 1] == ' ' || sql[i + 1] == ')')
  }

  /** The character before place `i` of a text that follows `before`. */
  function Previous(before: string, sql: string, i: nat): Option<char>
    requires i < |sql|
  {
    if i > 0 then Some(sql[i - 1]) else if before != "" then Some(before[|before| - 1]) else None
  }

  ghost predicate MarksApartAfter(before: string, sql: string) {
    forall i :: 0 <= i < |sql| && sql[i] == '?' ==>
      && Previous(before, sql, i) in {Some(' '), Some('(')}
      && (i + 1 == |sql| || sql[i + 1] == ' ' || sql[i + 1] == ')')
  }

  lemma ConsApart(before: string, head: string, rest: string)
    requires head != "" && MarksApartAfter(head, rest)
    requires forall i :: 0 <= i < |head| && head[i] == '?' ==>
               && |head| == 1 && before != "" && (before[|before| - 1] == ' ' || before[|before| - 1] == '(')
               && (rest == "" || rest[0] == ' ' || rest[0] == ')')
    ensures MarksApartAfter(before, head + rest)
  {
    var s := head + rest;
    forall i | 0 <= i < |s| && s[i] == '?'
      ensures Previous(before, s, i) in {Some(' '), Some('(')} && (i + 1 == |s| || s[i + 1] == ' ' || s[i + 1] == ')')
    {
      if i >= |head| {
        assert rest[i - |head|] == '?';
      }
    }
  }

  function PartText(p: Part): string {
    match p case Plain(t) => t case Param => "?" case Constant(t) => "'" + t + "'"
  }

  lemma {:induction false} SpacedApart(before: string, parts: seq<Part>)
    requires Spaced(parts) && (parts != [] && parts[0].Param? ==> EndsBreak(before))
    ensures MarksApartAfter(before, Flat(parts))
    decreases |parts|
  {
    if parts != [] {
      var head, rest := PartText(parts[0]), Flat(parts[1..]);
      SpacedApart(head, parts[1..]);
      if |parts| > 1 && !parts[0].Plain? {
        FlatHead(parts[1..]);
      }
      if !parts[0].Param? {
        QuietPlain(parts[0].text);
      }
      ConsApart(before, head, rest);
    }
  }

  /**
   The `WHERE` of every listing, whatever the filter, tenant, direction and cursor: it renders exactly
   when no bound value holds a NUL or a backslash, and then reads as the clauses with the bound values;
   and every `?` in it stands between a space or `(` and a space, `)` or the end.
   */
  lemma ListingRenders(f: Filtering, tenant: string, asc: bool, c: Option<EventCursor>)
    ensures
      var cs := Clauses(f, tenant, asc, c);
      var sql := Flat(JoinParts(cs));
      && (Render(sql, JoinBinds(cs)).Some? <==> forall b :: b in JoinBinds(cs) ==> Quotable(b))
      && (Render(sql, JoinBinds(cs)).Some? ==>
            Lex(sql).Some? && Lex(Render(sql, JoinBinds(cs)).value) == Some(Substitute(Lex(sql).value, JoinBinds(cs))))
      && MarksApart(sql)
  {
    var cs := Clauses(f, tenant, asc, c);
    ListingSound(f, tenant, asc, c);
    SpacedPlaced(JoinParts(cs), true);
    SpacedApart("", JoinParts(cs));
    var sql := Flat(JoinParts(cs));
    RendersIff(sql, JoinBinds(cs));
    WellPlacedLexes(sql, true);
    if Render(sql, JoinBinds(cs)).Some? {
      RenderLexes(sql, true, JoinBinds(cs));
    }
  }
}

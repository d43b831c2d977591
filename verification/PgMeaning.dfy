/**
 What a listing asks of Postgres: the rendered `WHERE`, read by `PgSql`, is true at exactly the tenant's rows
 that the filter asks for and that come after the cursor.
 */
module PgMeaning {

  import opened Wrappers
  import opened PgNative
  import opened PgListing
  import opened PgSql
  import opened PgTexts
  import opened Ordering
  import opened Events
  import opened EventPaging
  import PgScanner
  import Strings = Text
  import Decimal

  // ---- Pieces ----

  type Lexer = PgScanner.Scanner<Token>

  /** All that is needed of the lexer: it finds the tokens of texts and words, and a value reads as its literal. */
  ghost predicate Knows(k: Lexer) {
    && (forall t, ts :: Says(t, ts) ==> k.tokens(t).Some? && Solid(k.tokens(t).value) == ts)
    && (forall w :: w != "" && Worded(w) ==> k.tokens(w) == Some([Word(w)]))
    && (forall v :: k.meaning(v) == BindTokens(v))
  }

  lemma LexKnows()
    ensures Knows(PgScanner.LexScanner())
  {
    forall t, ts | Says(t, ts) ensures Scans(t, ts) {
      SaysScans(t, ts);
    }
    forall w | w != "" && Worded(w) ensures PgScanner.Commentless(w) == Some([Word(w)]) {
      assert w[0] in w && w + "" == w;
      WordExtends(w, "");
      assert WordLength(w) == |w| && w[|w|..] == "" && w[..|w|] == w && Lex("") == Some([]);
      assert Lex(w) == Cons(Word(w), Lex("")) && [Word(w)] + [] == [Word(w)];
    }
  }

  /** The pieces read, with the values for the parameters, as these tokens. */
  ghost predicate Reading(k: Lexer, parts: seq<Part>, binds: seq<Bind>, ts: seq<Token>) {
    var r := PgScanner.Reads(k, parts, binds);
    Placeholders(parts) == |binds| && r.Some? && Solid(r.value) == ts
  }

  lemma NoPieces(k: Lexer)
    ensures Reading(k, [], [], [])
  {}

  lemma PlainFirst(k: Lexer, t: string, ts: seq<Token>, parts: seq<Part>, binds: seq<Bind>, more: seq<Token>)
    requires Knows(k) && Says(t, ts) && Reading(k, parts, binds, more)
    ensures Reading(k, [Plain(t)] + parts, binds, ts + more)
  {
    assert ([Plain(t)] + parts)[1..] == parts;
    SolidConcat(k.tokens(t).value, PgScanner.Reads(k, parts, binds).value);
  }

  lemma BindSolid(v: Bind)
    ensures Solid(BindTokens(v)) == BindTokens(v)
  {
    var ts := BindTokens(v);
    if |ts| == 2 {
      assert ts[1..][1..] == [] && Solid(ts[1..]) == [ts[1]];
    } else {
      assert ts[1..] == [];
    }
  }

  lemma ParamFirst(k: Lexer, v: Bind, parts: seq<Part>, binds: seq<Bind>, more: seq<Token>)
    requires Knows(k) && Reading(k, parts, binds, more)
    ensures Reading(k, [Param] + parts, [v] + binds, BindTokens(v) + more)
  {
    assert ([Param] + parts)[1..] == parts && ([v] + binds)[1..] == binds;
    SolidConcat(BindTokens(v), PgScanner.Reads(k, parts, binds).value);
    BindSolid(v);
  }

  lemma ConstantFirst(k: Lexer, t: string, parts: seq<Part>, binds: seq<Bind>, more: seq<Token>)
    requires Knows(k) && Reading(k, parts, binds, more)
    ensures Reading(k, [Constant(t)] + parts, binds, [Str(t)] + more)
  {
    assert ([Constant(t)] + parts)[1..] == parts;
    SolidConcat([Str(t)], PgScanner.Reads(k, parts, binds).value);
    BindSolid(Bind.Text(t));
  }

  lemma {:induction false} ReadsConcat(k: Lexer, a: seq<Part>, x: seq<Bind>, b: seq<Part>, y: seq<Bind>)
    requires Placeholders(a) == |x|
    ensures Placeholders(a + b) == |x| + Placeholders(b)
    ensures PgScanner.Reads(k, a + b, x + y) == PgScanner.Then(PgScanner.Reads(k, a, x), PgScanner.Reads(k, b, y))
    decreases |a|
  {
    if a == [] {
      assert a + b == b && x + y == y;
      PgScanner.ThenNothing(PgScanner.Reads(k, b, y), Some([]), Some([]));
    } else {
      var x' := PgScanner.Left(a[0], x);
      assert (a + b)[1..] == a[1..] + b && (a + b)[0] == a[0];
      assert PgScanner.Left(a[0], x + y) == x' + y by {
        assert a[0].Param? ==> (x + y)[1..] == x[1..] + y;
      }
      ReadsConcat(k, a[1..], x', b, y);
      var first := match a[0]
                   case Plain(t) => k.tokens(t)
                   case Constant(t) => Some(k.meaning(Bind.Text(t)))
                   case Param => if x == [] then None else Some(k.meaning(x[0]));
      assert a[0].Param? ==> (x + y)[0] == x[0];
      PgScanner.ThenNothing(first, PgScanner.Reads(k, a[1..], x'), PgScanner.Reads(k, b, y));
    }
  }

  lemma ReadingConcat(k: Lexer, a: seq<Part>, x: seq<Bind>, ts: seq<Token>, b: seq<Part>, y: seq<Bind>, us: seq<Token>)
    requires Reading(k, a, x, ts) && Reading(k, b, y, us)
    ensures Reading(k, a + b, x + y, ts + us)
  {
    ReadsConcat(k, a, x, b, y);
    SolidConcat(PgScanner.Reads(k, a, x).value, PgScanner.Reads(k, b, y).value);
  }

  /** Text, a value, and what is left of the clause. */
  lemma TextThenValue(k: Lexer, text: string, ts: seq<Token>, v: Bind, parts: seq<Part>, binds: seq<Bind>, more: seq<Token>)
    requires Knows(k) && Says(text, ts) && Reading(k, parts, binds, more)
    ensures Reading(k, [Plain(text), Param] + parts, [v] + binds, ts + (BindTokens(v) + more))
  {
    ParamFirst(k, v, parts, binds, more);
    PlainFirst(k, text, ts, [Param] + parts, [v] + binds, BindTokens(v) + more);
    assert [Plain(text)] + ([Param] + parts) == [Plain(text), Param] + parts;
  }

  lemma TextLast(k: Lexer, text: string, ts: seq<Token>)
    requires Knows(k) && Says(text, ts)
    ensures Reading(k, [Plain(text)], [], ts)
  {
    NoPieces(k);
    PlainFirst(k, text, ts, [], [], []);
    assert [Plain(text)] + [] == [Plain(text)] && ts + [] == ts;
  }

  lemma LastTwo(k: Lexer, c: string, z: seq<Token>, i: Bind, d: string, w: seq<Token>)
    requires Knows(k) && Says(c, z) && Says(d, w)
    ensures Reading(k, [Plain(c), Param, Plain(d)], [i], z + (BindTokens(i) + w))
  {
    TextLast(k, d, w);
    TextThenValue(k, c, z, i, [Plain(d)], [], w);
    assert [Plain(c), Param] + [Plain(d)] == [Plain(c), Param, Plain(d)] && [i] + [] == [i];
  }

  lemma LastThree(k: Lexer, b: string, y: seq<Token>, v: Bind, c: string, z: seq<Token>, i: Bind, d: string, w: seq<Token>)
    requires Knows(k) && Says(b, y) && Says(c, z) && Says(d, w)
    ensures Reading(k, [Plain(b), Param, Plain(c), Param, Plain(d)], [v, i], y + (BindTokens(v) + (z + (BindTokens(i) + w))))
  {
    LastTwo(k, c, z, i, d, w);
    var parts := [Plain(c), Param, Plain(d)];
    TextThenValue(k, b, y, v, parts, [i], z + (BindTokens(i) + w));
    assert [Plain(b), Param] + parts == [Plain(b), Param, Plain(c), Param, Plain(d)] && [v] + [i] == [v, i];
  }

  // ---- Clauses ----

  ghost predicate Spells(k: Lexer, c: Clause, p: Prim) { Reading(k, c.parts, c.binds, SpellPrim(p)) }

  ghost predicate AllSpell(k: Lexer, cs: seq<Clause>, ps: seq<Prim>) {
    |cs| == |ps| && forall i :: 0 <= i < |cs| ==> Spells(k, cs[i], ps[i])
  }

  lemma OneSpells(k: Lexer, c: Clause, p: Prim)
    requires Spells(k, c, p)
    ensures AllSpell(k, [c], [p])
  {}

  function Joined(ps: seq<Prim>): Conj
    requires ps != []
  {
    if |ps| == 1 then All(ps[0]) else And(ps[0], Joined(ps[1..]))
  }

  ghost predicate AllTrue(ps: seq<Prim>, row: Row) { forall p :: p in ps ==> PrimTruth(p, row) == Yes }

  lemma {:induction false} JoinedTruth(ps: seq<Prim>, row: Row)
    requires ps != []
    ensures ConjTruth(Joined(ps), row) == Yes <==> AllTrue(ps, row)
  {
    assert ps == [ps[0]] + ps[1..];
    if |ps| > 1 {
      JoinedTruth(ps[1..], row);
    }
  }

  lemma {:induction false} JoinReads(k: Lexer, cs: seq<Clause>, ps: seq<Prim>)
    requires Knows(k) && cs != [] && AllSpell(k, cs, ps)
    ensures Reading(k, JoinParts(cs), JoinBinds(cs), SpellConj(Joined(ps)))
  {
    assert Spells(k, cs[0], ps[0]);
    if |cs| == 1 {
      assert JoinBinds(cs) == cs[0].binds + [] == cs[0].binds;
    } else {
      JoinReads(k, cs[1..], ps[1..]);
      AndSays();
      PlainFirst(k, " AND ", [Word("AND")], JoinParts(cs[1..]), JoinBinds(cs[1..]), SpellConj(Joined(ps[1..])));
      ReadingConcat(k, cs[0].parts, cs[0].binds, SpellPrim(ps[0]),
                    [Plain(" AND ")] + JoinParts(cs[1..]), JoinBinds(cs[1..]), [Word("AND")] + SpellConj(Joined(ps[1..])));
    }
  }

  // ---- The row of an event ----

  function TextOrNull(o: Option<string>): Value { match o case None => Null case Some(s) => Chars(s) }

  function StatusText(s: Status): string { match s case Inbox => "inbox" case Processed => "processed" }

  function KindName(k: Kind): string { match k case User => "user" case System => "system" }

  /** The columns of an event that belongs to `owner`. */
  function RowOf(owner: string, e: Event): Row {
    map[
      "tenant" := Chars(owner),
      "event_id" := Chars(e.fixed.id),
      "instance_page_id" := TextOrNull(e.target),
      "root_event_id" := TextOrNull(e.fixed.root),
      "run_id" := TextOrNull(e.fixed.run),
      "label_skill" := Chars(e.fixed.labelSkill),
      "status" := Chars(StatusText(e.status)),
      "kind" := if e.fixed.kind.None? then Null else Chars(KindName(e.fixed.kind.value)),
      "at_ts" := if e.fixed.at.None? then Null else Stamp(e.fixed.at.value),
      "seq" := if e.fixed.position.None? then Null else Number(e.fixed.position.value)
    ]
  }

  lemma RowTexts(owner: string, e: Event)
    ensures
      var row := RowOf(owner, e);
      && "tenant" in row && row["tenant"] == Chars(owner)
      && "event_id" in row && row["event_id"] == Chars(e.fixed.id)
      && "label_skill" in row && row["label_skill"] == Chars(e.fixed.labelSkill)
      && "status" in row && row["status"] == Chars(StatusText(e.status))
  {}

  lemma RowLinks(owner: string, e: Event)
    ensures
      var row := RowOf(owner, e);
      && "instance_page_id" in row && row["instance_page_id"] == TextOrNull(e.target)
      && "root_event_id" in row && row["root_event_id"] == TextOrNull(e.fixed.root)
      && "run_id" in row && row["run_id"] == TextOrNull(e.fixed.run)
  {}

  lemma RowKeys(owner: string, e: Event)
    ensures
      var row := RowOf(owner, e);
      && "kind" in row && row["kind"] == (if e.fixed.kind.None? then Null else Chars(KindName(e.fixed.kind.value)))
      && "at_ts" in row && row["at_ts"] == (if e.fixed.at.None? then Null else Stamp(e.fixed.at.value))
      && "seq" in row && row["seq"] == (if e.fixed.position.None? then Null else Number(e.fixed.position.value))
  {}

  // ---- Each clause ----

  /** A column and a comparison with a value. */
  function Against(col: Column, op: Op, v: Bind): Prim { Cmp(Col(col), op, Lit(v)) }

  function OnPrims(o: Option<string>, col: Column): seq<Prim> {
    match o case None => [] case Some(v) => [Against(col, Eq, Bind.Text(v))]
  }

  lemma CompareReads(k: Lexer, text: string, col: Column, op: Op, v: Bind)
    requires Knows(k) && Says(text, [Word(col)] + SpellOp(op))
    ensures Spells(k, Clause([Plain(text), Param], [v]), Against(col, op, v))
  {
    NoPieces(k);
    TextThenValue(k, text, [Word(col)] + SpellOp(op), v, [], [], []);
    assert [Plain(text), Param] + [] == [Plain(text), Param] && [v] + [] == [v];
    assert [Word(col)] + SpellOp(op) + (BindTokens(v) + []) == SpellPrim(Against(col, op, v));
  }

  lemma OnMeans(k: Lexer, o: Option<string>, col: Column, row: Row)
    requires Knows(k) && col in row && Worded(col)
    ensures AllSpell(k, On(o, col + " = "), OnPrims(o, col))
    ensures AllTrue(OnPrims(o, col), row) <==> (o.Some? ==> row[col] == Chars(o.value))
  {
    if o.Some? {
      EqualsSays(col);
      CompareReads(k, col + " = ", col, Eq, Bind.Text(o.value));
      assert OnPrims(o, col)[0] in OnPrims(o, col);
    }
  }

  /** Either column holds the value. */
  function Any2(a: Column, b: Column, v: Bind): Prim { Group(Or(All(Against(a, Eq, v)), Any(All(Against(b, Eq, v))))) }

  function RootPrims(root: Option<string>): seq<Prim> {
    match root case None => [] case Some(r) => [Any2("root_event_id", "event_id", Bind.Text(r))]
  }

  lemma SpelledAny2(a: Column, b: Column, v: Bind)
    ensures SpellPrim(Any2(a, b, v)) ==
            [Sym('('), Word(a), Sym('=')] + (BindTokens(v) + ([Word("OR"), Word(b), Sym('=')] + (BindTokens(v) + [Sym(')')])))
  {
    var (x, y) := (Against(a, Eq, v), Against(b, Eq, v));
    assert SpellDisj(Any(All(y))) == SpellConj(All(y)) == SpellPrim(y) == [Word(b)] + ([Sym('=')] + BindTokens(v));
    assert SpellConj(All(x)) == SpellPrim(x) == [Word(a)] + ([Sym('=')] + BindTokens(v));
  }

  lemma Any2Reads(k: Lexer, first: string, a: Column, second: string, b: Column, close: string, v: Bind)
    requires Knows(k) && Says(first, [Sym('('), Word(a), Sym('=')]) && Says(second, [Word("OR"), Word(b), Sym('=')])
    requires Says(close, [Sym(')')])
    ensures Spells(k, Clause([Plain(first), Param, Plain(second), Param, Plain(close)], [v, v]), Any2(a, b, v))
  {
    LastThree(k, first, [Sym('('), Word(a), Sym('=')], v, second, [Word("OR"), Word(b), Sym('=')], v, close, [Sym(')')]);
    SpelledAny2(a, b, v);
  }

  lemma Any2True(a: Column, b: Column, v: string, row: Row)
    requires a in row && b in row
    ensures PrimTruth(Any2(a, b, Bind.Text(v)), row) == Yes <==> row[a] == Chars(v) || row[b] == Chars(v)
  {
    var (x, y) := (Against(a, Eq, Bind.Text(v)), Against(b, Eq, Bind.Text(v)));
    assert DisjTruth(Any(All(y)), row) == ConjTruth(All(y), row) == PrimTruth(y, row);
    assert DisjTruth(Or(All(x), Any(All(y))), row) == Either(PrimTruth(x, row), PrimTruth(y, row));
  }

  lemma RootMeans(k: Lexer, root: Option<string>, row: Row)
    requires Knows(k) && "root_event_id" in row && "event_id" in row
    ensures AllSpell(k, RootClause(root), RootPrims(root))
    ensures AllTrue(RootPrims(root), row) <==>
            (root.Some? ==> row["root_event_id"] == Chars(root.value) || row["event_id"] == Chars(root.value))
  {
    if root.Some? {
      RootSays();
      OrSays();
      CloseSays();
      Any2Reads(k, "(root_event_id = ", "root_event_id", " OR event_id = ", "event_id", ")", Bind.Text(root.value));
      Any2True("root_event_id", "event_id", root.value, row);
      assert RootPrims(root)[0] in RootPrims(root);
    }
  }

  // `COALESCE(kind, 'user')`, compared with a kind.

  function KindIs(op: Op, kind: string): Prim { Cmp(Coalesce(Col("kind"), Lit(Bind.Text("user"))), op, Lit(Bind.Text(kind))) }

  function KindPrims(f: Filtering): seq<Prim> {
    match f.kind
    case Some(k) => [KindIs(Eq, KindName(k))]
    case None => if f.includeSystem then [] else [KindIs(Ne, "system")]
  }

  lemma SpelledCoalesce(a: Column, b: string, op: Op, v: string)
    ensures SpellPrim(Cmp(Coalesce(Col(a), Lit(Bind.Text(b))), op, Lit(Bind.Text(v)))) ==
            [Word("COALESCE"), Sym('('), Word(a), Sym(',')] + ([Str(b)] + ([Sym(')')] + SpellOp(op) + [Str(v)]))
  {
    assert SpellTerm(Col(a)) == [Word(a)] && SpellTerm(Lit(Bind.Text(b))) == [Str(b)] && SpellTerm(Lit(Bind.Text(v))) == [Str(v)];
  }

  lemma CoalesceReads(k: Lexer, first: string, a: Column, b: string, second: string, op: Op, last: Part, binds: seq<Bind>, v: string)
    requires Knows(k) && Says(first, [Word("COALESCE"), Sym('('), Word(a), Sym(',')])
    requires Says(second, [Sym(')')] + SpellOp(op)) && Reading(k, [last], binds, [Str(v)])
    ensures Spells(k, Clause([Plain(first), Constant(b), Plain(second), last], binds),
                   Cmp(Coalesce(Col(a), Lit(Bind.Text(b))), op, Lit(Bind.Text(v))))
  {
    PlainFirst(k, second, [Sym(')')] + SpellOp(op), [last], binds, [Str(v)]);
    var more := [Sym(')')] + SpellOp(op) + [Str(v)];
    ConstantFirst(k, b, [Plain(second)] + [last], binds, more);
    PlainFirst(k, first, [Word("COALESCE"), Sym('('), Word(a), Sym(',')], [Constant(b)] + ([Plain(second)] + [last]), binds, [Str(b)] + more);
    assert [Plain(first), Constant(b), Plain(second), last] == [Plain(first)] + ([Constant(b)] + ([Plain(second)] + [last]));
    SpelledCoalesce(a, b, op, v);
  }

  lemma LastReads(k: Lexer, t: string)
    requires Knows(k)
    ensures Reading(k, [Param], [Bind.Text(t)], [Str(t)]) && Reading(k, [Constant(t)], [], [Str(t)])
  {
    NoPieces(k);
    ParamFirst(k, Bind.Text(t), [], [], []);
    ConstantFirst(k, t, [], [], []);
    assert [Param] + [] == [Param] && [Bind.Text(t)] + [] == [Bind.Text(t)];
    assert [Constant(t)] + [] == [Constant(t)] && [Str(t)] + [] == [Str(t)];
  }

  lemma CoalesceParam(l: Lexer, first: string, a: Column, b: string, second: string, op: Op, v: string, k: Clause, p: Prim)
    requires Knows(l) && Says(first, [Word("COALESCE"), Sym('('), Word(a), Sym(',')]) && Says(second, [Sym(')')] + SpellOp(op))
    requires k == Clause([Plain(first), Constant(b), Plain(second), Param], [Bind.Text(v)])
    requires p == Cmp(Coalesce(Col(a), Lit(Bind.Text(b))), op, Lit(Bind.Text(v)))
    ensures AllSpell(l, [k], [p])
  {
    LastReads(l, v);
    CoalesceReads(l, first, a, b, second, op, Param, [Bind.Text(v)], v);
    OneSpells(l, k, p);
  }

  lemma CoalesceConstant(l: Lexer, first: string, a: Column, b: string, second: string, op: Op, v: string, k: Clause, p: Prim)
    requires Knows(l) && Says(first, [Word("COALESCE"), Sym('('), Word(a), Sym(',')]) && Says(second, [Sym(')')] + SpellOp(op))
    requires k == Clause([Plain(first), Constant(b), Plain(second), Constant(v)], [])
    requires p == Cmp(Coalesce(Col(a), Lit(Bind.Text(b))), op, Lit(Bind.Text(v)))
    ensures AllSpell(l, [k], [p])
  {
    LastReads(l, v);
    CoalesceReads(l, first, a, b, second, op, Constant(v), [], v);
    OneSpells(l, k, p);
  }

  lemma KindGiven(l: Lexer, name: string, k: Clause, p: Prim)
    requires Knows(l) && k == Clause([Plain("COALESCE(kind, "), Constant("user"), Plain(") = "), Param], [Bind.Text(name)])
    requires p == KindIs(Eq, name)
    ensures AllSpell(l, [k], [p])
  {
    CoalesceSays();
    KindIsSays();
    CoalesceParam(l, "COALESCE(kind, ", "kind", "user", ") = ", Eq, name, k, p);
  }

  lemma KindHidden(l: Lexer, name: string, k: Clause, p: Prim)
    requires Knows(l) && k == Clause([Plain("COALESCE(kind, "), Constant("user"), Plain(") <> "), Constant(name)], []) && p == KindIs(Ne, name)
    ensures AllSpell(l, [k], [p])
  {
    CoalesceSays();
    KindIsNotSays();
    CoalesceConstant(l, "COALESCE(kind, ", "kind", "user", ") <> ", Ne, name, k, p);
  }

  lemma KindSpells(l: Lexer, f: Filtering)
    requires Knows(l)
    ensures AllSpell(l, KindClause(f), KindPrims(f))
  {
    match f.kind
    case Some(k) => KindGiven(l, KindName(k), KindClause(f)[0], KindPrims(f)[0]);
    case None =>
      if !f.includeSystem {
        KindHidden(l, "system", KindClause(f)[0], KindPrims(f)[0]);
      }
  }

  lemma KindIsTrue(op: Op, kind: string, row: Row)
    requires "kind" in row && (row["kind"].Null? || row["kind"].Chars?) && (op == Eq || op == Ne)
    ensures
      var held := if row["kind"].Null? then "user" else row["kind"].s;
      PrimTruth(KindIs(op, kind), row) == Yes <==> (if op == Eq then held == kind else held != kind)
  {
    assert TermValue(Col("kind"), row) == row["kind"] && TermValue(Lit(Bind.Text("user")), row) == Chars("user");
  }

  lemma KindsApart(a: Kind, b: Kind)
    ensures KindName(a) == KindName(b) <==> a == b
  {
    assert "user"[0] != "system"[0];
  }

  lemma KindTrue(f: Filtering, owner: string, e: Event)
    ensures AllTrue(KindPrims(f), RowOf(owner, e)) <==>
            && (f.kind == Some(System) ==> e.fixed.kind == Some(System))
            && (f.kind == Some(User) ==> e.fixed.kind != Some(System))
            && (f.kind == None && !f.includeSystem ==> e.fixed.kind != Some(System))
  {
    RowKeys(owner, e);
    var row := RowOf(owner, e);
    var held := if e.fixed.kind.None? then User else e.fixed.kind.value;
    match f.kind
    case Some(k) =>
      KindIsTrue(Eq, KindName(k), row);
      KindsApart(held, k);
      assert KindPrims(f) == [KindIs(Eq, KindName(k))] && KindPrims(f)[0] in KindPrims(f);
    case None =>
      KindIsTrue(Ne, KindName(System), row);
      KindsApart(held, System);
      assert f.includeSystem || (KindPrims(f) == [KindIs(Ne, "system")] && KindPrims(f)[0] in KindPrims(f));
  }

  // ---- The cursor ----

  function Undated(asc: bool, id: string): Prim {
    Group(Any(And(IsNull(Col("at_ts")), All(Against("event_id", Past(asc), Bind.Text(id))))))
  }

  /** Dated past the cursor. */
  function Later(asc: bool, at: string): Prim {
    Group(Any(And(NotNull(Col("at_ts")), All(Cmp(Col("at_ts"), Past(asc), Cast(Lit(Bind.Text(at))))))))
  }

  /** Dated as the cursor, its id past the cursor's. */
  function Tied(asc: bool, at: string, id: string): Prim {
    Group(Any(And(Cmp(Col("at_ts"), Eq, Cast(Lit(Bind.Text(at)))), All(Against("event_id", Past(asc), Bind.Text(id))))))
  }

  function Dated(asc: bool, at: string, id: string): Prim {
    Group(Or(All(Later(asc, at)), Or(All(Tied(asc, at, id)), Any(All(IsNull(Col("at_ts")))))))
  }

  function CursorPrims(asc: bool, c: Option<EventCursor>): seq<Prim> {
    match c
    case None => []
    case Some(Seq(n)) => [Against("seq", Past(asc), Int(n))]
    case Some(At(None, id)) => [Undated(asc, id)]
    case Some(At(Some(at), id)) => [Dated(asc, at, id)]
  }

  // ---- The cursor's clauses, read ----

  lemma SpelledUndated(asc: bool, id: string)
    ensures SpellPrim(Undated(asc, id)) == UndatedTokens(asc) + ([Str(id)] + [Sym(')')])
  {
    var (x, y) := (IsNull(Col("at_ts")), Against("event_id", Past(asc), Bind.Text(id)));
    assert SpellPrim(x) == [Word("at_ts")] + [Word("IS"), Word("NULL")];
    assert SpellPrim(y) == [Word("event_id")] + (SpellOp(Past(asc)) + [Str(id)]);
    SpelledBoth(x, y);
  }

  lemma UndatedReads(k: Lexer, asc: bool, id: string)
    requires Knows(k)
    ensures AllSpell(k, CursorClause(asc, Some(At(None, id))), CursorPrims(asc, Some(At(None, id))))
  {
    UndatedSays(asc);
    CloseSays();
    SpelledUndated(asc, id);
    OneValue(k, UndatedOpening(asc), UndatedTokens(asc), Bind.Text(id), ")", [Sym(')')], Undated(asc, id));
  }

  lemma OneValue(k: Lexer, a: string, x: seq<Token>, v: Bind, b: string, y: seq<Token>, p: Prim)
    requires Knows(k) && Says(a, x) && Says(b, y) && SpellPrim(p) == x + (BindTokens(v) + y)
    ensures Spells(k, Clause([Plain(a), Param, Plain(b)], [v]), p)
  {
    LastTwo(k, a, x, v, b, y);
  }

  lemma SpelledCast(col: Column, op: Op, at: string)
    ensures SpellPrim(Cmp(Col(col), op, Cast(Lit(Bind.Text(at))))) ==
            [Word(col)] + SpellOp(op) + [Word("CAST"), Sym('('), Str(at), Word("AS"), Word("timestamp"), Sym(')')]
  {
    assert SpellTerm(Lit(Bind.Text(at))) == [Str(at)] && SpellTerm(Col(col)) == [Word(col)];
    assert SpellTerm(Cast(Lit(Bind.Text(at)))) == [Word("CAST"), Sym('(')] + ([Str(at)] + [Word("AS"), Word("timestamp"), Sym(')')]);
  }

  lemma SpelledBoth(p: Prim, q: Prim)
    ensures SpellPrim(Group(Any(And(p, All(q))))) == [Sym('(')] + (SpellPrim(p) + ([Word("AND")] + SpellPrim(q)) + [Sym(')')])
  {
    assert SpellConj(All(q)) == SpellPrim(q);
    assert SpellDisj(Any(And(p, All(q)))) == SpellConj(And(p, All(q))) == SpellPrim(p) + ([Word("AND")] + SpellPrim(q));
  }

  lemma SpelledThree(p: Prim, q: Prim, r: Prim)
    ensures SpellPrim(Group(Or(All(p), Or(All(q), Any(All(r)))))) ==
            [Sym('(')] + (SpellPrim(p) + ([Word("OR")] + (SpellPrim(q) + ([Word("OR")] + SpellPrim(r)))) + [Sym(')')])
  {
    assert SpellDisj(Any(All(r))) == SpellConj(All(r)) == SpellPrim(r);
    assert SpellConj(All(q)) == SpellPrim(q) && SpellConj(All(p)) == SpellPrim(p);
    assert SpellDisj(Or(All(q), Any(All(r)))) == SpellPrim(q) + ([Word("OR")] + SpellPrim(r));
    assert SpellDisj(Or(All(p), Or(All(q), Any(All(r))))) == SpellPrim(p) + ([Word("OR")] + (SpellPrim(q) + ([Word("OR")] + SpellPrim(r))));
  }

  lemma SpelledLater(asc: bool, at: string)
    ensures [Sym('(')] + SpellPrim(Later(asc, at)) == LaterTokens(asc) + [Str(at), Word("AS"), Word("timestamp"), Sym(')'), Sym(')')]
  {
    SpelledBoth(NotNull(Col("at_ts")), Cmp(Col("at_ts"), Past(asc), Cast(Lit(Bind.Text(at)))));
    SpelledCast("at_ts", Past(asc), at);
    assert SpellPrim(NotNull(Col("at_ts"))) == [Word("at_ts")] + [Word("IS"), Word("NOT"), Word("NULL")];
  }

  lemma SpelledTied(asc: bool, at: string, id: string)
    ensures SpellPrim(Tied(asc, at, id)) ==
            [Sym('('), Word("at_ts"), Sym('='), Word("CAST"), Sym('(')] + ([Str(at)] + (TieTokens(asc) + [Str(id)] + [Sym(')')]))
  {
    var (p, q) := (Cmp(Col("at_ts"), Eq, Cast(Lit(Bind.Text(at)))), Against("event_id", Past(asc), Bind.Text(id)));
    SpelledBoth(p, q);
    SpelledCast("at_ts", Eq, at);
    assert SpellPrim(q) == [Word("event_id")] + (SpellOp(Past(asc)) + [Str(id)]);
    Tying([Sym('(')], [Word("at_ts"), Sym('='), Word("CAST"), Sym('(')], [Str(at)], [Word("AS"), Word("timestamp"), Sym(')')],
          [Word("AND")], [Word("event_id")], SpellOp(Past(asc)), [Str(id)], [Sym(')')]);
    assert [Word("at_ts")] + [Sym('=')] + [Word("CAST"), Sym('('), Str(at), Word("AS"), Word("timestamp"), Sym(')')]
        == [Word("at_ts"), Sym('='), Word("CAST"), Sym('(')] + [Str(at)] + [Word("AS"), Word("timestamp"), Sym(')')];
    assert [Word("AS"), Word("timestamp"), Sym(')')] + [Word("AND")] == [Word("AS"), Word("timestamp"), Sym(')'), Word("AND")];
    assert [Sym('(')] + [Word("at_ts"), Sym('='), Word("CAST"), Sym('(')] == [Sym('('), Word("at_ts"), Sym('='), Word("CAST"), Sym('(')];
  }

  lemma Tying(o: seq<Token>, a: seq<Token>, at: seq<Token>, cast: seq<Token>, and: seq<Token>, e: seq<Token>, op: seq<Token>,
              id: seq<Token>, close: seq<Token>)
    ensures o + ((a + at + cast) + (and + (e + (op + id))) + close) == (o + a) + (at + ((cast + and) + (e + op) + id + close))
  {}

  /** Tokens in the order they stand, regrouped. */
  lemma Regrouped(open: seq<Token>, later: seq<Token>, l: seq<Token>, at: Token, c: seq<Token>, tied: seq<Token>, m: seq<Token>,
                  tie: seq<Token>, id: Token, rest: seq<Token>, or: seq<Token>, close: seq<Token>)
    requires open + later == l + ([at] + c)
    requires tied == m + ([at] + (tie + [id] + close))
    ensures open + (later + (or + (tied + (or + rest))) + close)
         == l + ([at] + ((c + or + m) + ([at] + (tie + ([id] + (close + or + rest + close))))))
  {
    assert open + (later + (or + (tied + (or + rest))) + close) == (open + later) + (or + (tied + (or + rest))) + close;
  }

  lemma SpelledDated(asc: bool, at: string, id: string)
    ensures SpellPrim(Dated(asc, at, id)) ==
            LaterTokens(asc) + ([Str(at)] + (SameTokens() + ([Str(at)] + (TieTokens(asc) + ([Str(id)] + RestTokens())))))
  {
    var (p, q, r) := (Later(asc, at), Tied(asc, at, id), IsNull(Col("at_ts")));
    SpelledThree(p, q, r);
    SpelledLater(asc, at);
    SpelledTied(asc, at, id);
    var cast := [Word("AS"), Word("timestamp"), Sym(')'), Sym(')')];
    var m := [Sym('('), Word("at_ts"), Sym('='), Word("CAST"), Sym('(')];
    var rest := [Word("at_ts")] + [Word("IS"), Word("NULL")];
    assert SpellPrim(r) == rest;
    assert [Str(at), Word("AS"), Word("timestamp"), Sym(')'), Sym(')')] == [Str(at)] + cast;
    Regrouped([Sym('(')], SpellPrim(p), LaterTokens(asc), Str(at), cast, SpellPrim(q), m, TieTokens(asc), Str(id), rest,
              [Word("OR")], [Sym(')')]);
    assert cast + [Word("OR")] + m == SameTokens();
    assert [Sym(')')] + [Word("OR")] + rest + [Sym(')')] == RestTokens();
  }

  lemma ThreeValues(k: Lexer, a: string, x: seq<Token>, u: Bind, b: string, y: seq<Token>, v: Bind, c: string, z: seq<Token>, i: Bind,
                    d: string, w: seq<Token>, p: Prim)
    requires Knows(k) && Says(a, x) && Says(b, y) && Says(c, z) && Says(d, w)
    requires SpellPrim(p) == x + (BindTokens(u) + (y + (BindTokens(v) + (z + (BindTokens(i) + w)))))
    ensures Spells(k, Clause([Plain(a), Param, Plain(b), Param, Plain(c), Param, Plain(d)], [u, v, i]), p)
  {
    LastThree(k, b, y, v, c, z, i, d, w);
    var parts := [Plain(b), Param, Plain(c), Param, Plain(d)];
    TextThenValue(k, a, x, u, parts, [v, i], y + (BindTokens(v) + (z + (BindTokens(i) + w))));
    assert [Plain(a), Param] + parts == [Plain(a), Param, Plain(b), Param, Plain(c), Param, Plain(d)] && [u] + [v, i] == [u, v, i];
  }

  lemma DatedReads(k: Lexer, asc: bool, at: string, id: string)
    requires Knows(k)
    ensures AllSpell(k, CursorClause(asc, Some(At(Some(at), id))), CursorPrims(asc, Some(At(Some(at), id))))
  {
    LaterSays(asc);
    SameSays();
    TieSays(asc);
    RestSays();
    SpelledDated(asc, at, id);
    ThreeValues(k, LaterOpening(asc), LaterTokens(asc), Bind.Text(at), " AS timestamp)) OR (at_ts = CAST(", SameTokens(), Bind.Text(at),
                TieMiddle(asc), TieTokens(asc), Bind.Text(id), ") OR at_ts IS NULL)", RestTokens(), Dated(asc, at, id));
  }

  lemma CursorSpells(k: Lexer, asc: bool, c: Option<EventCursor>)
    requires Knows(k)
    ensures AllSpell(k, CursorClause(asc, c), CursorPrims(asc, c))
  {
    match c
    case None =>
    case Some(Seq(n)) =>
      SeqSays(asc);
      CompareReads(k, if asc then "seq > " else "seq < ", "seq", Past(asc), Int(n));
    case Some(At(None, id)) => UndatedReads(k, asc, id);
    case Some(At(Some(at), id)) => DatedReads(k, asc, at, id);
  }

  // ---- The cursor's clauses, evaluated ----

  /** The row comes after the cursor in the order of the listing; an unreadable timestamp is before undated rows only. */
  predicate SortsAfter(asc: bool, c: EventCursor, e: Event) {
    match c
    case Seq(n) => e.fixed.position.Some? && if asc then n < e.fixed.position.value else e.fixed.position.value < n
    case At(None, id) => Before(asc, None, id, e.fixed.at, e.fixed.id)
    case At(Some(text), id) =>
      match Decimal.Parse(text)
      case None => e.fixed.at.None?
      case Some(t) => Before(asc, Some(t), id, e.fixed.at, e.fixed.id)
  }

  predicate Passed(asc: bool, a: string, b: string) { if asc then Strings.LexLess(a, b) else Strings.LexLess(b, a) }

  lemma IdPassed(asc: bool, id: string, row: Row)
    requires "event_id" in row && row["event_id"].Chars?
    ensures PrimTruth(Against("event_id", Past(asc), Bind.Text(id)), row) == Of(Passed(asc, id, row["event_id"].s))
  {}

  lemma BothTrue(p: Prim, q: Prim, row: Row)
    ensures PrimTruth(Group(Any(And(p, All(q)))), row) == Both(PrimTruth(p, row), PrimTruth(q, row))
  {
    assert ConjTruth(All(q), row) == PrimTruth(q, row);
    assert DisjTruth(Any(And(p, All(q))), row) == ConjTruth(And(p, All(q)), row);
  }

  lemma ThreeTrue(p: Prim, q: Prim, r: Prim, row: Row)
    ensures PrimTruth(Group(Or(All(p), Or(All(q), Any(All(r))))), row) ==
            Either(PrimTruth(p, row), Either(PrimTruth(q, row), PrimTruth(r, row)))
  {
    assert DisjTruth(Any(All(r)), row) == ConjTruth(All(r), row) == PrimTruth(r, row);
    assert ConjTruth(All(q), row) == PrimTruth(q, row) && ConjTruth(All(p), row) == PrimTruth(p, row);
    assert DisjTruth(Or(All(q), Any(All(r))), row) == Either(PrimTruth(q, row), PrimTruth(r, row));
    assert DisjTruth(Or(All(p), Or(All(q), Any(All(r)))), row) ==
           Either(PrimTruth(p, row), Either(PrimTruth(q, row), PrimTruth(r, row)));
  }

  lemma AtTrue(op: Op, at: string, row: Row)
    requires "at_ts" in row && (row["at_ts"].Null? || row["at_ts"].Stamp?)
    ensures
      var t := Decimal.Parse(at);
      PrimTruth(Cmp(Col("at_ts"), op, Cast(Lit(Bind.Text(at)))), row) ==
        if row["at_ts"].Null? || t.None? then Unknown else Compare(row["at_ts"], op, Stamp(t.value))
    ensures PrimTruth(IsNull(Col("at_ts")), row) == Of(row["at_ts"].Null?)
    ensures PrimTruth(NotNull(Col("at_ts")), row) == Of(row["at_ts"].Stamp?)
  {
    assert TermValue(Lit(Bind.Text(at)), row) == Chars(at) && TermValue(Col("at_ts"), row) == row["at_ts"];
  }

  lemma DatedTrue(asc: bool, at: string, id: string, row: Row)
    requires "at_ts" in row && (row["at_ts"].Null? || row["at_ts"].Stamp?) && "event_id" in row && row["event_id"].Chars?
    ensures PrimTruth(Dated(asc, at, id), row) == Yes <==>
            || row["at_ts"].Null?
            || (&& Decimal.Parse(at).Some?
                && var (a, t) := (row["at_ts"].t, Decimal.Parse(at).value);
                   (if asc then t < a else a < t) || (a == t && Passed(asc, id, row["event_id"].s)))
  {
    AtTrue(Past(asc), at, row);
    AtTrue(Eq, at, row);
    IdPassed(asc, id, row);
    BothTrue(NotNull(Col("at_ts")), Cmp(Col("at_ts"), Past(asc), Cast(Lit(Bind.Text(at)))), row);
    BothTrue(Cmp(Col("at_ts"), Eq, Cast(Lit(Bind.Text(at)))), Against("event_id", Past(asc), Bind.Text(id)), row);
    ThreeTrue(Later(asc, at), Tied(asc, at, id), IsNull(Col("at_ts")), row);
  }

  lemma UndatedTrue(asc: bool, id: string, row: Row)
    requires "at_ts" in row && (row["at_ts"].Null? || row["at_ts"].Stamp?) && "event_id" in row && row["event_id"].Chars?
    ensures PrimTruth(Undated(asc, id), row) == Yes <==> row["at_ts"].Null? && Passed(asc, id, row["event_id"].s)
  {
    AtTrue(Eq, "", row);
    IdPassed(asc, id, row);
    BothTrue(IsNull(Col("at_ts")), Against("event_id", Past(asc), Bind.Text(id)), row);
  }

  lemma SeqTrue(asc: bool, n: int, row: Row)
    requires "seq" in row && (row["seq"].Null? || row["seq"].Number?)
    ensures PrimTruth(Against("seq", Past(asc), Int(n)), row) == Yes <==>
            row["seq"].Number? && if asc then n < row["seq"].n else row["seq"].n < n
  {}

  lemma OneTrue(p: Prim, row: Row)
    ensures AllTrue([p], row) <==> PrimTruth(p, row) == Yes
  {
    assert [p][0] in [p];
  }

  lemma CursorTrue(asc: bool, c: EventCursor, owner: string, e: Event)
    ensures AllTrue(CursorPrims(asc, Some(c)), RowOf(owner, e)) <==> SortsAfter(asc, c, e)
  {
    var row := RowOf(owner, e);
    RowTexts(owner, e);
    RowKeys(owner, e);
    match c
    case Seq(n) =>
      SeqTrue(asc, n, row);
      OneTrue(Against("seq", Past(asc), Int(n)), row);
    case At(None, id) =>
      UndatedTrue(asc, id, row);
      OneTrue(Undated(asc, id), row);
    case At(Some(at), id) =>
      DatedTrue(asc, at, id, row);
      OneTrue(Dated(asc, at, id), row);
  }

  // ---- The statement ----

  function FilterPrims(f: Filtering): seq<Prim> {
    OnPrims(f.target, "instance_page_id") + RootPrims(f.root) + OnPrims(f.run, "run_id")
    + OnPrims(f.labelSkill, "label_skill") + OnPrims(StatusName(f.status), "status") + KindPrims(f)
  }

  function Prims(f: Filtering, tenant: string, asc: bool, c: Option<EventCursor>): seq<Prim> {
    (if FilterPrims(f) == [] then [True] else FilterPrims(f)) + OnPrims(Some(tenant), "tenant") + CursorPrims(asc, c)
  }

  lemma SpellConcat(k: Lexer, a: seq<Clause>, p: seq<Prim>, b: seq<Clause>, q: seq<Prim>)
    requires AllSpell(k, a, p) && AllSpell(k, b, q)
    ensures AllSpell(k, a + b, p + q)
  {
    forall i | 0 <= i < |a + b| ensures Spells(k, (a + b)[i], (p + q)[i]) {
      if i < |a| {
        assert (a + b)[i] == a[i] && (p + q)[i] == p[i];
      } else {
        assert (a + b)[i] == b[i - |a|] && (p + q)[i] == q[i - |a|];
      }
    }
  }

  lemma TrueConcat(p: seq<Prim>, q: seq<Prim>, row: Row)
    ensures AllTrue(p + q, row) <==> AllTrue(p, row) && AllTrue(q, row)
  {
    assert forall x :: x in p + q <==> x in p || x in q;
  }

  lemma FilterSpells(k: Lexer, f: Filtering, row: Row)
    requires Knows(k) && "instance_page_id" in row && "run_id" in row && "label_skill" in row && "status" in row
    requires "root_event_id" in row && "event_id" in row
    ensures AllSpell(k, FilterClauses(f), FilterPrims(f))
    ensures AllTrue(FilterPrims(f), row) <==>
            && (f.target.Some? ==> row["instance_page_id"] == Chars(f.target.value))
            && (f.root.Some? ==> row["root_event_id"] == Chars(f.root.value) || row["event_id"] == Chars(f.root.value))
            && (f.run.Some? ==> row["run_id"] == Chars(f.run.value))
            && (f.labelSkill.Some? ==> row["label_skill"] == Chars(f.labelSkill.value))
            && (StatusName(f.status).Some? ==> row["status"] == Chars(StatusName(f.status).value))
            && AllTrue(KindPrims(f), row)
  {
    ColumnWords();
    ColumnTexts();
    OnMeans(k, f.target, "instance_page_id", row);
    RootMeans(k, f.root, row);
    OnMeans(k, f.run, "run_id", row);
    OnMeans(k, f.labelSkill, "label_skill", row);
    OnMeans(k, StatusName(f.status), "status", row);
    KindSpells(k, f);
    var (k1, p1) := (On(f.target, "instance_page_id = "), OnPrims(f.target, "instance_page_id"));
    var (k2, p2) := (k1 + RootClause(f.root), p1 + RootPrims(f.root));
    var (k3, p3) := (k2 + On(f.run, "run_id = "), p2 + OnPrims(f.run, "run_id"));
    var (k4, p4) := (k3 + On(f.labelSkill, "label_skill = "), p3 + OnPrims(f.labelSkill, "label_skill"));
    var (k5, p5) := (k4 + StatusClause(f.status), p4 + OnPrims(StatusName(f.status), "status"));
    SpellConcat(k, k1, p1, RootClause(f.root), RootPrims(f.root));
    SpellConcat(k, k2, p2, On(f.run, "run_id = "), OnPrims(f.run, "run_id"));
    SpellConcat(k, k3, p3, On(f.labelSkill, "label_skill = "), OnPrims(f.labelSkill, "label_skill"));
    SpellConcat(k, k4, p4, StatusClause(f.status), OnPrims(StatusName(f.status), "status"));
    SpellConcat(k, k5, p5, KindClause(f), KindPrims(f));
    TrueConcat(p1, RootPrims(f.root), row);
    TrueConcat(p2, OnPrims(f.run, "run_id"), row);
    TrueConcat(p3, OnPrims(f.labelSkill, "label_skill"), row);
    TrueConcat(p4, OnPrims(StatusName(f.status), "status"), row);
    TrueConcat(p5, KindPrims(f), row);
  }

  lemma StatusTrue(status: Option<Status>, held: Status)
    ensures (StatusName(status).Some? ==> StatusText(held) == StatusName(status).value) <==> status in {None, Some(held)}
  {
    assert "inbox"[0] != "processed"[0];
  }

  lemma LinkTrue(want: Option<string>, held: Option<string>)
    ensures (want.Some? ==> TextOrNull(held) == Chars(want.value)) <==> want in {None, held}
  {}

  lemma FilterTrue(k: Lexer, f: Filtering, owner: string, e: Event)
    requires Knows(k)
    ensures AllSpell(k, FilterClauses(f), FilterPrims(f))
    ensures AllTrue(FilterPrims(f), RowOf(owner, e)) <==> Asked(f, e)
  {
    RowTexts(owner, e);
    RowLinks(owner, e);
    KindTrue(f, owner, e);
    StatusTrue(f.status, e.status);
    LinkTrue(f.target, e.target);
    LinkTrue(f.run, e.fixed.run);
    LinkTrue(f.root, e.fixed.root);
    FilterSpells(k, f, RowOf(owner, e));
  }

  lemma TrueSpells(k: Lexer)
    requires Knows(k)
    ensures Spells(k, Clause([Plain("TRUE")], []), True)
  {
    assert Worded("TRUE");
    WordAlone(k, "TRUE");
  }

  lemma WordAlone(k: Lexer, w: string)
    requires Knows(k) && w != "" && Worded(w)
    ensures Reading(k, [Plain(w)], [], [Word(w)])
  {
    assert [Plain(w)][1..] == [] && [Word(w)] + [] == [Word(w)] && [Word(w)][1..] == [];
  }

  lemma StatementTrue(k: Lexer, f: Filtering, tenant: string, asc: bool, c: Option<EventCursor>, owner: string, e: Event)
    requires Knows(k)
    ensures AllSpell(k, Clauses(f, tenant, asc, c), Prims(f, tenant, asc, c))
    ensures AllTrue(Prims(f, tenant, asc, c), RowOf(owner, e)) <==>
            owner == tenant && Asked(f, e) && (c.Some? ==> SortsAfter(asc, c.value, e))
  {
    var row := RowOf(owner, e);
    FilterTrue(k, f, owner, e);
    TrueSpells(k);
    ColumnWords();
    ColumnTexts();
    RowTexts(owner, e);
    OnMeans(k, Some(tenant), "tenant", row);
    CursorSpells(k, asc, c);
    if c.Some? {
      CursorTrue(asc, c.value, owner, e);
    }
    var k1 := if FilterClauses(f) == [] then [Clause([Plain("TRUE")], [])] else FilterClauses(f);
    var p1 := if FilterPrims(f) == [] then [True] else FilterPrims(f);
    assert AllSpell(k, k1, p1) && (AllTrue(p1, row) <==> Asked(f, e));
    SpellConcat(k, k1, p1, On(Some(tenant), "tenant = "), OnPrims(Some(tenant), "tenant"));
    SpellConcat(k, k1 + On(Some(tenant), "tenant = "), p1 + OnPrims(Some(tenant), "tenant"), CursorClause(asc, c), CursorPrims(asc, c));
    TrueConcat(p1, OnPrims(Some(tenant), "tenant"), row);
    TrueConcat(p1 + OnPrims(Some(tenant), "tenant"), CursorPrims(asc, c), row);
  }

  function Statement(f: Filtering, tenant: string, asc: bool, c: Option<EventCursor>): Option<string> {
    var cs := Clauses(f, tenant, asc, c);
    Render(Flat(JoinParts(cs)), JoinBinds(cs))
  }

  lemma StatementParses(f: Filtering, tenant: string, asc: bool, c: Option<EventCursor>)
    requires Statement(f, tenant, asc, c).Some? && AllSpell(PgScanner.LexScanner(), Clauses(f, tenant, asc, c), Prims(f, tenant, asc, c))
    ensures Prims(f, tenant, asc, c) != [] && Parse(Statement(f, tenant, asc, c).value) == Some(Any(Joined(Prims(f, tenant, asc, c))))
  {
    var cs, ps := Clauses(f, tenant, asc, c), Prims(f, tenant, asc, c);
    var k := PgScanner.LexScanner();
    PgScanner.LexLawful();
    PgScanner.ListingReads(k, f, tenant, asc, c);
    LexKnows();
    JoinReads(k, cs, ps);
    var d := Any(Joined(ps));
    DisjParses(d, []);
    assert SpellDisj(d) + [] == SpellDisj(d) == SpellConj(Joined(ps));
  }

  /**
   The `WHERE` of a listing, when it renders, is a condition that is true at exactly the rows of the tenant
   that have what the filter asks and come after the cursor.
   */
  lemma ListingMeans(f: Filtering, tenant: string, asc: bool, c: Option<EventCursor>, owner: string, e: Event)
    requires Statement(f, tenant, asc, c).Some?
    ensures Parse(Statement(f, tenant, asc, c).value).Some?
    ensures Keeps(Statement(f, tenant, asc, c).value, RowOf(owner, e)) <==>
            owner == tenant && Asked(f, e) && (c.Some? ==> SortsAfter(asc, c.value, e))
  {
    var ps := Prims(f, tenant, asc, c);
    LexKnows();
    StatementTrue(PgScanner.LexScanner(), f, tenant, asc, c, owner, e);
    StatementParses(f, tenant, asc, c);
    JoinedTruth(ps, RowOf(owner, e));
    assert DisjTruth(Any(Joined(ps)), RowOf(owner, e)) == ConjTruth(Joined(ps), RowOf(owner, e));
  }

  // ---- The shared table ----

  /** The tenant's rows of the table every tenant shares. */
  function RowsOf(shared: seq<(string, Event)>, tenant: string): seq<Event> {
    if shared == [] then []
    else (if shared[0].0 == tenant then [shared[0].1] else []) + RowsOf(shared[1..], tenant)
  }

  function Selected(shared: seq<(string, Event)>, sql: string): seq<Event> {
    if shared == [] then []
    else (if Keeps(sql, RowOf(shared[0].0, shared[0].1)) then [shared[0].1] else []) + Selected(shared[1..], sql)
  }

  lemma SortsAfterResumes(asc: bool, c: EventCursor, e: Event)
    ensures SortsAfter(asc, c, e) <==> Resumes(asc, c, e)
  {}

  lemma KeepsIsWhere(f: Filtering, tenant: string, asc: bool, c: Option<EventCursor>, owner: string, e: Event)
    requires Statement(f, tenant, asc, c).Some?
    ensures Keeps(Statement(f, tenant, asc, c).value, RowOf(owner, e)) <==> owner == tenant && Where(f, asc, c)(e)
  {
    ListingMeans(f, tenant, asc, c, owner, e);
    SelectsAsked(f, e);
    if c.Some? {
      SortsAfterResumes(asc, c.value, e);
    }
  }

  /** Over the shared table the statement selects what the local listing selects of the tenant's rows. */
  lemma {:induction false} NativeIsLocal(shared: seq<(string, Event)>, f: Filtering, tenant: string, asc: bool, c: Option<EventCursor>)
    requires Statement(f, tenant, asc, c).Some?
    ensures Selected(shared, Statement(f, tenant, asc, c).value) == Filter(RowsOf(shared, tenant), Where(f, asc, c))
  {
    if shared != [] {
      var (owner, e) := shared[0];
      KeepsIsWhere(f, tenant, asc, c, owner, e);
      NativeIsLocal(shared[1..], f, tenant, asc, c);
      var rest := RowsOf(shared[1..], tenant);
      if owner == tenant {
        assert RowsOf(shared, tenant) == [e] + rest && ([e] + rest)[1..] == rest;
      } else {
        assert RowsOf(shared, tenant) == rest;
      }
    }
  }
}

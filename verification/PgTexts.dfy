/**
 The texts between the values of a listing's `WHERE`, as words and the symbols between them, and the tokens
 the lexer finds in each.
 */
module PgTexts {

  import opened Wrappers
  import opened PgNative
  import opened PgSql
  import PgScanner

  // ---- Texts as words and the symbols between them ----

  /** Words, each with what follows it. */
  type Words = seq<(string, string)>

  function Written(ws: Words): string {
    if ws == [] then "" else ws[0].0 + ws[0].1 + Written(ws[1..])
  }

  function Symbols(g: string): seq<Token> {
    if g == "" then [] else (if g[0] == ' ' then [] else [Sym(g[0])]) + Symbols(g[1..])
  }

  function WordTokens(ws: Words): seq<Token> {
    if ws == [] then [] else (if ws[0].0 == "" then [] else [Word(ws[0].0)]) + Symbols(ws[0].1) + WordTokens(ws[1..])
  }

  predicate IsSymbol(c: char) { c == ' ' || c == '(' || c == ')' || c == ',' || c == '=' || c == '<' || c == '>' }

  predicate Worded(w: string) { forall c :: c in w ==> IsWordChar(c) }

  predicate Gap(g: string) { g != "" && forall c :: c in g ==> IsSymbol(c) }

  predicate Regular(ws: Words) {
    ws == [] || (Worded(ws[0].0) && Gap(ws[0].1) && Regular(ws[1..]))
  }

  /** The text is made of words and symbols, and these are its tokens, spaces aside. */
  ghost predicate Says(t: string, ts: seq<Token>) {
    exists ws :: Regular(ws) && Written(ws) == t && WordTokens(ws) == ts
  }

  /** The lexer finds these tokens in the text, spaces aside. */
  ghost predicate Scans(t: string, ts: seq<Token>) {
    PgScanner.Commentless(t).Some? && Solid(PgScanner.Commentless(t).value) == ts
  }

  lemma {:induction false} SolidConcat(a: seq<Token>, b: seq<Token>)
    ensures Solid(a + b) == Solid(a) + Solid(b)
  {
    if a == [] {
      assert a + b == b;
    } else {
      assert (a + b)[1..] == a[1..] + b;
      SolidConcat(a[1..], b);
    }
  }

  lemma ScansCons(t: Token, s: string, rest: string, ts: seq<Token>)
    requires Scans(rest, ts) && t != Comment && Lex(s) == Cons(t, Lex(rest))
    ensures Scans(s, (if t == Sym(' ') then [] else [t]) + ts)
  {
    var more := Lex(rest).value;
    assert ([t] + more)[1..] == more;
    assert Comment in [t] + more ==> Comment in more;
  }

  lemma SymbolScans(s: string, ts: seq<Token>)
    requires s != "" && IsSymbol(s[0]) && Scans(s[1..], ts)
    ensures Scans(s, (if s[0] == ' ' then [] else [Sym(s[0])]) + ts)
  {
    ScansCons(Sym(s[0]), s, s[1..], ts);
  }

  lemma SymbolsHead(g: string, ts: seq<Token>)
    requires g != ""
    ensures Symbols(g) + ts == (if g[0] == ' ' then [] else [Sym(g[0])]) + (Symbols(g[1..]) + ts)
  {}

  lemma {:induction false} SymbolsScan(g: string, t: string, ts: seq<Token>, s: string)
    requires Scans(t, ts) && (forall c :: c in g ==> IsSymbol(c)) && s == g + t
    ensures Scans(s, Symbols(g) + ts)
    decreases |g|
  {
    if g == "" {
      assert s == t && Symbols(g) + ts == ts;
    } else {
      assert g[0] in g && s[0] == g[0] && s[1..] == g[1..] + t;
      SymbolsScan(g[1..], t, ts, s[1..]);
      SymbolScans(s, Symbols(g[1..]) + ts);
      SymbolsHead(g, ts);
    }
  }

  lemma WordScans(w: string, t: string, ts: seq<Token>)
    requires Scans(t, ts) && Worded(w) && (t != "" ==> !IsWordChar(t[0]))
    ensures Scans(w + t, (if w == "" then [] else [Word(w)]) + ts)
  {
    if w == "" {
      assert w + t == t && [] + ts == ts;
    } else {
      assert w[0] in w;
      WordExtends(w, t);
      assert (w + t)[..|w|] == w && (w + t)[|w|..] == t;
      ScansCons(Word(w), w + t, t, ts);
    }
  }

  lemma WordGapScans(w: string, g: string, t: string, ts: seq<Token>)
    requires Worded(w) && Gap(g) && Scans(t, ts)
    ensures Scans(w + g + t, (if w == "" then [] else [Word(w)]) + Symbols(g) + ts)
  {
    var more := g + t;
    SymbolsScan(g, t, ts, more);
    assert g[0] in g && more[0] == g[0];
    WordScans(w, more, Symbols(g) + ts);
    assert w + more == w + g + t;
    assert (if w == "" then [] else [Word(w)]) + (Symbols(g) + ts) == (if w == "" then [] else [Word(w)]) + Symbols(g) + ts;
  }

  lemma {:induction false} WrittenScans(ws: Words)
    requires Regular(ws)
    ensures Scans(Written(ws), WordTokens(ws))
  {
    if ws != [] {
      WrittenScans(ws[1..]);
      WordGapScans(ws[0].0, ws[0].1, Written(ws[1..]), WordTokens(ws[1..]));
    }
  }

  lemma SaysScans(t: string, ts: seq<Token>)
    requires Says(t, ts)
    ensures Scans(t, ts)
  {
    var ws :| Regular(ws) && Written(ws) == t && WordTokens(ws) == ts;
    WrittenScans(ws);
  }

  lemma Spelt(ws: Words, t: string, ts: seq<Token>)
    requires Regular(ws) && Written(ws) == t && WordTokens(ws) == ts
    ensures Says(t, ts)
  {}

  lemma {:induction false} WrittenConcat(a: Words, b: Words)
    requires Regular(a) && Regular(b)
    ensures Regular(a + b) && Written(a + b) == Written(a) + Written(b)
  {
    if a == [] {
      assert a + b == b;
    } else {
      assert (a + b)[1..] == a[1..] + b;
      WrittenConcat(a[1..], b);
      assert Written(a + b) == a[0].0 + a[0].1 + (Written(a[1..]) + Written(b));
    }
  }

  lemma {:induction false} TokensConcat(a: Words, b: Words)
    ensures WordTokens(a + b) == WordTokens(a) + WordTokens(b)
  {
    if a == [] {
      assert a + b == b;
    } else {
      assert (a + b)[1..] == a[1..] + b;
      TokensConcat(a[1..], b);
    }
  }

  lemma SaysThen(a: string, x: seq<Token>, b: string, y: seq<Token>)
    requires Says(a, x) && Says(b, y)
    ensures Says(a + b, x + y)
  {
    var v :| Regular(v) && Written(v) == a && WordTokens(v) == x;
    var w :| Regular(w) && Written(w) == b && WordTokens(w) == y;
    WrittenConcat(v, w);
    TokensConcat(v, w);
    assert Regular(v + w);
  }

  lemma SaysBoth(a: string, x: seq<Token>, b: string, y: seq<Token>, text: string)
    requires Says(a, x) && Says(b, y) && text == a + b
    ensures Says(text, x + y)
  {
    SaysThen(a, x, b, y);
  }

  // ---- The texts ----

  lemma AndSays()
    ensures Says(" AND ", [Word("AND")])
  {
    Spelt([("", " "), ("AND", " ")], " AND ", [Word("AND")]);
  }

  lemma EqualsSymbol()
    ensures Gap(" = ") && Symbols(" = ") == [Sym('=')]
  {}

  lemma EqualsSays(col: Column)
    requires Worded(col)
    ensures Says(col + " = ", [Word(col)] + SpellOp(Eq))
  {
    var ws := [(col, " = ")];
    EqualsSymbol();
    assert ws[1..] == [] && Written(ws) == col + " = " + "";
    Spelt(ws, col + " = ", [Word(col)] + SpellOp(Eq));
  }

  lemma ColumnTexts()
    ensures "instance_page_id" + " = " == "instance_page_id = " && "run_id" + " = " == "run_id = "
    ensures "label_skill" + " = " == "label_skill = " && "status" + " = " == "status = " && "tenant" + " = " == "tenant = "
  {}

  lemma ColumnWords()
    ensures Worded("instance_page_id") && Worded("run_id") && Worded("label_skill") && Worded("status") && Worded("tenant")
  {}

  lemma CloseSays()
    ensures Says(")", [Sym(')')])
  {
    Spelt([("", ")")], ")", [Sym(')')]);
  }

  lemma RootSays()
    ensures Says("(root_event_id = ", [Sym('('), Word("root_event_id"), Sym('=')])
  {
    Spelt([("", "("), ("root_event_id", " = ")], "(root_event_id = ", [Sym('('), Word("root_event_id"), Sym('=')]);
  }

  lemma OrSays()
    ensures Says(" OR event_id = ", [Word("OR"), Word("event_id"), Sym('=')])
  {
    Spelt([("", " "), ("OR", " "), ("event_id", " = ")], " OR event_id = ", [Word("OR"), Word("event_id"), Sym('=')]);
  }

  lemma CoalesceSays()
    ensures Says("COALESCE(kind, ", [Word("COALESCE"), Sym('('), Word("kind"), Sym(',')])
  {
    Spelt([("COALESCE", "("), ("kind", ", ")], "COALESCE(kind, ", [Word("COALESCE"), Sym('('), Word("kind"), Sym(',')]);
  }

  lemma KindIsSays()
    ensures Says(") = ", [Sym(')')] + SpellOp(Eq))
  {
    Spelt([("", ") = ")], ") = ", [Sym(')'), Sym('=')]);
  }

  lemma KindIsNotSays()
    ensures Says(") <> ", [Sym(')')] + SpellOp(Ne))
  {
    Spelt([("", ") <> ")], ") <> ", [Sym(')'), Sym('<'), Sym('>')]);
  }

  function Past(asc: bool): Op { if asc then Gt else Lt }

  lemma SeqSays(asc: bool)
    ensures Says(if asc then "seq > " else "seq < ", [Word("seq")] + SpellOp(Past(asc)))
  {
    Spelt([("seq", " > ")], "seq > ", [Word("seq"), Sym('>')]);
    Spelt([("seq", " < ")], "seq < ", [Word("seq"), Sym('<')]);
  }

  lemma IdSays(asc: bool)
    ensures Says(if asc then "event_id > " else "event_id < ", [Word("event_id")] + SpellOp(Past(asc)))
  {
    Spelt([("event_id", " > ")], "event_id > ", [Word("event_id"), Sym('>')]);
    Spelt([("event_id", " < ")], "event_id < ", [Word("event_id"), Sym('<')]);
  }

  lemma AtPastSays(asc: bool)
    ensures Says(if asc then "at_ts > " else "at_ts < ", [Word("at_ts")] + SpellOp(Past(asc)))
  {
    Spelt([("at_ts", " > ")], "at_ts > ", [Word("at_ts"), Sym('>')]);
    Spelt([("at_ts", " < ")], "at_ts < ", [Word("at_ts"), Sym('<')]);
  }

  lemma AtIsSays()
    ensures Says("(at_ts IS ", [Sym('('), Word("at_ts"), Word("IS")])
  {
    Spelt([("", "("), ("at_ts", " "), ("IS", " ")], "(at_ts IS ", [Sym('('), Word("at_ts"), Word("IS")]);
  }

  lemma NullAndSays()
    ensures Says("NULL AND ", [Word("NULL"), Word("AND")])
  {
    Spelt([("NULL", " "), ("AND", " ")], "NULL AND ", [Word("NULL"), Word("AND")]);
  }

  lemma IsNullSays()
    ensures Says("(at_ts IS NULL AND ", [Sym('('), Word("at_ts"), Word("IS"), Word("NULL"), Word("AND")])
  {
    AtIsSays();
    NullAndSays();
    SaysThen("(at_ts IS ", [Sym('('), Word("at_ts"), Word("IS")], "NULL AND ", [Word("NULL"), Word("AND")]);
    assert "(at_ts IS " + "NULL AND " == "(at_ts IS NULL AND ";
  }

  function UndatedOpening(asc: bool): string { if asc then "(at_ts IS NULL AND event_id > " else "(at_ts IS NULL AND event_id < " }

  function UndatedTokens(asc: bool): seq<Token> {
    [Sym('('), Word("at_ts"), Word("IS"), Word("NULL"), Word("AND")] + ([Word("event_id")] + SpellOp(Past(asc)))
  }

  lemma UndatedSays(asc: bool)
    ensures Says(UndatedOpening(asc), UndatedTokens(asc))
  {
    IsNullSays();
    IdSays(asc);
    if asc {
      SaysBoth("(at_ts IS NULL AND ", [Sym('('), Word("at_ts"), Word("IS"), Word("NULL"), Word("AND")],
               "event_id > ", [Word("event_id")] + SpellOp(Past(asc)), "(at_ts IS NULL AND event_id > ");
    } else {
      SaysBoth("(at_ts IS NULL AND ", [Sym('('), Word("at_ts"), Word("IS"), Word("NULL"), Word("AND")],
               "event_id < ", [Word("event_id")] + SpellOp(Past(asc)), "(at_ts IS NULL AND event_id < ");
    }
  }

  lemma OpenAtIsSays()
    ensures Says("((at_ts IS ", [Sym('('), Sym('('), Word("at_ts"), Word("IS")])
  {
    Spelt([("", "(("), ("at_ts", " "), ("IS", " ")], "((at_ts IS ", [Sym('('), Sym('('), Word("at_ts"), Word("IS")]);
  }

  lemma NotNullAndSays()
    ensures Says("NOT NULL AND ", [Word("NOT"), Word("NULL"), Word("AND")])
  {
    Spelt([("NOT", " "), ("NULL", " "), ("AND", " ")], "NOT NULL AND ", [Word("NOT"), Word("NULL"), Word("AND")]);
  }

  lemma NotNullSays()
    ensures Says("((at_ts IS NOT NULL AND ", [Sym('('), Sym('('), Word("at_ts"), Word("IS"), Word("NOT"), Word("NULL"), Word("AND")])
  {
    OpenAtIsSays();
    NotNullAndSays();
    SaysThen("((at_ts IS ", [Sym('('), Sym('('), Word("at_ts"), Word("IS")], "NOT NULL AND ", [Word("NOT"), Word("NULL"), Word("AND")]);
    assert "((at_ts IS " + "NOT NULL AND " == "((at_ts IS NOT NULL AND ";
  }

  lemma CastSays()
    ensures Says("CAST(", [Word("CAST"), Sym('(')])
  {
    Spelt([("CAST", "(")], "CAST(", [Word("CAST"), Sym('(')]);
  }

  lemma PastCastSays(asc: bool)
    ensures Says(if asc then "at_ts > CAST(" else "at_ts < CAST(", [Word("at_ts")] + SpellOp(Past(asc)) + [Word("CAST"), Sym('(')])
  {
    AtPastSays(asc);
    CastSays();
    SaysThen(if asc then "at_ts > " else "at_ts < ", [Word("at_ts")] + SpellOp(Past(asc)), "CAST(", [Word("CAST"), Sym('(')]);
    assert "at_ts > " + "CAST(" == "at_ts > CAST(" && "at_ts < " + "CAST(" == "at_ts < CAST(";
  }

  function LaterOpening(asc: bool): string {
    if asc then "((at_ts IS NOT NULL AND at_ts > CAST(" else "((at_ts IS NOT NULL AND at_ts < CAST("
  }

  function LaterTokens(asc: bool): seq<Token> {
    [Sym('('), Sym('('), Word("at_ts"), Word("IS"), Word("NOT"), Word("NULL"), Word("AND")]
    + ([Word("at_ts")] + SpellOp(Past(asc)) + [Word("CAST"), Sym('(')])
  }

  lemma LaterSays(asc: bool)
    ensures Says(LaterOpening(asc), LaterTokens(asc))
  {
    NotNullSays();
    PastCastSays(asc);
    if asc {
      SaysBoth("((at_ts IS NOT NULL AND ", [Sym('('), Sym('('), Word("at_ts"), Word("IS"), Word("NOT"), Word("NULL"), Word("AND")],
               "at_ts > CAST(", [Word("at_ts")] + SpellOp(Past(asc)) + [Word("CAST"), Sym('(')], "((at_ts IS NOT NULL AND at_ts > CAST(");
    } else {
      SaysBoth("((at_ts IS NOT NULL AND ", [Sym('('), Sym('('), Word("at_ts"), Word("IS"), Word("NOT"), Word("NULL"), Word("AND")],
               "at_ts < CAST(", [Word("at_ts")] + SpellOp(Past(asc)) + [Word("CAST"), Sym('(')], "((at_ts IS NOT NULL AND at_ts < CAST(");
    }
  }

  lemma AsSays()
    ensures Says(" AS ", [Word("AS")])
  {
    Spelt([("", " "), ("AS", " ")], " AS ", [Word("AS")]);
  }

  lemma StampOrSays()
    ensures Says("timestamp)) OR ", [Word("timestamp"), Sym(')'), Sym(')'), Word("OR")])
  {
    Spelt([("timestamp", ")) "), ("OR", " ")], "timestamp)) OR ", [Word("timestamp"), Sym(')'), Sym(')'), Word("OR")]);
  }

  lemma CastOrSays()
    ensures Says(" AS timestamp)) OR ", [Word("AS"), Word("timestamp"), Sym(')'), Sym(')'), Word("OR")])
  {
    AsSays();
    StampOrSays();
    SaysThen(" AS ", [Word("AS")], "timestamp)) OR ", [Word("timestamp"), Sym(')'), Sym(')'), Word("OR")]);
    assert " AS " + "timestamp)) OR " == " AS timestamp)) OR ";
  }

  lemma AtCastSays()
    ensures Says("(at_ts = CAST(", [Sym('('), Word("at_ts"), Sym('='), Word("CAST"), Sym('(')])
  {
    Spelt([("", "("), ("at_ts", " = "), ("CAST", "(")], "(at_ts = CAST(", [Sym('('), Word("at_ts"), Sym('='), Word("CAST"), Sym('(')]);
  }

  function SameTokens(): seq<Token> {
    [Word("AS"), Word("timestamp"), Sym(')'), Sym(')'), Word("OR")] + [Sym('('), Word("at_ts"), Sym('='), Word("CAST"), Sym('(')]
  }

  lemma SameSays()
    ensures Says(" AS timestamp)) OR (at_ts = CAST(", SameTokens())
  {
    CastOrSays();
    AtCastSays();
    SaysThen(" AS timestamp)) OR ", [Word("AS"), Word("timestamp"), Sym(')'), Sym(')'), Word("OR")],
             "(at_ts = CAST(", [Sym('('), Word("at_ts"), Sym('='), Word("CAST"), Sym('(')]);
    assert " AS timestamp)) OR " + "(at_ts = CAST(" == " AS timestamp)) OR (at_ts = CAST(";
  }

  lemma StampAndSays()
    ensures Says("timestamp) AND ", [Word("timestamp"), Sym(')'), Word("AND")])
  {
    Spelt([("timestamp", ") "), ("AND", " ")], "timestamp) AND ", [Word("timestamp"), Sym(')'), Word("AND")]);
  }

  lemma CastAndSays()
    ensures Says(" AS timestamp) AND ", [Word("AS"), Word("timestamp"), Sym(')'), Word("AND")])
  {
    AsSays();
    StampAndSays();
    SaysThen(" AS ", [Word("AS")], "timestamp) AND ", [Word("timestamp"), Sym(')'), Word("AND")]);
    assert " AS " + "timestamp) AND " == " AS timestamp) AND ";
  }

  function TieMiddle(asc: bool): string { if asc then " AS timestamp) AND event_id > " else " AS timestamp) AND event_id < " }

  function TieTokens(asc: bool): seq<Token> {
    [Word("AS"), Word("timestamp"), Sym(')'), Word("AND")] + ([Word("event_id")] + SpellOp(Past(asc)))
  }

  lemma TieSays(asc: bool)
    ensures Says(TieMiddle(asc), TieTokens(asc))
  {
    CastAndSays();
    IdSays(asc);
    if asc {
      SaysBoth(" AS timestamp) AND ", [Word("AS"), Word("timestamp"), Sym(')'), Word("AND")],
               "event_id > ", [Word("event_id")] + SpellOp(Past(asc)), " AS timestamp) AND event_id > ");
    } else {
      SaysBoth(" AS timestamp) AND ", [Word("AS"), Word("timestamp"), Sym(')'), Word("AND")],
               "event_id < ", [Word("event_id")] + SpellOp(Past(asc)), " AS timestamp) AND event_id < ");
    }
  }

  lemma OrRestSays()
    ensures Says(") OR ", [Sym(')'), Word("OR")])
  {
    Spelt([("", ") "), ("OR", " ")], ") OR ", [Sym(')'), Word("OR")]);
  }

  lemma NullRestSays()
    ensures Says("at_ts IS NULL)", [Word("at_ts"), Word("IS"), Word("NULL"), Sym(')')])
  {
    Spelt([("at_ts", " "), ("IS", " "), ("NULL", ")")], "at_ts IS NULL)", [Word("at_ts"), Word("IS"), Word("NULL"), Sym(')')]);
  }

  function RestTokens(): seq<Token> { [Sym(')'), Word("OR")] + [Word("at_ts"), Word("IS"), Word("NULL"), Sym(')')] }

  lemma RestSays()
    ensures Says(") OR at_ts IS NULL)", RestTokens())
  {
    OrRestSays();
    NullRestSays();
    SaysThen(") OR ", [Sym(')'), Word("OR")], "at_ts IS NULL)", [Word("at_ts"), Word("IS"), Word("NULL"), Sym(')')]);
    assert ") OR " + "at_ts IS NULL)" == ") OR at_ts IS NULL)";
  }
}

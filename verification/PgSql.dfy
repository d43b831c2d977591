/**
 What the conditions of a listing mean to Postgres: their grammar over the tokens of `PgNative.Lex`, and
 their value at a row, in the three-valued logic of SQL.

 Keywords and column names are read as the statements spell them. `AND` and `OR` are read as associating to
 the right, which the logic does not tell from the left. A text that spells no timestamp casts to NULL, as
 `TRY_CAST` has it; the statements are sent to Postgres only when the text does.
 */
module PgSql {

  import opened Wrappers
  import opened PgNative
  import Decimal
  import Strings = Text

  // ---- Rows ----

  datatype Value = Null | Chars(s: string) | Number(n: int) | Stamp(t: int)

  /** The columns; a name that is none of them is read as NULL. */
  type Row = map<string, Value>

  // ---- Conditions ----

  /** Keywords are in capitals, columns are not. */
  predicate IsColumn(w: string) { w != "" && 'a' <= w[0] <= 'z' }

  type Column = w: string | IsColumn(w) witness "seq"

  datatype Term = Col(name: Column) | Lit(bind: Bind) | Coalesce(a: Term, b: Term) | Cast(a: Term)

  datatype Op = Eq | Ne | Lt | Gt

  datatype Prim = True | Cmp(l: Term, op: Op, r: Term) | IsNull(t: Term) | NotNull(t: Term) | Group(d: Disj)

  datatype Conj = All(p: Prim) | And(p: Prim, rest: Conj)

  datatype Disj = Any(c: Conj) | Or(c: Conj, rest: Disj)

  // ---- Spelling ----

  function SpellTerm(t: Term): (ts: seq<Token>)
    ensures ts != []
  {
    match t
    case Col(name) => [Word(name)]
    case Lit(b) => BindTokens(b)
    case Coalesce(a, b) => [Word("COALESCE"), Sym('(')] + (SpellTerm(a) + ([Sym(',')] + (SpellTerm(b) + [Sym(')')])))
    case Cast(a) => [Word("CAST"), Sym('(')] + (SpellTerm(a) + [Word("AS"), Word("timestamp"), Sym(')')])
  }

  function SpellOp(op: Op): seq<Token> {
    match op case Eq => [Sym('=')] case Ne => [Sym('<'), Sym('>')] case Lt => [Sym('<')] case Gt => [Sym('>')]
  }

  function SpellPrim(p: Prim): seq<Token> {
    match p
    case True => [Word("TRUE")]
    case Cmp(l, op, r) => SpellTerm(l) + (SpellOp(op) + SpellTerm(r))
    case IsNull(t) => SpellTerm(t) + [Word("IS"), Word("NULL")]
    case NotNull(t) => SpellTerm(t) + [Word("IS"), Word("NOT"), Word("NULL")]
    case Group(d) => [Sym('(')] + (SpellDisj(d) + [Sym(')')])
  }

  function SpellConj(c: Conj): seq<Token> {
    match c case All(p) => SpellPrim(p) case And(p, rest) => SpellPrim(p) + ([Word("AND")] + SpellConj(rest))
  }

  function SpellDisj(d: Disj): seq<Token> {
    match d case Any(c) => SpellConj(c) case Or(c, rest) => SpellConj(c) + ([Word("OR")] + SpellDisj(rest))
  }

  // ---- Parsing ----

  /** What follows `want` at the head of `ts`. */
  function Expect(ts: seq<Token>, want: seq<Token>): (r: Option<seq<Token>>)
    ensures r.Some? ==> |r.value| == |ts| - |want|
  {
    if want <= ts then Some(ts[|want|..]) else None
  }

  function ParseTerm(ts: seq<Token>): (r: Option<(Term, seq<Token>)>)
    ensures r.Some? ==> |r.value.1| < |ts|
    decreases |ts|
  {
    if ts == [] then None
    else match ts[0]
      case Str(s) => Some((Lit(Bind.Text(s)), ts[1..]))
      case Word(w) =>
        if w == "COALESCE" then ParseCoalesce(ts[1..])
        else if w == "CAST" then ParseCast(ts[1..])
        else if IsColumn(w) then Some((Col(w), ts[1..]))
        else (match Decimal.ParseNat(w) case None => None case Some(n) => Some((Lit(Int(n)), ts[1..])))
      case Sym(c) =>
        if c != '-' || |ts| == 1 || !ts[1].Word? then None
        else (match Decimal.ParseNat(ts[1].w) case None => None case Some(n) => Some((Lit(Int(0 - n)), ts[2..])))
      case Comment => None
  }

  function ParseCoalesce(ts: seq<Token>): (r: Option<(Term, seq<Token>)>)
    ensures r.Some? ==> |r.value.1| < |ts|
    decreases |ts|
  {
    match Expect(ts, [Sym('(')])
    case None => None
    case Some(ts) =>
      match ParseTerm(ts)
      case None => None
      case Some((a, ts)) =>
        match Expect(ts, [Sym(',')])
        case None => None
        case Some(ts) =>
          match ParseTerm(ts)
          case None => None
          case Some((b, ts)) =>
            match Expect(ts, [Sym(')')]) case None => None case Some(ts) => Some((Coalesce(a, b), ts))
  }

  function ParseCast(ts: seq<Token>): (r: Option<(Term, seq<Token>)>)
    ensures r.Some? ==> |r.value.1| < |ts|
    decreases |ts|
  {
    match Expect(ts, [Sym('(')])
    case None => None
    case Some(ts) =>
      match ParseTerm(ts)
      case None => None
      case Some((a, ts)) =>
        match Expect(ts, [Word("AS"), Word("timestamp"), Sym(')')]) case None => None case Some(ts) => Some((Cast(a), ts))
  }

  function ParseOp(ts: seq<Token>): (r: Option<(Op, seq<Token>)>)
    ensures r.Some? ==> |r.value.1| < |ts|
  {
    if [Sym('=')] <= ts then Some((Eq, ts[1..]))
    else if [Sym('<'), Sym('>')] <= ts then Some((Ne, ts[2..]))
    else if [Sym('<')] <= ts then Some((Lt, ts[1..]))
    else if [Sym('>')] <= ts then Some((Gt, ts[1..]))
    else None
  }

  /** What may come after a term: a comparison, or a test for NULL. */
  function ParseTest(l: Term, ts: seq<Token>): (r: Option<(Prim, seq<Token>)>)
    ensures r.Some? ==> |r.value.1| < |ts|
  {
    if [Word("IS"), Word("NULL")] <= ts then Some((IsNull(l), ts[2..]))
    else if [Word("IS"), Word("NOT"), Word("NULL")] <= ts then Some((NotNull(l), ts[3..]))
    else match ParseOp(ts)
      case None => None
      case Some((op, ts)) => match ParseTerm(ts) case None => None case Some((r, ts)) => Some((Cmp(l, op, r), ts))
  }

  function ParsePrim(ts: seq<Token>): (r: Option<(Prim, seq<Token>)>)
    ensures r.Some? ==> |r.value.1| < |ts|
    decreases |ts|, 0
  {
    if [Word("TRUE")] <= ts then Some((True, ts[1..]))
    else if [Sym('(')] <= ts then
      match ParseDisj(ts[1..])
      case None => None
      case Some((d, ts)) => match Expect(ts, [Sym(')')]) case None => None case Some(ts) => Some((Group(d), ts))
    else match ParseTerm(ts) case None => None case Some((t, ts)) => ParseTest(t, ts)
  }

  function ParseConj(ts: seq<Token>): (r: Option<(Conj, seq<Token>)>)
    ensures r.Some? ==> |r.value.1| < |ts|
    decreases |ts|, 1
  {
    match ParsePrim(ts)
    case None => None
    case Some((p, ts)) =>
      if [Word("AND")] <= ts then
        match ParseConj(ts[1..]) case None => None case Some((rest, ts)) => Some((And(p, rest), ts))
      else Some((All(p), ts))
  }

  function ParseDisj(ts: seq<Token>): (r: Option<(Disj, seq<Token>)>)
    ensures r.Some? ==> |r.value.1| < |ts|
    decreases |ts|, 2
  {
    match ParseConj(ts)
    case None => None
    case Some((c, ts)) =>
      if [Word("OR")] <= ts then
        match ParseDisj(ts[1..]) case None => None case Some((rest, ts)) => Some((Or(c, rest), ts))
      else Some((Any(c), ts))
  }

  /** The tokens without the spaces between them. */
  function Solid(ts: seq<Token>): seq<Token> {
    if ts == [] then [] else (if ts[0] == Sym(' ') then [] else [ts[0]]) + Solid(ts[1..])
  }

  /** The condition a text spells, all of it. */
  function Parse(sql: string): Option<Disj> {
    match Lex(sql)
    case None => None
    case Some(ts) => match ParseDisj(Solid(ts)) case None => None case Some((d, rest)) => if rest == [] then Some(d) else None
  }

  // ---- Parsing undoes spelling ----

  lemma KeywordsApart(w: string)
    requires IsColumn(w)
    ensures w != "COALESCE" && w != "CAST" && w != "TRUE"
  {}

  lemma NumeralsApart(w: string)
    requires w != "" && forall c :: c in w ==> '0' <= c <= '9'
    ensures !IsColumn(w) && w != "COALESCE" && w != "CAST" && w != "TRUE"
  {
    assert w[0] in w;
  }

  lemma LitParses(b: Bind, rest: seq<Token>)
    ensures ParseTerm(BindTokens(b) + rest) == Some((Lit(b), rest))
  {
    var ts := BindTokens(b) + rest;
    match b
    case Text(s) => assert ts[1..] == rest;
    case Int(n) =>
      var w := Decimal.ShowNat(if n < 0 then -n else n);
      NumeralsApart(w);
      Decimal.ParseShowNat(if n < 0 then -n else n);
      if n < 0 {
        assert ts[2..] == rest;
      } else {
        assert ts[1..] == rest;
      }
  }

  lemma ExpectThat(want: seq<Token>, rest: seq<Token>)
    ensures Expect(want + rest, want) == Some(rest)
  {}

  lemma {:induction false} TermParses(t: Term, rest: seq<Token>)
    ensures ParseTerm(SpellTerm(t) + rest) == Some((t, rest))
    decreases t
  {
    match t
    case Col(name) =>
      KeywordsApart(name);
      assert ([Word(name)] + rest)[1..] == rest;
    case Lit(b) => LitParses(b, rest);
    case Coalesce(a, b) => CoalesceParses(a, b, rest);
    case Cast(a) => CastParses(a, rest);
  }

  lemma CoalesceOf(a: Term, r1: seq<Token>, r2: seq<Token>, b: Term, r3: seq<Token>, r4: seq<Token>, rest: seq<Token>)
    requires ParseTerm(r1) == Some((a, r2)) && r2 == [Sym(',')] + r3 && ParseTerm(r3) == Some((b, r4)) && r4 == [Sym(')')] + rest
    ensures ParseCoalesce([Sym('(')] + r1) == Some((Coalesce(a, b), rest))
  {
    ExpectThat([Sym('(')], r1);
    ExpectThat([Sym(',')], r3);
    ExpectThat([Sym(')')], rest);
  }

  lemma CoalesceText(a: seq<Token>, b: seq<Token>, rest: seq<Token>)
    ensures [Word("COALESCE"), Sym('(')] + (a + ([Sym(',')] + (b + [Sym(')')]))) + rest
         == [Word("COALESCE")] + ([Sym('(')] + (a + ([Sym(',')] + (b + ([Sym(')')] + rest)))))
  {}

  lemma CoalesceFirst(r0: seq<Token>)
    ensures ParseTerm([Word("COALESCE")] + r0) == ParseCoalesce(r0)
  {
    assert ([Word("COALESCE")] + r0)[1..] == r0;
  }

  lemma CoalesceParses(a: Term, b: Term, rest: seq<Token>)
    ensures ParseTerm(SpellTerm(Coalesce(a, b)) + rest) == Some((Coalesce(a, b), rest))
    decreases Coalesce(a, b), 0
  {
    var r4 := [Sym(')')] + rest;
    var r3 := SpellTerm(b) + r4;
    var r2 := [Sym(',')] + r3;
    var r1 := SpellTerm(a) + r2;
    TermParses(a, r2);
    TermParses(b, r4);
    CoalesceOf(a, r1, r2, b, r3, r4, rest);
    CoalesceFirst([Sym('(')] + r1);
    CoalesceText(SpellTerm(a), SpellTerm(b), rest);
  }

  lemma CastParses(a: Term, rest: seq<Token>)
    ensures ParseTerm(SpellTerm(Cast(a)) + rest) == Some((Cast(a), rest))
    decreases Cast(a), 0
  {
    var close := [Word("AS"), Word("timestamp"), Sym(')')];
    var r2 := close + rest;
    var r1 := SpellTerm(a) + r2;
    var r0 := [Sym('(')] + r1;
    assert SpellTerm(Cast(a)) + rest == [Word("CAST")] + r0;
    assert ([Word("CAST")] + r0)[1..] == r0;
    TermParses(a, r2);
    ExpectThat([Sym('(')], r1);
    ExpectThat(close, rest);
  }

  /** A term begins with neither a parenthesis, `TRUE` nor `>`. */
  lemma TermHead(t: Term)
    ensures SpellTerm(t)[0] != Sym('(') && SpellTerm(t)[0] != Word("TRUE") && SpellTerm(t)[0] != Sym('>')
  {
    if t.Col? {
      KeywordsApart(t.name);
    } else if t.Lit? && t.bind.Int? {
      NumeralsApart(Decimal.ShowNat(if t.bind.n < 0 then -t.bind.n else t.bind.n));
    }
  }

  lemma OpParses(op: Op, rest: seq<Token>)
    requires rest == [] || rest[0] != Sym('>')
    ensures ParseOp(SpellOp(op) + rest) == Some((op, rest))
    ensures (SpellOp(op) + rest)[0] != Word("IS")
  {
    var ts := SpellOp(op) + rest;
    assert ts[|SpellOp(op)|..] == rest && ts[0] == SpellOp(op)[0];
    match op
    case Eq =>
    case Ne => assert ts[1] == Sym('>');
    case Lt => assert rest != [] ==> ts[1] == rest[0];
    case Gt =>
  }

  lemma TestParses(l: Term, op: Op, r: Term, rest: seq<Token>)
    ensures ParseTest(l, SpellOp(op) + (SpellTerm(r) + rest)) == Some((Cmp(l, op, r), rest))
  {
    TermHead(r);
    assert (SpellTerm(r) + rest)[0] == SpellTerm(r)[0];
    OpParses(op, SpellTerm(r) + rest);
    TermParses(r, rest);
  }

  lemma NullParses(l: Term, rest: seq<Token>)
    ensures ParseTest(l, [Word("IS"), Word("NULL")] + rest) == Some((IsNull(l), rest))
    ensures ParseTest(l, [Word("IS"), Word("NOT"), Word("NULL")] + rest) == Some((NotNull(l), rest))
  {
    var ts := [Word("IS"), Word("NOT"), Word("NULL")] + rest;
    assert ts[1] == Word("NOT") && "NOT"[2] != "NULL"[2] && ts[3..] == rest;
    assert ([Word("IS"), Word("NULL")] + rest)[2..] == rest;
  }

  lemma TermFirst(t: Term, more: seq<Token>)
    ensures ParsePrim(SpellTerm(t) + more) == ParseTest(t, more)
  {
    TermHead(t);
    TermParses(t, more);
    assert (SpellTerm(t) + more)[0] == SpellTerm(t)[0];
  }

  lemma {:induction false} PrimParses(p: Prim, rest: seq<Token>)
    ensures ParsePrim(SpellPrim(p) + rest) == Some((p, rest))
    decreases p
  {
    match p
    case True => assert ([Word("TRUE")] + rest)[1..] == rest;
    case Cmp(l, op, r) =>
      assert SpellPrim(p) + rest == SpellTerm(l) + (SpellOp(op) + (SpellTerm(r) + rest));
      TermFirst(l, SpellOp(op) + (SpellTerm(r) + rest));
      TestParses(l, op, r, rest);
    case IsNull(t) =>
      assert SpellPrim(p) + rest == SpellTerm(t) + ([Word("IS"), Word("NULL")] + rest);
      TermFirst(t, [Word("IS"), Word("NULL")] + rest);
      NullParses(t, rest);
    case NotNull(t) =>
      assert SpellPrim(p) + rest == SpellTerm(t) + ([Word("IS"), Word("NOT"), Word("NULL")] + rest);
      TermFirst(t, [Word("IS"), Word("NOT"), Word("NULL")] + rest);
      NullParses(t, rest);
    case Group(d) =>
      var r1 := SpellDisj(d) + ([Sym(')')] + rest);
      assert SpellPrim(p) + rest == [Sym('(')] + r1;
      assert ([Sym('(')] + r1)[1..] == r1 && ([Sym('(')] + r1)[0] != Word("TRUE");
      DisjParses(d, [Sym(')')] + rest);
      ExpectThat([Sym(')')], rest);
  }

  lemma {:induction false} ConjParses(c: Conj, rest: seq<Token>)
    requires rest != [] ==> rest[0] != Word("AND")
    ensures ParseConj(SpellConj(c) + rest) == Some((c, rest))
    decreases c
  {
    match c
    case All(p) => PrimParses(p, rest);
    case And(p, more) =>
      var r1 := [Word("AND")] + (SpellConj(more) + rest);
      assert SpellConj(c) + rest == SpellPrim(p) + r1;
      assert r1[1..] == SpellConj(more) + rest;
      PrimParses(p, r1);
      ConjParses(more, rest);
  }

  lemma {:induction false} DisjParses(d: Disj, rest: seq<Token>)
    requires rest != [] ==> rest[0] != Word("AND") && rest[0] != Word("OR")
    ensures ParseDisj(SpellDisj(d) + rest) == Some((d, rest))
    decreases d
  {
    match d
    case Any(c) => ConjParses(c, rest);
    case Or(c, more) =>
      var r1 := [Word("OR")] + (SpellDisj(more) + rest);
      assert SpellDisj(d) + rest == SpellConj(c) + r1;
      assert r1[1..] == SpellDisj(more) + rest;
      assert r1[0] == Word("OR") && "OR"[0] != "AND"[0];
      ConjParses(c, r1);
      DisjParses(more, rest);
  }

  // ---- Values ----

  datatype Truth = Yes | No | Unknown

  function Of(b: bool): Truth { if b then Yes else No }

  function Both(a: Truth, b: Truth): Truth {
    if a == No || b == No then No else if a == Yes && b == Yes then Yes else Unknown
  }

  function Either(a: Truth, b: Truth): Truth {
    if a == Yes || b == Yes then Yes else if a == No && b == No then No else Unknown
  }

  function TermValue(t: Term, row: Row): Value {
    match t
    case Col(name) => if name in row then row[name] else Null
    case Lit(Text(s)) => Chars(s)
    case Lit(Int(n)) => Number(n)
    case Coalesce(a, b) => if TermValue(a, row) == Null then TermValue(b, row) else TermValue(a, row)
    case Cast(a) =>
      var v := TermValue(a, row);
      if v.Chars? && Decimal.Parse(v.s).Some? then Stamp(Decimal.Parse(v.s).value) else if v.Stamp? then v else Null
  }

  predicate Less(a: Value, b: Value) {
    || (a.Chars? && b.Chars? && Strings.LexLess(a.s, b.s))
    || (a.Number? && b.Number? && a.n < b.n)
    || (a.Stamp? && b.Stamp? && a.t < b.t)
  }

  predicate Comparable(a: Value, b: Value) {
    (a.Chars? && b.Chars?) || (a.Number? && b.Number?) || (a.Stamp? && b.Stamp?)
  }

  function Compare(a: Value, op: Op, b: Value): Truth {
    if !Comparable(a, b) then Unknown
    else match op
      case Eq => Of(a == b)
      case Ne => Of(a != b)
      case Lt => Of(Less(a, b))
      case Gt => Of(Less(b, a))
  }

  function PrimTruth(p: Prim, row: Row): Truth {
    match p
    case True => Yes
    case Cmp(l, op, r) => Compare(TermValue(l, row), op, TermValue(r, row))
    case IsNull(t) => Of(TermValue(t, row) == Null)
    case NotNull(t) => Of(TermValue(t, row) != Null)
    case Group(d) => DisjTruth(d, row)
  }

  function ConjTruth(c: Conj, row: Row): Truth {
    match c case All(p) => PrimTruth(p, row) case And(p, rest) => Both(PrimTruth(p, row), ConjTruth(rest, row))
  }

  function DisjTruth(d: Disj, row: Row): Truth {
    match d case Any(c) => ConjTruth(c, row) case Or(c, rest) => Either(ConjTruth(c, row), DisjTruth(rest, row))
  }

  /** A `WHERE` keeps the rows its condition is true of: not false, not unknown. */
  predicate Keeps(sql: string, row: Row) { Parse(sql).Some? && DisjTruth(Parse(sql).value, row) == Yes }
}

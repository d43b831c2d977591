/**
 The listing statement under scanners other than `PgNative.Lex` (which reads one-character symbols and ASCII
 words): whatever operators, numbers, identifiers, quotes and comments a scanner knows, if it starts afresh
 at a parenthesis and at a single space, the statement reads as its pieces with the bound values between them.
 */
module PgScanner {

  import opened Wrappers
  import opened PgNative
  import opened PgListing
  import Decimal
  import EventPaging

  /**
   `tokens` of a text that ends outside every quote and comment, `None` otherwise; `meaning` is what a bound
   value stands for.
   */
  datatype Scanner<!T> = Scanner(tokens: string -> Option<seq<T>>, meaning: Bind -> seq<T>)

  function Then<T>(a: Option<seq<T>>, b: Option<seq<T>>): Option<seq<T>> {
    if a.None? || b.None? then None else Some(a.value + b.value)
  }

  /** White space before a constant could join it to an earlier one across a line end, and so could a comment. */
  predicate Starts(b: string) { b == "" || (!White(b[0]) && !OpensComment(b)) }

  predicate Ends(a: string) { a == "" || !White(a[|a| - 1]) }

  predicate Breaks(a: string, c: char, b: string) { c == '(' || c == ')' || (c == ' ' && Ends(a) && Starts(b)) }

  /**
   It starts afresh at a break, a text of quiet characters leaves no quote or comment open, and a literal on its
   own reads as its value.
   */
  ghost predicate Lawful<T>(k: Scanner<T>) {
    && k.tokens("") == Some([])
    && (forall a, c, b :: Breaks(a, c, b) && k.tokens(a).Some? ==>
          k.tokens(a + [c] + b) == Then(k.tokens(a), Then(k.tokens([c]), k.tokens(b))))
    && (forall s :: Quiet(s) ==> k.tokens(s).Some?)
    && (forall v :: Literal(v).Some? ==> k.tokens(Literal(v).value) == Some(k.meaning(v)))
  }

  // ---- The pieces ----

  /** What a piece is in the rendered statement. */
  function Piece(p: Part, binds: seq<Bind>): Option<string> {
    match p
    case Plain(t) => Some(t)
    case Constant(t) => Literal(Bind.Text(t))
    case Param => if binds == [] then None else Literal(binds[0])
  }

  function Left(p: Part, binds: seq<Bind>): seq<Bind> { if p.Param? && binds != [] then binds[1..] else binds }

  /** The pieces read one by one, values in the place of parameters. */
  function Reads<T>(k: Scanner<T>, parts: seq<Part>, binds: seq<Bind>): Option<seq<T>> {
    if parts == [] then Some([])
    else
      var first := match parts[0]
                   case Plain(t) => k.tokens(t)
                   case Constant(t) => Some(k.meaning(Bind.Text(t)))
                   case Param => if binds == [] then None else Some(k.meaning(binds[0]));
      Then(first, Reads(k, parts[1..], Left(parts[0], binds)))
  }

  lemma ConstantLiteral(t: string)
    requires Quiet(t)
    ensures Literal(Bind.Text(t)) == Some("'" + t + "'")
  {
    QuietPlain(t);
    DoubledPlain(t);
  }

  lemma RenderPiece(parts: seq<Part>, binds: seq<Bind>)
    requires parts != [] && Spaced(parts) && Render(Flat(parts), binds).Some?
    ensures
      var rest := Render(Flat(parts[1..]), Left(parts[0], binds));
      && rest.Some? && Piece(parts[0], binds).Some?
      && Render(Flat(parts), binds).value == Piece(parts[0], binds).value + rest.value
  {
    var rest := Flat(parts[1..]);
    match parts[0]
    case Plain(t) =>
      QuietPlain(t);
      RenderPlain(t, rest, binds);
    case Constant(t) =>
      QuietPlain(t);
      ConstantLiteral(t);
      RenderPlain("'" + t + "'", rest, binds);
    case Param =>
      assert ("?" + rest)[1..] == rest;
  }

  lemma LiteralEnds(v: Bind)
    requires Literal(v).Some?
    ensures
      var l := Literal(v).value;
      l != "" && !White(l[0]) && !White(l[|l| - 1]) && (l[0] == '-' ==> |l| >= 2 && l[1] != '-')
  {
    if v.Int? {
      var w := Decimal.ShowNat(if v.n < 0 then -v.n else v.n);
      assert w[0] in w && w[|w| - 1] in w;
    }
  }

  lemma PlainEnds(t: string)
    requires PlainText(t)
    ensures t[0] != '-' && (White(t[0]) <==> t[0] == ' ') && (White(t[|t| - 1]) <==> t[|t| - 1] == ' ')
    ensures |t| >= 2 ==> t[1] != '-' && (White(t[1]) <==> t[1] == ' ') && (White(t[|t| - 2]) <==> t[|t| - 2] == ' ')
  {
    assert t[0] in t && t[|t| - 1] in t;
    if |t| >= 2 {
      assert t[1] in t && t[|t| - 2] in t;
    }
  }

  /** A piece followed by anything starts as the piece does. */
  lemma PieceStarts(p: Part, binds: seq<Bind>, rest: string)
    requires Proper(p) && Piece(p, binds).Some? && StartsWell(p)
    ensures Starts(Piece(p, binds).value + rest)
  {
    var x := Piece(p, binds).value;
    if p.Plain? {
      PlainEnds(x);
    } else {
      LiteralEnds(if p.Param? then binds[0] else Bind.Text(p.text));
    }
    assert (x + rest)[0] == x[0] && (|x| >= 2 ==> (x + rest)[1] == x[1]);
  }

  lemma PieceEnds(p: Part, binds: seq<Bind>)
    requires Proper(p) && Piece(p, binds).Some? && EndsWell(p)
    ensures Ends(Piece(p, binds).value)
  {
    if p.Plain? {
      PlainEnds(p.text);
    } else {
      LiteralEnds(if p.Param? then binds[0] else Bind.Text(p.text));
    }
  }

  lemma ThenNothing<T>(a: Option<seq<T>>, b: Option<seq<T>>, c: Option<seq<T>>)
    ensures Then(a, Some([])) == a && Then(Some([]), a) == a && Then(a, Then(b, c)) == Then(Then(a, b), c)
  {
    if a.Some? {
      assert a.value + [] == a.value && [] + a.value == a.value;
      if b.Some? && c.Some? {
        assert a.value + (b.value + c.value) == a.value + b.value + c.value;
      }
    }
  }

  lemma AtBreak<T>(k: Scanner<T>, a: string, c: char, b: string)
    requires Lawful(k) && k.tokens(a).Some? && Breaks(a, c, b)
    ensures k.tokens(a + [c] + b) == Then(k.tokens(a), Then(k.tokens([c]), k.tokens(b)))
    ensures k.tokens("") == Some([])
  {}

  /** Cut after the break. */
  lemma CutAfter<T>(k: Scanner<T>, a: string, c: char, y: string)
    requires Lawful(k) && k.tokens(a).Some? && Breaks(a, c, y)
    ensures k.tokens(a + [c] + y) == Then(k.tokens(a + [c]), k.tokens(y))
  {
    AtBreak(k, a, c, y);
    AtBreak(k, a, c, "");
    assert a + [c] + "" == a + [c];
    ThenNothing(k.tokens([c]), Some([]), Some([]));
    ThenNothing(k.tokens(a), k.tokens([c]), k.tokens(y));
  }

  lemma Regroup(x: string, c: char, b: string)
    ensures "" + [c] + b == [c] + b && x + [c] + b == x + ([c] + b)
  {}

  /** Cut before the break. */
  lemma CutBefore<T>(k: Scanner<T>, x: string, c: char, b: string)
    requires Lawful(k) && k.tokens(x).Some? && Breaks(x, c, b)
    ensures k.tokens(x + ([c] + b)) == Then(k.tokens(x), k.tokens([c] + b))
  {
    AtBreak(k, x, c, b);
    AtBreak(k, "", c, b);
    Regroup(x, c, b);
    ThenNothing(Then(k.tokens([c]), k.tokens(b)), Some([]), Some([]));
  }

  lemma MeetAfter<T>(k: Scanner<T>, t: string, y: string)
    requires Lawful(k) && PlainText(t) && EndsBreak(t) && (t[|t| - 1] == '(' || Starts(y))
    ensures k.tokens(t + y) == Then(k.tokens(t), k.tokens(y))
  {
    var a, c := FrontOf(t);
    QuietScans(k, a);
    CutAfter(k, a, c, y);
  }

  lemma FrontOf(t: string) returns (a: string, c: char)
    requires PlainText(t) && EndsBreak(t)
    ensures t == a + [c] && Quiet(a) && c == t[|t| - 1] && (c == '(' || (c == ' ' && Ends(a)))
  {
    a, c := t[..|t| - 1], t[|t| - 1];
    PlainEnds(t);
  }

  lemma QuietScans<T>(k: Scanner<T>, a: string)
    requires Lawful(k) && Quiet(a)
    ensures k.tokens(a).Some?
  {}

  lemma MeetBefore<T>(k: Scanner<T>, x: string, t: string, rest: string)
    requires Lawful(k) && k.tokens(x).Some? && PlainText(t) && StartsBreak(t) && (t[0] == ')' || Ends(x))
    ensures k.tokens(x + (t + rest)) == Then(k.tokens(x), k.tokens(t + rest))
  {
    PlainEnds(t);
    var b := t[1..] + rest;
    assert t + rest == [t[0]] + b;
    assert |t| >= 2 ==> b[0] == t[1];
    CutBefore(k, x, t[0], b);
  }

  /** Where two pieces meet, the scanner starts afresh. */
  lemma PiecesMeet<T>(k: Scanner<T>, p: Part, q: Part, binds: seq<Bind>, later: seq<Bind>, rest: string)
    requires Lawful(k) && Proper(p) && Proper(q) && Joint(p, q)
    requires Piece(p, binds).Some? && Piece(q, later).Some? && k.tokens(Piece(p, binds).value).Some?
    ensures
      var (x, y) := (Piece(p, binds).value, Piece(q, later).value + rest);
      k.tokens(x + y) == Then(k.tokens(x), k.tokens(y))
  {
    if p.Plain? && EndsBreak(p.text) && (p.text[|p.text| - 1] == '(' || StartsWell(q)) {
      if StartsWell(q) {
        PieceStarts(q, later, rest);
      }
      MeetAfter(k, p.text, Piece(q, later).value + rest);
    } else {
      if EndsWell(p) {
        PieceEnds(p, binds);
      }
      MeetBefore(k, Piece(p, binds).value, q.text, rest);
    }
  }

  /** A statement whose pieces stand apart reads, once rendered, as its pieces with the values between them. */
  lemma {:induction false} PiecesRead<T>(k: Scanner<T>, parts: seq<Part>, binds: seq<Bind>)
    requires Lawful(k) && Spaced(parts) && Render(Flat(parts), binds).Some?
    ensures Reads(k, parts, binds).Some?
    ensures k.tokens(Render(Flat(parts), binds).value) == Reads(k, parts, binds)
    decreases |parts|
  {
    if parts == [] {
      assert Flat(parts) == "";
    } else {
      var p, later := parts[0], Left(parts[0], binds);
      RenderPiece(parts, binds);
      PiecesRead(k, parts[1..], later);
      var x := Piece(p, binds).value;
      if p.Constant? {
        ConstantLiteral(p.text);
      }
      assert k.tokens(x).Some?;
      if |parts| == 1 {
        assert Render("", later) == Some("") && x + "" == x;
        ThenNothing(k.tokens(x), Some([]), Some([]));
      } else {
        RenderPiece(parts[1..], later);
        PiecesMeet(k, p, parts[1], binds, later, Render(Flat(parts[1..][1..]), Left(parts[1], later)).value);
      }
    }
  }

  /** The `WHERE` of every listing, under every such scanner. */
  lemma ListingReads<T>(k: Scanner<T>, f: EventPaging.Filtering, tenant: string, asc: bool, c: Option<EventPaging.EventCursor>)
    requires Lawful(k)
    ensures
      var cs := Clauses(f, tenant, asc, c);
      var out := Render(Flat(JoinParts(cs)), JoinBinds(cs));
      out.Some? ==> Reads(k, JoinParts(cs), JoinBinds(cs)).Some? && k.tokens(out.value) == Reads(k, JoinParts(cs), JoinBinds(cs))
  {
    var cs := Clauses(f, tenant, asc, c);
    ListingSound(f, tenant, asc, c);
    if Render(Flat(JoinParts(cs)), JoinBinds(cs)).Some? {
      PiecesRead(k, JoinParts(cs), JoinBinds(cs));
    }
  }

  // ---- The lexer is such a scanner ----

  function Commentless(t: string): Option<seq<Token>> { Checked(Lex(t)) }

  function LexScanner(): Scanner<Token> { Scanner(Commentless, BindTokens) }

  /** Without comments, text goes on lexing after a character that is no quote, word or minus as if it began there. */
  lemma {:induction false} LexOn(a: string, c: char, b: string)
    requires Commentless(a).Some? && (c == ' ' || c == '(' || c == ')')
    ensures Lex(a + [c] + b) == Concat(Lex(a).value, Cons(Sym(c), Lex(b)))
    decreases |a|
  {
    var s := a + [c] + b;
    if a == "" {
      assert s == [c] + b;
      LexSymbol(c, b);
      assert Lex(b).Some? ==> [] + ([Sym(c)] + Lex(b).value) == [Sym(c)] + Lex(b).value;
    } else {
      var t, rest := FirstOf(a);
      LexOn(rest, c, b);
      FirstStays(a, t, rest, [c] + b);
      assert s == a + ([c] + b) && rest + [c] + b == rest + ([c] + b);
      ConsConcat(t, Lex(rest).value, Cons(Sym(c), Lex(b)));
    }
  }

  lemma ConsConcat(t: Token, ts: seq<Token>, x: Option<seq<Token>>)
    ensures Cons(t, Concat(ts, x)) == Concat([t] + ts, x)
  {
    if x.Some? {
      assert [t] + (ts + x.value) == [t] + ts + x.value;
    }
  }

  lemma FirstOf(a: string) returns (t: Token, rest: string)
    requires a != "" && Commentless(a).Some?
    ensures |rest| < |a| && Commentless(rest).Some? && Lex(a) == Cons(t, Lex(rest))
    ensures t == (if a[0] == '\'' then Str(Unquote(a[1..]).value.0)
                  else if IsWordChar(a[0]) then Word(a[..WordLength(a)]) else Sym(a[0]))
    ensures rest == (if a[0] == '\'' then Unquote(a[1..]).value.1
                     else if IsWordChar(a[0]) then a[WordLength(a)..] else a[1..])
    ensures !OpensComment(a)
  {
    if a[0] == '\'' {
      t, rest := Str(Unquote(a[1..]).value.0), Unquote(a[1..]).value.1;
    } else if IsWordChar(a[0]) {
      t, rest := Word(a[..WordLength(a)]), a[WordLength(a)..];
    } else {
      t, rest := Sym(a[0]), a[1..];
    }
    var ts := Lex(rest).value;
    assert Lex(a).value == [t] + ts;
    assert Comment in ts ==> Comment in [t] + ts;
  }

  /** The first token is the same whatever follows a break. */
  lemma FirstStays(a: string, t: Token, rest: string, more: string)
    requires a != "" && Lex(a).Some? && !OpensComment(a) && more != "" && (more[0] == ' ' || more[0] == '(' || more[0] == ')')
    requires t == (if a[0] == '\'' then Str(Unquote(a[1..]).value.0)
                   else if IsWordChar(a[0]) then Word(a[..WordLength(a)]) else Sym(a[0]))
    requires rest == (if a[0] == '\'' then Unquote(a[1..]).value.1
                      else if IsWordChar(a[0]) then a[WordLength(a)..] else a[1..])
    ensures Lex(a + more) == Cons(t, Lex(rest + more))
  {
    TailConcat(a, more);
    if a[0] == '\'' {
      UnquoteExtends(a[1..], more);
      LexQuoted(a + more, t.s, rest + more);
    } else if IsWordChar(a[0]) {
      WordStays(a, rest, more);
    } else {
      SymbolStays(a, more);
    }
  }

  lemma WordStays(a: string, rest: string, more: string)
    requires a != "" && IsWordChar(a[0]) && rest == a[WordLength(a)..] && more != "" && !IsWordChar(more[0])
    ensures Lex(a + more) == Cons(Word(a[..WordLength(a)]), Lex(rest + more))
  {
    var w := a[..WordLength(a)];
    WordSplit(a);
    assert a == w + rest && w[0] == a[0];
    assert rest != "" ==> rest[0] == a[|w|];
    LexWordThen(w, rest, more);
  }

  lemma LexWordThen(w: string, rest: string, more: string)
    requires w != "" && (forall c :: c in w ==> IsWordChar(c))
    requires (rest != "" ==> !IsWordChar(rest[0])) && more != "" && !IsWordChar(more[0])
    ensures Lex(w + rest + more) == Cons(Word(w), Lex(rest + more))
  {
    var out := rest + more;
    assert out[0] == if rest == "" then more[0] else rest[0];
    WordExtends(w, out);
    assert w + rest + more == w + out;
    assert w[0] in w && (w + out)[0] == w[0];
    assert (w + out)[..|w|] == w && (w + out)[|w|..] == out;
  }

  lemma SymbolStays(a: string, more: string)
    requires a != "" && a[0] != '\'' && !IsWordChar(a[0]) && !OpensComment(a) && more != "" && more[0] != '-'
    ensures Lex(a + more) == Cons(Sym(a[0]), Lex(a[1..] + more))
  {
    var out := a[1..] + more;
    assert a + more == [a[0]] + out;
    assert |a| > 1 ==> out[0] == a[1];
    LexSymbol(a[0], out);
  }

  lemma {:induction false} QuietLexes(s: string)
    requires Quiet(s)
    ensures Commentless(s).Some?
    decreases |s|
  {
    if s != "" {
      assert s[0] in s;
      var n := if IsWordChar(s[0]) then WordLength(s) else 1;
      var rest := s[n..];
      assert forall c :: c in rest ==> c in s;
      QuietLexes(rest);
      assert OpensComment(s) ==> false;
      assert Lex(s) == Cons(if IsWordChar(s[0]) then Word(s[..n]) else Sym(s[0]), Lex(rest));
    }
  }

  lemma LexLawful()
    ensures Lawful(LexScanner())
  {
    var k := LexScanner();
    forall a, c, b | Breaks(a, c, b) && k.tokens(a).Some?
      ensures k.tokens(a + [c] + b) == Then(k.tokens(a), Then(k.tokens([c]), k.tokens(b)))
    {
      LexOn(a, c, b);
      LexBreak(c);
      ParseOn(Lex(a).value, Sym(c), Lex(b));
    }
    forall s | Quiet(s) ensures k.tokens(s).Some? {
      QuietLexes(s);
    }
    forall v | Literal(v).Some? ensures k.tokens(Literal(v).value) == Some(k.meaning(v)) {
      LexLiteral(v, "");
      assert Literal(v).value + "" == Literal(v).value && BindTokens(v) + [] == BindTokens(v);
    }
  }

  lemma LexBreak(c: char)
    requires c == ' ' || c == '(' || c == ')'
    ensures Commentless([c]) == Some([Sym(c)])
  {
    assert [c] == [c] + "";
    LexSymbol(c, "");
    assert Lex("") == Some([]) && [Sym(c)] + [] == [Sym(c)];
  }

  function Checked(x: Option<seq<Token>>): Option<seq<Token>> {
    if x.Some? && Comment !in x.value then x else None
  }

  lemma ParseOn(a: seq<Token>, t: Token, b: Option<seq<Token>>)
    requires Comment !in a && t != Comment
    ensures Checked(Concat(a, Cons(t, b))) == Then(Some(a), Then(Some([t]), Checked(b)))
  {
    if b.Some? {
      var ts := a + ([t] + b.value);
      assert forall x :: x in ts <==> x in a || x == t || x in b.value;
    }
  }
}

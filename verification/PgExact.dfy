/**
 Which statements may be rendered at all: as `PgNative.Lex` reads them, exactly the well-placed ones keep
 their meaning under every choice of binds (escurel-index/src/events.rs, `pg_native::render`).
 */
module PgExact {

  import opened Wrappers
  import opened PgNative

  /** Whatever is bound, the rendered statement reads as the template with its `?`s replaced. */
  ghost predicate Preserves(t: string) {
    forall binds :: Render(t, binds).Some? ==>
      Lex(t).Some? && Lex(Render(t, binds).value) == Some(Substitute(Lex(t).value, binds))
  }

  // ---- One bind for every `?` ----

  function Same(b: Bind, n: nat): seq<Bind> { if n == 0 then [] else [b] + Same(b, n - 1) }

  function Fill(t: string, lit: string): string {
    if t == "" then "" else (if t[0] == '?' then lit else [t[0]]) + Fill(t[1..], lit)
  }

  function FillTokens(ts: seq<Token>, b: Bind): seq<Token> {
    if ts == [] then [] else (if ts[0] == Sym('?') then BindTokens(b) else [ts[0]]) + FillTokens(ts[1..], b)
  }

  function Marks(ts: seq<Token>): nat {
    if ts == [] then 0 else (if ts[0] == Sym('?') then 1 else 0) + Marks(ts[1..])
  }

  lemma {:induction false} RenderSame(t: string, b: Bind)
    requires Literal(b).Some?
    ensures Render(t, Same(b, Params(t))) == Some(Fill(t, Literal(b).value))
  {
    if t != "" {
      RenderSame(t[1..], b);
      if t[0] == '?' {
        assert Same(b, Params(t))[1..] == Same(b, Params(t[1..]));
      }
    }
  }

  lemma {:induction false} SubstituteSame(ts: seq<Token>, b: Bind, n: nat)
    requires Marks(ts) <= n
    ensures Substitute(ts, Same(b, n)) == FillTokens(ts, b)
  {
    if ts != [] {
      if ts[0] == Sym('?') {
        assert Same(b, n)[1..] == Same(b, n - 1);
        SubstituteSame(ts[1..], b, n - 1);
      } else {
        SubstituteSame(ts[1..], b, n);
      }
    }
  }

  lemma ParamsSuffix(t: string, n: nat)
    requires n <= |t|
    ensures Params(t[n..]) <= Params(t)
  {
    assert t == t[..n] + t[n..];
    ParamsConcat(t[..n], t[n..]);
  }

  lemma {:induction false} MarksWithin(t: string)
    requires Lex(t).Some?
    ensures Marks(Lex(t).value) <= Params(t)
    decreases |t|
  {
    if t != "" {
      var ts := Lex(t).value;
      if t[0] == '\'' {
        var rest := Unquote(t[1..]).value.1;
        MarksWithin(rest);
        assert ts[1..] == Lex(rest).value;
        UnquoteSuffix(t[1..]);
        ParamsSuffix(t[1..], |t| - 1 - |rest|);
      } else {
        var n := if IsWordChar(t[0]) then WordLength(t) else if OpensComment(t) then LineLength(t) else 1;
        MarksWithin(t[n..]);
        assert ts[1..] == Lex(t[n..]).value;
        ParamsSuffix(t, n);
      }
    }
  }

  // ---- One value bound throughout ----

  /** Binding `b` everywhere keeps the meaning. */
  ghost predicate Means(t: string, b: Bind) {
    && Literal(b).Some? && Lex(t).Some?
    && Lex(Fill(t, Literal(b).value)) == Some(FillTokens(Lex(t).value, b))
  }

  ghost predicate KeepsAll(t: string) { forall b :: Literal(b).Some? ==> Means(t, b) }

  function Zero(): Bind { Int(0) }

  function MinusOne(): Bind { Int(-1) }

  function Empty(): Bind { Bind.Text("") }

  lemma Literals()
    ensures Literal(Zero()) == Some("0") && BindTokens(Zero()) == [Word("0")]
    ensures Literal(MinusOne()) == Some("-1") && BindTokens(MinusOne()) == [Sym('-'), Word("1")]
    ensures Literal(Empty()) == Some("''") && BindTokens(Empty()) == [Str("")]
  {
    assert "'" + "" + "'" == "''";
    assert "-" + "1" == "-1";
  }

  lemma FirstToken(a: Token, x: Option<seq<Token>>, b: Token, ts: seq<Token>)
    requires Cons(a, x) == Some([b] + ts)
    ensures a == b && x == Some(ts)
  {
    assert ([a] + x.value)[0] == a && ([a] + x.value)[1..] == x.value;
    assert ([b] + ts)[0] == b && ([b] + ts)[1..] == ts;
  }

  /** A token other than `?`, then the rest: the rest keeps its meaning if the token is read as it was. */
  lemma TailMeans(t: string, b: Bind, a: Token, rest: string)
    requires Means(t, b) && a != Sym('?') && Lex(t) == Cons(a, Lex(rest))
    requires Lex(Fill(t, Literal(b).value)) == Cons(a, Lex(Fill(rest, Literal(b).value)))
    ensures Means(rest, b)
  {
    var ts := Lex(rest).value;
    assert ([a] + ts)[1..] == ts;
    FirstToken(a, Lex(Fill(rest, Literal(b).value)), a, FillTokens(ts, b));
  }

  lemma {:induction false} FillConcat(a: string, b: string, lit: string)
    ensures Fill(a + b, lit) == Fill(a, lit) + Fill(b, lit)
  {
    if a == "" {
      assert a + b == b;
    } else {
      assert (a + b)[1..] == a[1..] + b;
      FillConcat(a[1..], b, lit);
    }
  }

  lemma {:induction false} FillPlain(a: string, lit: string)
    requires '?' !in a
    ensures Fill(a, lit) == a
  {
    if a != "" {
      FillPlain(a[1..], lit);
      assert a == [a[0]] + a[1..];
    }
  }

  lemma FillAfter(a: string, rest: string, lit: string)
    requires '?' !in a
    ensures Fill(a + rest, lit) == a + Fill(rest, lit)
  {
    FillConcat(a, rest, lit);
    FillPlain(a, lit);
  }

  lemma FillHead(rest: string, lit: string)
    ensures rest == "" ==> Fill(rest, lit) == ""
    ensures rest != "" && rest[0] != '?' ==> Fill(rest, lit) != "" && Fill(rest, lit)[0] == rest[0]
  {}

  lemma {:induction false} FillChanges(a: string)
    requires Fill(a, "0") == a
    ensures '?' !in a
  {
    if a != "" {
      assert a[0] == Fill(a, "0")[0];
      assert Fill(a, "0")[1..] == Fill(a[1..], "0") == a[1..];
      FillChanges(a[1..]);
    }
  }

  // ---- A string constant ----

  lemma {:induction false} UnquoteFilled(s: string)
    requires Unquote(s).Some?
    ensures Unquote(Fill(s, "0")) == Some((Fill(Unquote(s).value.0, "0"), Fill(Unquote(s).value.1, "0")))
    decreases |s|
  {
    var f := Fill(s, "0");
    assert f[1..] == Fill(s[1..], "0");
    if s[0] == '\'' {
      if |s| > 1 {
        assert f[2..] == Fill(s[1..][1..], "0") && s[1..][1..] == s[2..];
        if s[1] == '\'' {
          UnquoteFilled(s[2..]);
          var v := Unquote(s[2..]).value.0;
          assert ("'" + v)[1..] == v;
        }
      }
    } else {
      UnquoteFilled(s[1..]);
      var v := Unquote(s[1..]).value.0;
      assert ([s[0]] + v)[1..] == v;
    }
  }

  /** A quote right after a constant is read as part of it. */
  lemma {:induction false} QuoteJoins(s: string, x: string)
    requires Unquote(s).Some? && Unquote(s).value.1 == ""
    ensures Unquote(s + ("'" + x)).Some? ==> |Unquote(s + ("'" + x)).value.0| > |Unquote(s).value.0|
    decreases |s|
  {
    var y := s + ("'" + x);
    assert y[1..] == s[1..] + ("'" + x);
    if s[0] == '\'' {
      if |s| > 1 {
        assert y[2..] == s[2..] + ("'" + x);
        QuoteJoins(s[2..], x);
      }
    } else {
      QuoteJoins(s[1..], x);
    }
  }

  lemma {:induction false} SpanText(s: string, rest: string, v: string)
    requires Unquote(s + rest) == Some((v, rest)) && '?' !in v
    ensures '?' !in s
    decreases |s|
  {
    var t := s + rest;
    if s != "" {
      assert t[1..] == s[1..] + rest;
      if s[0] == '\'' {
        if |t| > 1 && t[1] == '\'' {
          assert |s| >= 2;
          assert t[2..] == s[2..] + rest;
          SpanText(s[2..], rest, v[1..]);
          assert s == [s[0], s[1]] + s[2..];
        } else {
          assert |s| == 1;
        }
      } else {
        SpanText(s[1..], rest, v[1..]);
        assert s == [s[0]] + s[1..];
      }
    }
  }

  function LexedConstant(s: string): (string, string)
    requires s != "" && s[0] == '\'' && Lex(s).Some?
  {
    Unquote(s[1..]).value
  }

  /** A mark inside a constant is not seen by the lexer, but a zero put there is. */
  lemma ConstantUnmarked(t: string, v: string, rest: string)
    requires t != "" && t[0] == '\'' && Means(t, Zero()) && Unquote(t[1..]) == Some((v, rest))
    ensures '?' !in LiteralSpan(t)
  {
    Literals();
    var f := Fill(t, "0");
    assert f[1..] == Fill(t[1..], "0");
    UnquoteFilled(t[1..]);
    LexQuoted(f, Fill(v, "0"), Fill(rest, "0"));
    var ts := Lex(rest).value;
    assert Lex(t).value == [Str(v)] + ts && ([Str(v)] + ts)[1..] == ts;
    FirstToken(Str(Fill(v, "0")), Lex(Fill(rest, "0")), Str(v), FillTokens(ts, Zero()));
    FillChanges(v);
    SpanCloses(t);
    var body := LiteralSpan(t)[1..];
    SpanText(body, rest, v);
    assert LiteralSpan(t) == "'" + body;
  }

  /** What follows a constant that stays one token does not start with a quote. */
  lemma AfterConstant(span: string, v: string, x: string, ts: seq<Token>)
    requires span != "" && span[0] == '\'' && Unquote(span[1..]) == Some((v, ""))
    requires Lex(span + x) == Some([Str(v)] + ts)
    ensures x != "" ==> x[0] != '\''
  {
    var s := span + x;
    TailConcat(span, x);
    var (v', rest) := LexedConstant(s);
    LexQuoted(s, v', rest);
    FirstToken(Str(v'), Lex(rest), Str(v), ts);
    if x != "" && x[0] == '\'' {
      assert x == "'" + x[1..];
      QuoteJoins(span[1..], x[1..]);
    }
  }

  lemma ConstantNotMarked(t: string, v: string, rest: string)
    requires t != "" && t[0] == '\'' && Means(t, Empty()) && Unquote(t[1..]) == Some((v, rest)) && '?' !in LiteralSpan(t)
    ensures rest != "" ==> rest[0] != '?'
  {
    Literals();
    var ts := Lex(rest).value;
    assert Lex(t).value == [Str(v)] + ts && ([Str(v)] + ts)[1..] == ts;
    SpanCloses(t);
    FillAfter(LiteralSpan(t), rest, "''");
    assert rest != "" && rest[0] == '?' ==> Fill(rest, "''")[0] == '\'';
    AfterConstant(LiteralSpan(t), v, Fill(rest, "''"), FillTokens(ts, Empty()));
  }

  lemma ConstantStep(t: string)
    requires t != "" && t[0] == '\'' && KeepsAll(t)
    ensures Unquote(t[1..]).Some? && '?' !in LiteralSpan(t)
    ensures
      var rest := Unquote(t[1..]).value.1;
      (rest != "" ==> rest[0] != '?') && KeepsAll(rest)
  {
    Literals();
    assert Means(t, Zero()) && Means(t, Empty());
    var (v, rest) := LexedConstant(t);
    ConstantUnmarked(t, v, rest);
    ConstantNotMarked(t, v, rest);
    SpanCloses(t);
    UnquoteSuffix(t[1..]);
    forall b | Literal(b).Some? ensures Means(rest, b) {
      var lit := Literal(b).value;
      assert Means(t, b);
      FillAfter(LiteralSpan(t), rest, lit);
      FillHead(rest, lit);
      LexClosed(LiteralSpan(t), v, Fill(rest, lit));
      TailMeans(t, b, Str(v), rest);
    }
  }

  // ---- A word ----

  lemma {:induction false} WordGrows(w: string, x: string)
    requires (forall c :: c in w ==> IsWordChar(c)) && x != "" && IsWordChar(x[0])
    ensures WordLength(w + x) > |w|
  {
    if w == "" {
      assert w + x == x;
    } else {
      assert (w + x)[1..] == w[1..] + x;
      WordGrows(w[1..], x);
    }
  }

  lemma LexWord(w: string, x: string)
    requires w != "" && (forall c :: c in w ==> IsWordChar(c)) && (x != "" ==> !IsWordChar(x[0]))
    ensures Lex(w + x) == Cons(Word(w), Lex(x))
  {
    WordExtends(w, x);
    assert (w + x)[0] == w[0] && w[0] in w;
    assert (w + x)[..|w|] == w && (w + x)[|w|..] == x;
  }

  lemma LexFirstWord(t: string)
    requires t != "" && IsWordChar(t[0]) && Lex(t).Some?
    ensures
      var w, rest := t[..WordLength(t)], t[WordLength(t)..];
      && w != "" && t == w + rest && (forall c :: c in w ==> IsWordChar(c)) && (rest != "" ==> !IsWordChar(rest[0]))
      && Lex(rest).Some? && Lex(t).value == [Word(w)] + Lex(rest).value && Lex(t).value[1..] == Lex(rest).value
  {
    WordSplit(t);
  }

  /** A parameter right after a word would join it. */
  lemma WordNotMarked(t: string)
    requires t != "" && IsWordChar(t[0]) && Means(t, Zero())
    ensures WordLength(t) < |t| ==> t[WordLength(t)] != '?'
  {
    Literals();
    var n := WordLength(t);
    var w, rest := t[..n], t[n..];
    LexFirstWord(t);
    FillAfter(w, rest, "0");
    var ts := Lex(rest).value;
    if rest != "" && rest[0] == '?' {
      var s := w + Fill(rest, "0");
      WordGrows(w, Fill(rest, "0"));
      FirstToken(Word(s[..WordLength(s)]), Lex(s[WordLength(s)..]), Word(w), FillTokens(ts, Zero()));
    }
  }

  lemma WordStep(t: string)
    requires t != "" && IsWordChar(t[0]) && KeepsAll(t)
    ensures
      var rest := t[WordLength(t)..];
      (rest != "" ==> rest[0] != '?') && KeepsAll(rest)
  {
    Literals();
    assert Means(t, Zero());
    WordNotMarked(t);
    LexFirstWord(t);
    var w, rest := t[..WordLength(t)], t[WordLength(t)..];
    forall b | Literal(b).Some? ensures Means(rest, b) {
      var lit := Literal(b).value;
      assert Means(t, b);
      FillAfter(w, rest, lit);
      FillHead(rest, lit);
      LexWord(w, Fill(rest, lit));
      TailMeans(t, b, Word(w), rest);
    }
  }

  // ---- A parameter ----

  lemma ParamTokens(t: string, b: Bind)
    requires t != "" && t[0] == '?' && Means(t, b)
    ensures Lex(t[1..]).Some? && Lex(Fill(t, Literal(b).value)) == Some(BindTokens(b) + FillTokens(Lex(t[1..]).value, b))
  {
    var ts := Lex(t[1..]).value;
    assert Lex(t).value == [Sym('?')] + ts && ([Sym('?')] + ts)[1..] == ts;
  }

  lemma UnquoteClosed(x: string)
    ensures x != "" && x[0] == '\'' && Unquote("'" + x).Some? ==> Unquote("'" + x).value.0 != ""
  {
    assert ("'" + x)[1..] == x;
  }

  lemma Emptied(x: string)
    ensures "'" + "" + "'" + x == "''" + x && "" + "'" + x == "'" + x
  {}

  lemma AfterEmpty(x: string, ts: seq<Token>)
    requires Lex("''" + x) == Some([Str("")] + ts)
    ensures x != "" ==> x[0] != '\''
  {
    var s := "''" + x;
    OpeningQuote("", x);
    UnquoteClosed(x);
    Emptied(x);
    var (v, rest) := LexedConstant(s);
    LexQuoted(s, v, rest);
    FirstToken(Str(v), Lex(rest), Str(""), ts);
  }

  lemma AfterZero(x: string, ts: seq<Token>)
    requires Lex("0" + x) == Some([Word("0")] + ts)
    ensures x != "" ==> !IsWordChar(x[0])
  {
    var s := "0" + x;
    assert s[1..] == x;
    FirstToken(Word(s[..WordLength(s)]), Lex(s[WordLength(s)..]), Word("0"), ts);
    assert WordLength(s) == 1 + WordLength(x) && |s[..WordLength(s)]| == 1;
  }

  lemma ParamBounded(t: string)
    requires t != "" && t[0] == '?' && Means(t, Zero()) && Means(t, Empty())
    ensures |t| > 1 ==> Boundary(t[1])
  {
    Literals();
    ParamTokens(t, Zero());
    ParamTokens(t, Empty());
    var rest, ts := t[1..], Lex(t[1..]).value;
    FillHead(rest, "0");
    FillHead(rest, "''");
    AfterZero(Fill(rest, "0"), FillTokens(ts, Zero()));
    AfterEmpty(Fill(rest, "''"), FillTokens(ts, Empty()));
    assert rest != "" ==> rest[0] == t[1];
  }

  lemma ParamStep(t: string)
    requires t != "" && t[0] == '?' && KeepsAll(t)
    ensures (|t| > 1 ==> Boundary(t[1])) && KeepsAll(t[1..])
  {
    Literals();
    assert Means(t, Zero()) && Means(t, Empty());
    ParamBounded(t);
    var rest := t[1..];
    forall b | Literal(b).Some? ensures Means(rest, b) {
      var out := Fill(rest, Literal(b).value);
      assert Means(t, b);
      ParamTokens(t, b);
      FillHead(rest, Literal(b).value);
      LexLiteral(b, out);
      SameTail(BindTokens(b), Lex(out), FillTokens(Lex(rest).value, b));
    }
  }

  lemma SameTail(a: seq<Token>, x: Option<seq<Token>>, ts: seq<Token>)
    requires Concat(a, x) == Some(a + ts)
    ensures x == Some(ts)
  {
    assert (a + x.value)[|a|..] == x.value && (a + ts)[|a|..] == ts;
  }

  // ---- A comment ----

  function Break(c: char): Bind { Bind.Text(['\n', c]) }

  lemma BreakLiteral(c: char)
    requires c == '@' || c == '#'
    ensures Literal(Break(c)) == Some(['\'', '\n', c, '\'']) && BindTokens(Break(c)) == [Str(['\n', c])]
  {
    var s := ['\n', c];
    assert s[1..] == [c] && [c][1..] == [];
    assert Doubled([c]) == [c] + Doubled([c][1..]) == [c];
    assert Doubled(s) == [s[0]] + Doubled(s[1..]) == s;
    assert '\0' !in s && '\\' !in s;
    assert "'" + s + "'" == ['\'', '\n', c, '\''];
  }

  lemma FillAtMark(t: string, k: nat, lit: string)
    requires k < |t| && t[k] == '?' && '?' !in t[..k]
    ensures Fill(t, lit) == t[..k] + (lit + Fill(t[k + 1..], lit))
  {
    var rest := t[k..];
    assert t == t[..k] + rest && rest[0] == '?' && rest[1..] == t[k + 1..];
    FillAfter(t[..k], rest, lit);
  }

  lemma BrokenText(u: string, c: char, x: string)
    ensures u + (['\'', '\n', c, '\''] + x) == (u + ['\'', '\n']) + ([c] + (['\''] + x))
  {}

  lemma BrokenComment(u: string, c: char, x: string)
    requires OpensComment(u) && (forall i :: 0 <= i < |u| ==> !EndsLine(u[i])) && (c == '@' || c == '#')
    ensures Lex(u + (['\'', '\n', c, '\''] + x)) == Cons(Comment, Cons(Sym(c), Lex(['\''] + x)))
  {
    var line := u + ['\'', '\n'];
    LineExtends(line, "");
    assert line + "" == line && line[..|line|] == line;
    LexComment(line, [c] + (['\''] + x));
    LexSymbol(c, ['\''] + x);
    BrokenText(u, c, x);
  }

  /** A line break bound inside a comment ends it: what is bound after the break is read as the statement. */
  lemma BreaksOut(t: string, c: char)
    requires OpensComment(t) && '?' in t[..LineLength(t)] && (c == '@' || c == '#') && Means(t, Break(c))
    ensures
      var ts := FillTokens(Lex(t[LineLength(t)..]).value, Break(c));
      ts != [] && ts[0] == Sym(c)
  {
    BreakLiteral(c);
    var lit := Literal(Break(c)).value;
    var k := FirstMark(t[..LineLength(t)]);
    assert t[..LineLength(t)][..k] == t[..k];
    LineSplit(t);
    FillAtMark(t, k, lit);
    var x := Fill(t[k + 1..], lit);
    BrokenComment(t[..k], c, x);
    var ts := Lex(t[LineLength(t)..]).value;
    assert ([Comment] + ts)[1..] == ts;
    FirstToken(Comment, Cons(Sym(c), Lex(['\''] + x)), Comment, FillTokens(ts, Break(c)));
  }

  lemma {:induction false} FirstMark(s: string) returns (k: nat)
    requires '?' in s
    ensures k < |s| && s[k] == '?' && '?' !in s[..k]
  {
    if s[0] == '?' {
      k := 0;
    } else {
      k := FirstMark(s[1..]);
      assert s[..k + 1] == [s[0]] + s[1..][..k];
      k := k + 1;
    }
  }

  lemma CommentStep(t: string)
    requires OpensComment(t) && KeepsAll(t)
    ensures '?' !in t[..LineLength(t)] && KeepsAll(t[LineLength(t)..])
  {
    var line, rest := t[..LineLength(t)], t[LineLength(t)..];
    BreakLiteral('@');
    BreakLiteral('#');
    assert Means(t, Break('@')) && Means(t, Break('#'));
    if '?' in line {
      BreaksOut(t, '@');
      BreaksOut(t, '#');
    }
    assert t == line + rest;
    forall b | Literal(b).Some? ensures Means(rest, b) {
      var lit := Literal(b).value;
      assert Means(t, b);
      FillAfter(line, rest, lit);
      FillHead(rest, lit);
      LineSplit(t);
      LexComment(t, Fill(rest, lit));
      TailMeans(t, b, Comment, rest);
    }
  }

  // ---- A symbol ----

  lemma StartsMinus(s: string, ts: seq<Token>)
    requires Lex(s) == Some([Sym('-')] + ts)
    ensures s != "" && s[0] == '-' && !OpensComment(s) && Lex(s[1..]) == Some(ts)
  {
    assert Lex(s).value[0] == Sym('-');
    assert s[0] == '-' && !OpensComment(s);
    FirstToken(Sym('-'), Lex(s[1..]), Sym('-'), ts);
  }

  /** No text lexes to two minus signs in a row. */
  lemma NoDoubleMinus(s: string, ts: seq<Token>)
    ensures Lex(s) != Some([Sym('-'), Sym('-')] + ts)
  {
    if Lex(s) == Some([Sym('-'), Sym('-')] + ts) {
      assert [Sym('-'), Sym('-')] + ts == [Sym('-')] + ([Sym('-')] + ts);
      StartsMinus(s, [Sym('-')] + ts);
      StartsMinus(s[1..], ts);
    }
  }

  lemma MinusNotMarked(t: string)
    requires |t| > 1 && t[0] == '-' && Means(t, MinusOne())
    ensures t[1] != '?'
  {
    Literals();
    if t[1] == '?' {
      assert t[1..][1..] == t[2..];
      assert Lex(t) == Cons(Sym('-'), Lex(t[1..])) && Lex(t[1..]) == Cons(Sym('?'), Lex(t[2..]));
      var ts := Lex(t[2..]).value;
      assert Lex(t).value == [Sym('-')] + ([Sym('?')] + ts);
      assert ([Sym('-')] + ([Sym('?')] + ts))[1..] == [Sym('?')] + ts && ([Sym('?')] + ts)[1..] == ts;
      var filled := FillTokens(ts, MinusOne());
      assert FillTokens(Lex(t).value, MinusOne()) == [Sym('-')] + ([Sym('-'), Word("1")] + filled);
      assert [Sym('-')] + ([Sym('-'), Word("1")] + filled) == [Sym('-'), Sym('-')] + ([Word("1")] + filled);
      NoDoubleMinus(Fill(t, "-1"), [Word("1")] + filled);
    }
  }

  lemma SymbolStep(t: string)
    requires t != "" && t[0] != '?' && t[0] != '\'' && !IsWordChar(t[0]) && !OpensComment(t) && KeepsAll(t)
    ensures (t[0] == '-' && |t| > 1 ==> t[1] != '?') && KeepsAll(t[1..])
  {
    Literals();
    assert Means(t, MinusOne());
    if t[0] == '-' && |t| > 1 {
      MinusNotMarked(t);
    }
    var rest := t[1..];
    forall b | Literal(b).Some? ensures Means(rest, b) {
      var lit := Literal(b).value;
      assert Means(t, b);
      FillHead(rest, lit);
      LexSymbol(t[0], Fill(rest, lit));
      TailMeans(t, b, Sym(t[0]), rest);
    }
  }

  // ---- The theorem ----

  /** A statement that keeps its meaning whenever one value is bound throughout is well placed. */
  lemma {:induction false} OneValueTells(t: string, free: bool)
    requires KeepsAll(t) && (t != "" && t[0] == '?' ==> free)
    ensures WellPlaced(t, free)
    decreases |t|
  {
    if t != "" {
      if t[0] == '?' {
        ParamStep(t);
        OneValueTells(t[1..], false);
      } else if t[0] == '\'' {
        ConstantStep(t);
        OneValueTells(Unquote(t[1..]).value.1, false);
      } else if IsWordChar(t[0]) {
        WordStep(t);
        OneValueTells(t[WordLength(t)..], false);
      } else if OpensComment(t) {
        CommentStep(t);
        OneValueTells(t[LineLength(t)..], true);
      } else {
        SymbolStep(t);
        OneValueTells(t[1..], t[0] != '-');
      }
    }
  }

  lemma PreservesMeans(t: string, b: Bind)
    requires Preserves(t) && Literal(b).Some?
    ensures Means(t, b)
  {
    RenderSame(t, b);
    MarksWithin(t);
    SubstituteSame(Lex(t).value, b, Params(t));
  }

  /**
   A template keeps its meaning, as `PgNative.Lex` reads it, under every choice of binds exactly when it is
   well placed. (A scanner that knows longer operators or numbers asks for more: see `PgScanner`.)
   */
  lemma PreservesIff(t: string)
    ensures Preserves(t) <==> WellPlaced(t, true)
  {
    if Preserves(t) {
      forall b | Literal(b).Some? ensures Means(t, b) {
        PreservesMeans(t, b);
      }
      OneValueTells(t, true);
    }
    if WellPlaced(t, true) {
      WellPlacedLexes(t, true);
      forall binds | Render(t, binds).Some?
        ensures Lex(t).Some? && Lex(Render(t, binds).value) == Some(Substitute(Lex(t).value, binds))
      {
        RenderLexes(t, true, binds);
      }
    }
  }

  /** Outside quotes is not enough: after a word, a number joins the word. */
  lemma MarkAfterWord()
    ensures '\'' !in "x?" && !Preserves("x?")
    ensures Render("x?", [Zero()]) == Some("x0") && Lex("x0") == Some([Word("x0")])
  {
    var t := "x?";
    assert t[1..] == "?" && "?"[1..] == "";
    assert WordLength(t) == 1;
    assert !WellPlaced("?", false);
    PreservesIff(t);
    Literals();
    var b := [Zero()];
    assert b[1..] == [] && Render("", []) == Some("");
    assert Render("?", b) == Some("0") by { assert "0" + "" == "0"; }
    assert "x" + "0" == "x0";
    var u := "x0";
    assert u[1..] == "0" && u[1..][1..] == "";
    assert WordLength(u[1..]) == 1 && WordLength(u) == 2;
    assert u[..2] == u && u[2..] == "";
    assert Lex("") == Some([]) && [Word(u)] + [] == [Word(u)];
  }

  /** After a minus sign, a negative number opens a comment. */
  lemma MarkAfterMinus()
    ensures '\'' !in "a-?" && !Preserves("a-?")
    ensures Render("-?", [MinusOne()]) == Some("--1") && Lex("--1") == Some([Comment])
  {
    var t := "a-?";
    assert t[1..] == "-?" && "-?"[1..] == "?";
    assert WordLength(t) == 1;
    assert !WellPlaced("?", false) && !WellPlaced("-?", false);
    PreservesIff(t);
    Literals();
    var b := [MinusOne()];
    assert b[1..] == [] && Render("", []) == Some("") && "?"[1..] == "";
    assert Render("?", b) == Some("-1") by { assert "-1" + "" == "-1"; }
    assert "-" + "-1" == "--1";
    var u := "--1";
    assert u[1..] == "-1" && u[1..][1..] == "1" && u[1..][1..][1..] == "";
    assert LineLength(u[1..][1..]) == 1 && LineLength(u[1..]) == 2 && LineLength(u) == 3;
    assert u[3..] == "" && Lex("") == Some([]) && [Comment] + [] == [Comment];
  }
}

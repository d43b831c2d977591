/**
 Rendering an events query for Postgres (escurel-index/src/events.rs, `pg_native`): each `?` of a
 statement is replaced by a quoted literal, and the statement is embedded in another as a string.
 */
module PgNative {

  import opened Wrappers
  import Decimal

  datatype Bind = Text(text: string) | Int(n: int)

  /** `replace('\'', "''")`. */
  function Doubled(s: string): string {
    if s == "" then "" else (if s[0] == '\'' then "''" else [s[0]]) + Doubled(s[1..])
  }

  /** `None` for a value that cannot be quoted with certainty. */
  function Quoted(s: string): Option<string> {
    if '\0' in s || '\\' in s then None else Some("'" + Doubled(s) + "'")
  }

  function Literal(b: Bind): Option<string> {
    match b case Text(s) => Quoted(s) case Int(n) => Some(Decimal.Show(n))
  }

  function Render(sql: string, binds: seq<Bind>): Option<string> {
    if sql == "" then (if binds == [] then Some("") else None)
    else if sql[0] == '?' then
      if binds == [] || Literal(binds[0]).None? then None
      else match Render(sql[1..], binds[1..])
           case None => None
           case Some(out) => Some(Literal(binds[0]).value + out)
    else match Render(sql[1..], binds)
         case None => None
         case Some(out) => Some([sql[0]] + out)
  }

  /** A statement as a DuckDB string argument. */
  function DuckdbString(sql: string): string { "'" + Doubled(sql) + "'" }

  // ---- Lexing ----

  // One-character symbols, ASCII words, plain string constants and line comments: less than Postgres knows
  // (operator runs, decimals, prefixed strings, other quotes). `PgScanner` is about scanners that know more.

  /** Symbols stand for one character each, white space included. */
  datatype Token = Word(w: string) | Str(s: string) | Sym(c: char) | Comment

  predicate IsWordChar(c: char) {
    'a' <= c <= 'z' || 'A' <= c <= 'Z' || '0' <= c <= '9' || c == '_' || c == '$'
  }

  function WordLength(s: string): (n: nat)
    ensures n <= |s|
    ensures s != "" && IsWordChar(s[0]) ==> n >= 1
  {
    if s == "" || !IsWordChar(s[0]) then 0 else 1 + WordLength(s[1..])
  }

  predicate EndsLine(c: char) { c == '\n' || c == '\r' }

  /** The rest of the line, its end included. */
  function LineLength(s: string): (n: nat)
    ensures n <= |s| && (s != "" ==> n >= 1)
  {
    if s == "" then 0 else if EndsLine(s[0]) then 1 else 1 + LineLength(s[1..])
  }

  predicate OpensComment(s: string) { |s| >= 2 && s[0] == '-' && s[1] == '-' }

  /** The value of a string literal whose opening quote is behind us, and what follows it. */
  function Unquote(s: string): (r: Option<(string, string)>)
    ensures r.Some? ==> |r.value.1| < |s|
  {
    if s == "" then None
    else if s[0] == '\'' then
      if |s| > 1 && s[1] == '\'' then
        match Unquote(s[2..]) case None => None case Some((v, rest)) => Some(("'" + v, rest))
      else Some(("", s[1..]))
    else match Unquote(s[1..]) case None => None case Some((v, rest)) => Some(([s[0]] + v, rest))
  }

  /** `None` when a literal is left open. */
  function Lex(s: string): Option<seq<Token>>
    decreases |s|
  {
    if s == "" then Some([])
    else if s[0] == '\'' then
      match Unquote(s[1..])
      case None => None
      case Some((v, rest)) => Cons(Str(v), Lex(rest))
    else if IsWordChar(s[0]) then
      var n := WordLength(s);
      Cons(Word(s[..n]), Lex(s[n..]))
    else if OpensComment(s) then Cons(Comment, Lex(s[LineLength(s)..]))
    else Cons(Sym(s[0]), Lex(s[1..]))
  }

  function Cons(t: Token, ts: Option<seq<Token>>): Option<seq<Token>> {
    match ts case None => None case Some(r) => Some([t] + r)
  }

  function Concat(a: seq<Token>, b: Option<seq<Token>>): Option<seq<Token>> {
    match b case None => None case Some(r) => Some(a + r)
  }

  /** A bind as tokens: one literal, its sign apart. */
  function BindTokens(b: Bind): seq<Token> {
    match b
    case Text(s) => [Str(s)]
    case Int(n) => if n < 0 then [Sym('-'), Word(Decimal.ShowNat(-n))] else [Word(Decimal.ShowNat(n))]
  }

  /** The template's tokens with its `?`s replaced in order. */
  function Substitute(ts: seq<Token>, binds: seq<Bind>): seq<Token> {
    if ts == [] then []
    else if ts[0] == Sym('?') && binds != [] then BindTokens(binds[0]) + Substitute(ts[1..], binds[1..])
    else [ts[0]] + Substitute(ts[1..], binds)
  }

  // ---- Well-formed templates ----

  /** A character a literal can stand next to. */
  predicate Boundary(c: char) { !IsWordChar(c) && c != '\'' && c != '?' }

  /** The text of the literal that starts `s`, quotes included. */
  function LiteralSpan(s: string): string
    requires s != "" && Unquote(s[1..]).Some?
  {
    s[..|s| - |Unquote(s[1..]).value.1|]
  }

  /**
   Every `?` is outside quotes and comments, stands between boundaries and not after a minus sign.
   `free` says whether what is before `t` allows a `?`.
   */
  predicate WellPlaced(t: string, free: bool)
    decreases |t|
  {
    if t == "" then true
    else if t[0] == '?' then free && (|t| == 1 || Boundary(t[1])) && WellPlaced(t[1..], false)
    else if t[0] == '\'' then
      && Unquote(t[1..]).Some?
      && '?' !in LiteralSpan(t)
      && WellPlaced(Unquote(t[1..]).value.1, false)
    else if IsWordChar(t[0]) then WellPlaced(t[WordLength(t)..], false)
    else if OpensComment(t) then '?' !in t[..LineLength(t)] && WellPlaced(t[LineLength(t)..], true)
    else WellPlaced(t[1..], t[0] != '-')
  }

  // ---- The theorem ----

  lemma {:induction false} UnquoteDoubled(s: string, rest: string)
    requires rest != "" ==> rest[0] != '\''
    ensures Unquote(Doubled(s) + "'" + rest) == Some((s, rest))
  {
    var t := Doubled(s) + "'" + rest;
    if s == "" {
      assert t[1..] == rest;
    } else {
      UnquoteDoubled(s[1..], rest);
      var tail := Doubled(s[1..]) + "'" + rest;
      if s[0] == '\'' {
        assert t == "''" + tail && t[2..] == tail;
      } else {
        assert t == [s[0]] + tail && t[1..] == tail;
      }
      assert [s[0]] + s[1..] == s;
    }
  }

  /** Extending the text after a literal leaves the literal alone, unless it adds a quote to it. */
  lemma {:induction false} UnquoteExtends(s: string, more: string)
    requires Unquote(s).Some? && (Unquote(s).value.1 == "" && more != "" ==> more[0] != '\'')
    ensures Unquote(s + more) == Some((Unquote(s).value.0, Unquote(s).value.1 + more))
  {
    if s[0] == '\'' && |s| > 1 && s[1] == '\'' {
      assert (s + more)[2..] == s[2..] + more;
      UnquoteExtends(s[2..], more);
    } else if s[0] == '\'' {
      assert (s + more)[1..] == s[1..] + more;
    } else {
      assert (s + more)[1..] == s[1..] + more;
      UnquoteExtends(s[1..], more);
    }
  }

  lemma {:induction false} UnquoteSuffix(s: string)
    requires Unquote(s).Some?
    ensures var rest := Unquote(s).value.1; rest == s[|s| - |rest|..]
    ensures Unquote(s).value.1 != "" ==> Unquote(s).value.1[0] != '\''
  {
    if s[0] == '\'' && |s| > 1 && s[1] == '\'' {
      UnquoteSuffix(s[2..]);
    } else if s[0] != '\'' {
      UnquoteSuffix(s[1..]);
    }
  }

  lemma {:induction false} WordExtends(w: string, rest: string)
    requires forall c :: c in w ==> IsWordChar(c)
    requires rest != "" ==> !IsWordChar(rest[0])
    ensures WordLength(w + rest) == |w|
  {
    if w == "" {
      assert w + rest == rest;
    } else {
      assert (w + rest)[1..] == w[1..] + rest;
      WordExtends(w[1..], rest);
    }
  }

  lemma {:induction false} WordSplit(s: string)
    ensures var n := WordLength(s);
            (forall c :: c in s[..n] ==> IsWordChar(c)) && (n < |s| ==> !IsWordChar(s[n]))
  {
    if s != "" && IsWordChar(s[0]) {
      WordSplit(s[1..]);
      var n := WordLength(s);
      assert s[..n] == [s[0]] + s[1..][..n - 1];
    }
  }

  lemma {:induction false} RenderPlain(a: string, b: string, binds: seq<Bind>)
    requires '?' !in a
    ensures Render(a + b, binds) == match Render(b, binds) case None => None case Some(out) => Some(a + out)
  {
    if a == "" {
      assert a + b == b;
      assert Render(b, binds).Some? ==> a + Render(b, binds).value == Render(b, binds).value;
    } else {
      assert (a + b)[1..] == a[1..] + b;
      RenderPlain(a[1..], b, binds);
      if Render(b, binds).Some? {
        assert [a[0]] + (a[1..] + Render(b, binds).value) == a + Render(b, binds).value;
      }
    }
  }

  /** A rendered rest starts as the template does: a `?` cannot come straight after a word or a literal. */
  lemma RenderHead(t: string, binds: seq<Bind>, out: string)
    requires Render(t, binds) == Some(out) && WellPlaced(t, false)
    ensures t == "" ==> out == ""
    ensures t != "" ==> out != "" && out[0] == t[0]
  {}

  lemma LexLiteral(b: Bind, out: string)
    requires Literal(b).Some? && (out != "" ==> Boundary(out[0]))
    ensures Lex(Literal(b).value + out) == Concat(BindTokens(b), Lex(out))
  {
    if b.Text? {
      LexText(b.text, out);
    } else {
      if b.n < 0 {
        LexNegative(b.n, out);
      } else {
        LexNumber(b.n, out);
      }
    }
  }

  lemma LexQuoted(l: string, v: string, rest: string)
    requires l != "" && l[0] == '\'' && Unquote(l[1..]) == Some((v, rest))
    ensures Lex(l) == Cons(Str(v), Lex(rest))
  {}

  lemma LexText(s: string, out: string)
    requires out != "" ==> out[0] != '\''
    ensures Lex("'" + Doubled(s) + "'" + out) == Cons(Str(s), Lex(out))
  {
    OpeningQuote(Doubled(s), out);
    UnquoteDoubled(s, out);
    LexQuoted("'" + Doubled(s) + "'" + out, s, out);
  }

  lemma OpeningQuote(a: string, out: string)
    ensures
      var l := "'" + a + "'" + out;
      l != "" && l[0] == '\'' && l[1..] == a + "'" + out
  {}

  lemma LexNegative(n: int, out: string)
    requires n < 0 && (out != "" ==> !IsWordChar(out[0]))
    ensures Lex(Decimal.Show(n) + out) == Concat(BindTokens(Int(n)), Lex(out))
  {
    LexSigned(Decimal.ShowNat(-n), out);
  }

  lemma LexSigned(w: string, out: string)
    requires w != "" && (forall c :: c in w ==> '0' <= c <= '9') && (out != "" ==> !IsWordChar(out[0]))
    ensures Lex("-" + w + out) == Concat([Sym('-'), Word(w)], Lex(out))
  {
    assert w[0] in w;
    Sign(w, out);
    LexSymbol('-', w + out);
    LexDigits(w, out);
    TwoTokens(Sym('-'), Word(w), Lex(out));
  }

  lemma Sign(w: string, out: string)
    requires w != ""
    ensures "-" + w + out == ['-'] + (w + out) && (w + out)[0] == w[0]
  {}

  lemma TwoTokens(a: Token, b: Token, x: Option<seq<Token>>)
    ensures Cons(a, Cons(b, x)) == Concat([a, b], x)
  {
    if x.Some? {
      assert [a] + ([b] + x.value) == [a, b] + x.value;
    }
  }

  lemma LexNumber(n: nat, out: string)
    requires out != "" ==> !IsWordChar(out[0])
    ensures Lex(Decimal.ShowNat(n) + out) == Cons(Word(Decimal.ShowNat(n)), Lex(out))
  {
    LexDigits(Decimal.ShowNat(n), out);
  }

  lemma LexDigits(w: string, out: string)
    requires w != "" && (forall c :: c in w ==> '0' <= c <= '9') && (out != "" ==> !IsWordChar(out[0]))
    ensures Lex(w + out) == Cons(Word(w), Lex(out))
  {
    var l := w + out;
    assert w[0] in w;
    WordExtends(w, out);
    assert l[..|w|] == w && l[|w|..] == out;
  }

  /**
   Rendering preserves meaning: the rendered statement lexes to the template's tokens with each `?`
   replaced, in order, by one literal whose value is the bind.
   */
  lemma {:induction false} RenderLexes(t: string, free: bool, binds: seq<Bind>)
    requires WellPlaced(t, free) && Render(t, binds).Some? && Lex(t).Some?
    ensures Lex(Render(t, binds).value) == Some(Substitute(Lex(t).value, binds))
    decreases |t|
  {
    if t == "" {
    } else if t[0] == '?' {
      RenderLexesParam(t, binds);
    } else if t[0] == '\'' {
      RenderLexesLiteral(t, binds);
    } else if IsWordChar(t[0]) {
      RenderLexesWord(t, binds);
    } else if OpensComment(t) {
      RenderLexesComment(t, binds);
    } else {
      RenderLexesSymbol(t, binds);
    }
  }

  lemma RenderLexesSymbol(t: string, binds: seq<Bind>)
    requires t != "" && t[0] != '?' && t[0] != '\'' && !IsWordChar(t[0]) && !OpensComment(t)
    requires WellPlaced(t, false) && Render(t, binds).Some? && Lex(t).Some?
    ensures Lex(Render(t, binds).value) == Some(Substitute(Lex(t).value, binds))
    decreases |t|, 0
  {
    assert Lex(t).value[1..] == Lex(t[1..]).value;
    RenderLexes(t[1..], t[0] != '-', binds);
    var out := Render(t[1..], binds).value;
    if t[0] == '-' {
      RenderHead(t[1..], binds, out);
    }
    LexSymbol(t[0], out);
  }

  lemma LexSymbol(c: char, out: string)
    requires c != '\'' && !IsWordChar(c) && (c == '-' && out != "" ==> out[0] != '-')
    ensures Lex([c] + out) == Cons(Sym(c), Lex(out))
  {
    assert ([c] + out)[1..] == out;
  }

  lemma {:induction false} LineSplit(s: string)
    requires s != ""
    ensures var n := LineLength(s);
            (forall i :: 0 <= i < n - 1 ==> !EndsLine(s[i])) && (n < |s| ==> EndsLine(s[n - 1]))
  {
    if !EndsLine(s[0]) && |s| > 1 {
      LineSplit(s[1..]);
      var n := LineLength(s[1..]);
      forall i | 0 <= i < n ensures !EndsLine(s[i]) {
        assert i > 0 ==> s[i] == s[1..][i - 1];
      }
    }
  }

  lemma {:induction false} LineExtends(line: string, out: string)
    requires line != "" && forall i :: 0 <= i < |line| - 1 ==> !EndsLine(line[i])
    requires EndsLine(line[|line| - 1]) || out == ""
    ensures LineLength(line + out) == |line|
  {
    assert (line + out)[1..] == line[1..] + out;
    if |line| > 1 {
      LineExtends(line[1..], out);
    } else {
      assert line[1..] + out == out;
    }
  }

  /** The comment that starts `t`, followed by anything on a line of its own, lexes to itself. */
  lemma LexComment(t: string, out: string)
    requires OpensComment(t) && (LineLength(t) == |t| ==> out == "" || EndsLine(t[|t| - 1]))
    ensures Lex(t[..LineLength(t)] + out) == Cons(Comment, Lex(out))
  {
    var line := t[..LineLength(t)];
    LineSplit(t);
    assert LineLength(t) >= 2;
    LineExtends(line, out);
    var s := line + out;
    assert s[0] == t[0] && s[1] == t[1];
    assert s[|line|..] == out;
  }

  lemma RenderLexesComment(t: string, binds: seq<Bind>)
    requires OpensComment(t) && WellPlaced(t, false) && Render(t, binds).Some? && Lex(t).Some?
    ensures Lex(Render(t, binds).value) == Some(Substitute(Lex(t).value, binds))
    decreases |t|, 0
  {
    var line, rest := t[..LineLength(t)], t[LineLength(t)..];
    assert t == line + rest;
    RenderPlain(line, rest, binds);
    RenderLexes(rest, true, binds);
    LexComment(t, Render(rest, binds).value);
    assert Lex(t).value[1..] == Lex(rest).value;
  }

  lemma RenderLexesParam(t: string, binds: seq<Bind>)
    requires t != "" && t[0] == '?' && WellPlaced(t, true) && Render(t, binds).Some? && Lex(t).Some?
    ensures Lex(Render(t, binds).value) == Some(Substitute(Lex(t).value, binds))
    decreases |t|, 0
  {
    var ts := Lex(t).value;
    assert ts[1..] == Lex(t[1..]).value && ts[0] == Sym('?');
    RenderLexes(t[1..], false, binds[1..]);
    var out := Render(t[1..], binds[1..]).value;
    RenderHead(t[1..], binds[1..], out);
    LexLiteral(binds[0], out);
  }

  /** The literal that starts `t`, on its own, is closed. */
  lemma SpanCloses(t: string)
    requires t != "" && t[0] == '\'' && Unquote(t[1..]).Some?
    ensures
      var (v, rest) := Unquote(t[1..]).value;
      var span := LiteralSpan(t);
      && span != "" && span[0] == '\'' && t == span + rest && t[1..] == span[1..] + rest
      && Unquote(span[1..]) == Some((v, ""))
  {
    var (v, rest) := Unquote(t[1..]).value;
    UnquoteSuffix(t[1..]);
    assert t[1..] == LiteralSpan(t)[1..] + rest;
    UnquoteCut(LiteralSpan(t)[1..], rest, v);
  }

  lemma LexClosed(span: string, v: string, out: string)
    requires span != "" && span[0] == '\'' && Unquote(span[1..]) == Some((v, "")) && (out != "" ==> out[0] != '\'')
    ensures Lex(span + out) == Cons(Str(v), Lex(out))
  {
    UnquoteExtends(span[1..], out);
    TailConcat(span, out);
    LexQuoted(span + out, v, out);
  }

  lemma TailConcat(span: string, out: string)
    requires span != ""
    ensures (span + out)[1..] == span[1..] + out && (span + out)[0] == span[0] && "" + out == out
  {}

  /** A literal of the template, followed by anything but a quote, lexes to itself. */
  lemma LexSpan(t: string, out: string)
    requires t != "" && t[0] == '\'' && Unquote(t[1..]).Some? && (out != "" ==> out[0] != '\'')
    ensures Lex(LiteralSpan(t) + out) == Cons(Str(Unquote(t[1..]).value.0), Lex(out))
  {
    SpanCloses(t);
    LexClosed(LiteralSpan(t), Unquote(t[1..]).value.0, out);
  }

  lemma RenderLexesLiteral(t: string, binds: seq<Bind>)
    requires t != "" && t[0] == '\'' && WellPlaced(t, false) && Render(t, binds).Some? && Lex(t).Some?
    ensures Lex(Render(t, binds).value) == Some(Substitute(Lex(t).value, binds))
    decreases |t|, 0
  {
    var (v, rest) := Unquote(t[1..]).value;
    var span := LiteralSpan(t);
    UnquoteSuffix(t[1..]);
    assert t == span + rest;
    RenderPlain(span, rest, binds);
    var out := Render(rest, binds).value;
    RenderLexes(rest, false, binds);
    RenderHead(rest, binds, out);
    LexSpan(t, out);
    assert Lex(t).value[1..] == Lex(rest).value;
  }

  /** Cutting the text right after a literal still closes it. */
  lemma {:induction false} UnquoteCut(s: string, rest: string, v: string)
    requires Unquote(s + rest) == Some((v, rest))
    ensures Unquote(s) == Some((v, ""))
    decreases |s|
  {
    var t := s + rest;
    if s == "" {
      assert false;
    } else if t[0] == '\'' && |t| > 1 && t[1] == '\'' {
      UnquoteSuffix(t[2..]);
      assert |s| >= 2;
      assert t[2..] == s[2..] + rest;
      UnquoteCut(s[2..], rest, v[1..]);
    } else if t[0] == '\'' {
      assert |s| == 1;
    } else {
      assert t[1..] == s[1..] + rest;
      UnquoteCut(s[1..], rest, v[1..]);
    }
  }

  lemma RenderLexesWord(t: string, binds: seq<Bind>)
    requires t != "" && IsWordChar(t[0]) && WellPlaced(t, false) && Render(t, binds).Some? && Lex(t).Some?
    ensures Lex(Render(t, binds).value) == Some(Substitute(Lex(t).value, binds))
    decreases |t|, 0
  {
    var n := WordLength(t);
    var w, rest := t[..n], t[n..];
    WordSplit(t);
    assert t == w + rest;
    RenderPlain(w, rest, binds);
    var out := Render(rest, binds).value;
    RenderLexes(rest, false, binds);
    RenderHead(rest, binds, out);
    WordExtends(w, out);
    assert (w + out)[..n] == w && (w + out)[n..] == out;
    assert Lex(t).value[1..] == Lex(rest).value;
  }

  /** A well-placed template lexes. */
  lemma {:induction false} WellPlacedLexes(t: string, free: bool)
    requires WellPlaced(t, free)
    ensures Lex(t).Some?
    decreases |t|
  {
    if t != "" {
      if t[0] == '?' {
        WellPlacedLexes(t[1..], false);
      } else if t[0] == '\'' {
        WellPlacedLexes(Unquote(t[1..]).value.1, false);
      } else if IsWordChar(t[0]) {
        WellPlacedLexes(t[WordLength(t)..], false);
      } else if OpensComment(t) {
        WellPlacedLexes(t[LineLength(t)..], true);
      } else {
        WellPlacedLexes(t[1..], t[0] != '-');
      }
    }
  }

  function Params(t: string): nat {
    if t == "" then 0 else (if t[0] == '?' then 1 else 0) + Params(t[1..])
  }

  lemma {:induction false} ParamsConcat(a: string, b: string)
    ensures Params(a + b) == Params(a) + Params(b)
  {
    if a == "" {
      assert a + b == b;
    } else {
      assert (a + b)[1..] == a[1..] + b;
      ParamsConcat(a[1..], b);
    }
  }

  predicate Quotable(b: Bind) { b.Int? || ('\0' !in b.text && '\\' !in b.text) }

  /** Rendering gives up exactly on a wrong number of binds or one it cannot quote. */
  lemma {:induction false} RendersIff(t: string, binds: seq<Bind>)
    ensures Render(t, binds).Some? <==> Params(t) == |binds| && forall b :: b in binds ==> Quotable(b)
  {
    if t != "" {
      if t[0] == '?' && binds != [] {
        RendersIff(t[1..], binds[1..]);
        assert forall b :: b in binds <==> b == binds[0] || b in binds[1..];
        assert Quotable(binds[0]) <==> Literal(binds[0]).Some?;
      } else if t[0] != '?' {
        RendersIff(t[1..], binds);
      }
    }
  }

  /** The string argument of the outer statement reads back as the statement itself. */
  lemma EmbeddedStatement(sql: string)
    ensures Lex(DuckdbString(sql)) == Some([Str(sql)])
  {
    var l := DuckdbString(sql);
    UnquoteDoubled(sql, "");
    assert l[1..] == Doubled(sql) + "'" + "";
    assert [Str(sql)] + [] == [Str(sql)];
  }

  function Prefixed(a: string, r: Option<string>): Option<string> {
    match r case None => None case Some(b) => Some(a + b)
  }

  lemma PrefixedTwice(a: string, b: string, r: Option<string>)
    ensures Prefixed(a, Prefixed(b, r)) == Prefixed(a + b, r)
    ensures Prefixed("", r) == r
  {
    if r.Some? {
      assert a + (b + r.value) == (a + b) + r.value && "" + r.value == r.value;
    }
  }

  /** The rendering loop: copy characters, spend a bind at each `?`. */
  method RenderStatement(sql: string, binds: seq<Bind>) returns (r: Option<string>)
    ensures r == Render(sql, binds)
    ensures r.Some? <==> Params(sql) == |binds| && forall b :: b in binds ==> Quotable(b)
    ensures r.Some? && WellPlaced(sql, true) ==>
              Lex(sql).Some? && Lex(r.value) == Some(Substitute(Lex(sql).value, binds))
  {
    RendersIff(sql, binds);
    if WellPlaced(sql, true) {
      WellPlacedLexes(sql, true);
      if Render(sql, binds).Some? {
        RenderLexes(sql, true, binds);
      }
    }
    var out := "";
    var next := 0;
    assert sql[0..] == sql && binds[0..] == binds;
    PrefixedTwice("", "", Render(sql, binds));
    for i := 0 to |sql|
      invariant next <= |binds|
      invariant Render(sql, binds) == Prefixed(out, Render(sql[i..], binds[next..]))
    {
      assert sql[i..][0] == sql[i] && sql[i..][1..] == sql[i + 1..];
      if sql[i] == '?' {
        assert next < |binds| ==> binds[next..][0] == binds[next] && binds[next..][1..] == binds[next + 1..];
        if next == |binds| || Literal(binds[next]).None? {
          return None;
        }
        PrefixedTwice(out, Literal(binds[next]).value, Render(sql[i + 1..], binds[next + 1..]));
        out := out + Literal(binds[next]).value;
        next := next + 1;
      } else {
        PrefixedTwice(out, [sql[i]], Render(sql[i + 1..], binds[next..]));
        out := out + [sql[i]];
      }
    }
    assert sql[|sql|..] == "" && out + "" == out;
    return if next == |binds| then Some(out) else None;
  }
}

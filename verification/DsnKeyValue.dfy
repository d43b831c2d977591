/** Appending ` key=value` to a key/value connection string (escurel-index/src/dsn.rs, `with_param`). */
module DsnKeyValue {

  import opened Wrappers
  import opened Dsn

  predicate PlainKey(k: string) { k != "" && forall c :: c in k ==> !EndsKey(c) }

  /** A value that reads as itself without quotes. */
  predicate PlainValue(v: string) {
    (v == "" || v[0] != '\'') && forall c :: c in v ==> !IsSpace(c) && c != '\\'
  }

  // ---- The parser goes on where it left off ----

  lemma {:induction false} SkipConcat(s: string, x: string)
    ensures Skip(s + x) == if Skip(s) == "" then Skip(x) else Skip(s) + x
  {
    if s == "" {
      assert s + x == x;
    } else {
      assert (s + x)[1..] == s[1..] + x;
      if IsSpace(s[0]) {
        SkipConcat(s[1..], x);
      }
    }
  }

  lemma {:induction false} KeyLengthConcat(s: string, x: string)
    requires KeyLength(s) < |s|
    ensures KeyLength(s + x) == KeyLength(s)
  {
    assert (s + x)[1..] == s[1..] + x;
    if !EndsKey(s[0]) {
      KeyLengthConcat(s[1..], x);
    }
  }

  lemma CutConcat(t: string, x: string, n: nat)
    requires n <= |t|
    ensures (t + x)[..n] == t[..n] && (t + x)[n..] == t[n..] + x
  {}

  lemma SeparatedConcat(key: string, u: string, x: string)
    requires Separated(key, u).Some?
    ensures
      var w := Separated(key, u).value.1;
      Separated(key, u + x) == Some((key, if w == "" then Skip(x) else w + x))
  {
    assert (u + x)[1..] == u[1..] + x;
    SkipConcat(u[1..], x);
  }

  lemma AfterKeyConcat(t: string, x: string)
    requires AfterKey(t).Some?
    ensures
      var (k, w) := AfterKey(t).value;
      AfterKey(t + x) == Some((k, if w == "" then Skip(x) else w + x))
  {
    var n := KeyLength(t);
    KeyLengthConcat(t, x);
    CutConcat(t, x, n);
    SkipConcat(t[n..], x);
    SeparatedConcat(t[..n], Skip(t[n..]), x);
  }

  lemma {:induction false} QuotedConcat(s: string, x: string)
    requires QuotedValue(s).Ok?
    ensures QuotedValue(s + x) == Ok((QuotedValue(s).value.0, QuotedValue(s).value.1 + x))
  {
    assert (s + x)[1..] == s[1..] + x;
    if s[0] == '\\' {
      assert (s + x)[2..] == s[2..] + x;
      QuotedConcat(s[2..], x);
    } else if s[0] != '\'' {
      QuotedConcat(s[1..], x);
    }
  }

  lemma {:induction false} BareConcat(s: string, x: string)
    requires BareValue(s).Ok? && x != "" && IsSpace(x[0])
    ensures BareValue(s + x) == Ok((BareValue(s).value.0, BareValue(s).value.1 + x))
  {
    if s == "" {
      assert s + x == x;
    } else {
      assert (s + x)[1..] == s[1..] + x;
      if s[0] == '\\' {
        assert (s + x)[2..] == s[2..] + x;
        BareConcat(s[2..], x);
      } else if !IsSpace(s[0]) {
        BareConcat(s[1..], x);
      }
    }
  }

  lemma ValueConcat(w: string, x: string)
    requires w != "" && Value(w).Ok? && x != "" && IsSpace(x[0])
    ensures Value(w + x) == Ok((Value(w).value.0, Value(w).value.1 + x))
  {
    if w[0] == '\'' {
      assert (w + x)[1..] == w[1..] + x;
      QuotedConcat(w[1..], x);
    } else {
      BareConcat(w, x);
    }
  }

  /** The string breaks off after a `=`: whatever is appended becomes the value. */
  predicate Dangling(s: string)
    decreases |s|
  {
    var t := Skip(s);
    && t != ""
    && AfterKey(t).Some?
    && var w := AfterKey(t).value.1;
       w == "" || (Value(w).Ok? && Dangling(Value(w).value.1))
  }

  lemma {:induction false} ParsesOn(d: string, x: string)
    requires KeyValue(d).Ok? && !Dangling(d) && x != "" && IsSpace(x[0])
    ensures KeyValue(d + x) == Prefixed(KeyValue(d).value, KeyValue(x))
    decreases |d|
  {
    var t := Skip(d);
    SkipConcat(d, x);
    if t == "" {
      PrefixedTwice([], [], KeyValue(x));
      assert Skip(d + x) == Skip(x);
    } else {
      var (k, w) := AfterKey(t).value;
      var (v, rest) := Value(w).value;
      AfterKeyConcat(t, x);
      ValueConcat(w, x);
      ParsesOn(rest, x);
      PrefixedTwice([(k, v)], KeyValue(rest).value, KeyValue(x));
    }
  }

  // ---- Lengths ----

  function Size(ps: seq<Pair>): nat {
    if ps == [] then 0 else |ps[0].0| + 1 + |ps[0].1| + Size(ps[1..])
  }

  /** Every pair takes at least its own text. */
  lemma {:induction false} SizeWithin(s: string)
    requires KeyValue(s).Ok?
    ensures Size(KeyValue(s).value) <= |s|
    decreases |s|
  {
    var t := Skip(s);
    if t != "" {
      var (k, w) := AfterKey(t).value;
      var (v, rest) := Value(w).value;
      SizeWithin(rest);
      assert KeyValue(s).value[1..] == KeyValue(rest).value;
    }
  }

  lemma OnePairSize(k: string, v: string)
    ensures Size([(k, v)]) == |k| + 1 + |v|
  {
    assert [(k, v)][1..] == [];
  }

  /** A value read from text that is there is not empty, unless it was quoted. */
  lemma BareNotEmpty(w: string)
    requires w != "" && !IsSpace(w[0]) && BareValue(w).Ok?
    ensures BareValue(w).value.0 != ""
  {}

  lemma {:induction false} DanglingChanges(d: string, r: string, k: string, v: string)
    requires KeyValue(d).Ok? && Dangling(d) && Skip(r) != "" && |r| <= |k| + 1 + |v|
    ensures KeyValue(d + (" " + r)) != Ok(KeyValue(d).value + [(k, v)])
    decreases |d|
  {
    var x := " " + r;
    var t := Skip(d);
    var (key, w) := AfterKey(t).value;
    SkipConcat(d, x);
    AfterKeyConcat(t, x);
    assert x[1..] == r;
    if w == "" {
      DanglingEnd(d, r, k, v);
    } else {
      var (value, rest) := Value(w).value;
      ValueConcat(w, x);
      DanglingChanges(rest, r, k, v);
      var ps := KeyValue(rest).value;
      assert KeyValue(d).value == [(key, value)] + ps;
      TailsDiffer((key, value), ps + [(k, v)], KeyValue(rest + x));
      assert [(key, value)] + ps + [(k, v)] == [(key, value)] + (ps + [(k, v)]);
    }
  }

  lemma TailsDiffer(p: Pair, ps: seq<Pair>, r: Parsed)
    requires r != Ok(ps)
    ensures Prefixed([p], r) != Ok([p] + ps)
  {
    assert ([p] + ps)[1..] == ps;
    if r.Ok? {
      assert ([p] + r.value)[1..] == r.value;
    }
  }

  lemma DanglingEnd(d: string, r: string, k: string, v: string)
    requires KeyValue(d).Ok? && Skip(d) != "" && AfterKey(Skip(d)).Some? && AfterKey(Skip(d)).value.1 == ""
    requires Skip(r) != "" && |r| <= |k| + 1 + |v|
    ensures KeyValue(d + (" " + r)) != Ok(KeyValue(d).value + [(k, v)])
  {
    var x := " " + r;
    var t := Skip(d);
    var key := AfterKey(t).value.0;
    SkipConcat(d, x);
    AfterKeyConcat(t, x);
    assert x[1..] == r;
    var y := Skip(r);
    assert AfterKey(t + x) == Some((key, y));
    assert KeyValue(d).value == [(key, "")];
    if KeyValue(d + x) == Ok([(key, "")] + [(k, v)]) {
      var (value, rest) := Value(y).value;
      assert KeyValue(d + x).value[1..] == KeyValue(rest).value;
      assert value == "" && KeyValue(rest) == Ok([(k, v)]);
      if y[0] != '\'' {
        BareNotEmpty(y);
      }
      SizeWithin(rest);
      OnePairSize(k, v);
    }
  }

  // ---- One pair and nothing else ----

  lemma {:induction false} KeyIsPlain(s: string)
    ensures forall c :: c in s[..KeyLength(s)] ==> !EndsKey(c)
  {
    if s != "" && !EndsKey(s[0]) {
      KeyIsPlain(s[1..]);
      assert s[..KeyLength(s)] == [s[0]] + s[1..][..KeyLength(s[1..])];
    }
  }

  lemma {:induction false} KeyLengthPlain(k: string, x: string)
    requires (forall c :: c in k ==> !EndsKey(c)) && x != "" && EndsKey(x[0])
    ensures KeyLength(k + x) == |k|
  {
    if k == "" {
      assert k + x == x;
    } else {
      assert (k + x)[1..] == k[1..] + x;
      KeyLengthPlain(k[1..], x);
    }
  }

  /** A bare value as long as the text it took is that text. */
  lemma {:induction false} BareIsText(w: string)
    requires BareValue(w).Ok? && |BareValue(w).value.0| + |BareValue(w).value.1| == |w|
    ensures
      var v := BareValue(w).value.0;
      v <= w && forall c :: c in v ==> !IsSpace(c) && c != '\\'
  {
    if w != "" && !IsSpace(w[0]) && w[0] != '\\' {
      BareIsText(w[1..]);
    }
  }

  lemma {:induction false} PlainIsBare(v: string)
    requires forall c :: c in v ==> !IsSpace(c) && c != '\\'
    ensures BareValue(v) == Ok((v, ""))
  {
    if v != "" {
      assert forall c :: c in v[1..] ==> c in v;
      assert v[0] in v;
      PlainIsBare(v[1..]);
      assert [v[0]] + v[1..] == v;
    }
  }

  lemma ValueIsPlain(w: string)
    requires Value(w).Ok? && |Value(w).value.0| + |Value(w).value.1| == |w|
    ensures PlainValue(Value(w).value.0)
  {
    if w == "" || w[0] != '\'' {
      BareIsText(w);
    }
  }

  lemma OnePair(r: string, k: string, v: string) returns (w: string)
    requires KeyValue(r) == Ok([(k, v)])
    ensures Skip(r) != "" && AfterKey(Skip(r)) == Some((k, w)) && Value(w).Ok? && Value(w).value.0 == v
  {
    w := AfterKey(Skip(r)).value.1;
    assert KeyValue(r).value[0] == (AfterKey(Skip(r)).value.0, Value(w).value.0);
  }

  lemma PairIsPlain(r: string, k: string, v: string)
    requires KeyValue(r) == Ok([(k, v)]) && |r| <= |k| + 1 + |v|
    ensures PlainKey(k) && PlainValue(v)
  {
    var w := OnePair(r, k, v);
    KeyIsPlain(Skip(r));
    assert |k| + |w| < |Skip(r)|;
    ValueIsPlain(w);
  }

  lemma PlainIsPair(k: string, v: string)
    requires PlainKey(k) && PlainValue(v)
    ensures KeyValue(k + ("=" + v)) == Ok([(k, v)])
  {
    var s := k + ("=" + v);
    assert s[0] == k[0] && k[0] in k;
    KeyLengthPlain(k, "=" + v);
    assert s[..|k|] == k && s[|k|..] == "=" + v && ("=" + v)[1..] == v;
    if v != "" {
      assert v[0] in v;
    }
    PlainIsBare(v);
    assert AfterKey(s) == Some((k, v));
    PrefixedTwice([(k, v)], [], Ok([]));
    assert KeyValue("") == Ok([]);
  }

  // ---- When a string dangles ----

  /** The last pair is empty and nothing stands after its `=`. */
  predicate EndsEmpty(d: string, ps: seq<Pair>) {
    ps != [] && ps[|ps| - 1].1 == "" && d != "" && d[|d| - 1] == '='
  }

  predicate Trimmed(s: string) { s == "" || !IsSpace(s[|s| - 1]) }

  predicate Suffix(r: string, s: string) { |r| <= |s| && s[|s| - |r|..] == r }

  lemma SuffixTrans(a: string, b: string, c: string)
    requires Suffix(a, b) && Suffix(b, c)
    ensures Suffix(a, c)
  {
    assert c[|c| - |a|..] == c[|c| - |b|..][|b| - |a|..];
  }

  lemma {:induction false} SkipSuffix(s: string)
    ensures Suffix(Skip(s), s)
  {
    if s != "" && IsSpace(s[0]) {
      SkipSuffix(s[1..]);
      SuffixTrans(Skip(s), s[1..], s);
    }
  }

  lemma {:induction false} QuotedSuffix(s: string)
    requires QuotedValue(s).Ok?
    ensures Suffix(QuotedValue(s).value.1, s)
    ensures QuotedValue(s).value.1 == "" ==> s[|s| - 1] == '\''
  {
    if s[0] == '\\' {
      QuotedSuffix(s[2..]);
      SuffixTrans(QuotedValue(s).value.1, s[2..], s);
    } else if s[0] != '\'' {
      QuotedSuffix(s[1..]);
      SuffixTrans(QuotedValue(s).value.1, s[1..], s);
    }
  }

  lemma {:induction false} BareSuffix(s: string)
    requires BareValue(s).Ok?
    ensures Suffix(BareValue(s).value.1, s)
  {
    if s != "" && !IsSpace(s[0]) {
      if s[0] == '\\' {
        BareSuffix(s[2..]);
        SuffixTrans(BareValue(s).value.1, s[2..], s);
      } else {
        BareSuffix(s[1..]);
        SuffixTrans(BareValue(s).value.1, s[1..], s);
      }
    }
  }

  lemma ValueSuffix(w: string)
    requires Value(w).Ok?
    ensures Suffix(Value(w).value.1, w)
    ensures w != "" && w[0] == '\'' && Value(w).value.1 == "" ==> w[|w| - 1] == '\''
  {
    if w != "" && w[0] == '\'' {
      QuotedSuffix(w[1..]);
      SuffixTrans(Value(w).value.1, w[1..], w);
    } else {
      BareSuffix(w);
    }
  }

  lemma AfterKeySuffix(t: string)
    requires AfterKey(t).Some?
    ensures Suffix(AfterKey(t).value.1, t)
  {
    var u := SeparatorOn(t);
    SkipSuffix(u[1..]);
    SuffixTrans(Skip(u[1..]), u[1..], u);
    SuffixTrans(Skip(u[1..]), u, t);
  }

  /** The text from the separating `=` on. */
  lemma SeparatorOn(t: string) returns (u: string)
    requires AfterKey(t).Some?
    ensures Suffix(u, t) && u != "" && u[0] == '=' && AfterKey(t).value.1 == Skip(u[1..])
  {
    var n := KeyLength(t);
    u := Skip(t[n..]);
    SkipSuffix(t[n..]);
    SuffixTrans(u, t[n..], t);
  }

  lemma EndsInSeparator(t: string)
    requires AfterKey(t).Some? && AfterKey(t).value.1 == "" && Trimmed(t)
    ensures t != "" && t[|t| - 1] == '='
  {
    var u := SeparatorOn(t);
    TrimmedSuffix(u, t);
    assert Suffix(u[1..], u);
    TrimmedSuffix(u[1..], u);
    NothingLeft(u[1..]);
  }

  /** Trimmed text that is all white space is empty. */
  lemma NothingLeft(s: string)
    requires Skip(s) == "" && Trimmed(s)
    ensures s == ""
  {
    assert s != "" ==> s[|s| - 1] in s;
    AllSpace(s);
  }

  lemma {:induction false} AllSpace(s: string)
    requires Skip(s) == ""
    ensures forall c :: c in s ==> IsSpace(c)
  {
    if s != "" {
      AllSpace(s[1..]);
    }
  }

  lemma TrimmedSuffix(r: string, s: string)
    requires Suffix(r, s) && Trimmed(s)
    ensures Trimmed(r) && (r != "" ==> s != "" && r[|r| - 1] == s[|s| - 1])
  {}

  /** For trimmed text that parses, dangling can be read off the pairs and the last character. */
  lemma {:induction false} DanglingIff(d: string)
    requires KeyValue(d).Ok? && Trimmed(d)
    ensures Dangling(d) <==> EndsEmpty(d, KeyValue(d).value)
    decreases |d|
  {
    var t := Skip(d);
    SkipSuffix(d);
    if t != "" {
      TrimmedSuffix(t, d);
      var (key, w) := AfterKey(t).value;
      if w == "" {
        EndsInSeparator(t);
        assert KeyValue(d).value == [(key, "")];
      } else {
        AfterKeySuffix(t);
        SuffixTrans(w, t, d);
        TrimmedSuffix(w, d);
        var rest := Value(w).value.1;
        ValueSuffix(w);
        SuffixTrans(rest, w, d);
        TrimmedSuffix(rest, d);
        DanglingIff(rest);
        PairStep(d, key, w);
        LastPair(d, w, rest, key, Value(w).value.0, KeyValue(rest).value);
      }
    }
  }

  lemma PairStep(d: string, key: string, w: string)
    requires Skip(d) != "" && AfterKey(Skip(d)) == Some((key, w)) && w != "" && !IsSpace(w[0])
    requires KeyValue(d).Ok? && Value(w).Ok? && Trimmed(Value(w).value.1)
    ensures
      var (v, rest) := Value(w).value;
      && KeyValue(rest).Ok? && KeyValue(d).value == [(key, v)] + KeyValue(rest).value
      && (KeyValue(rest).value == [] <==> rest == "")
      && (rest == "" && v == "" ==> w[|w| - 1] == '\'')
  {
    var rest := Value(w).value.1;
    if KeyValue(rest) == Ok([]) {
      NothingLeft(rest);
    }
    ValueSuffix(w);
    if w[0] != '\'' {
      BareNotEmpty(w);
    }
  }

  lemma LastPair(d: string, w: string, rest: string, key: string, v: string, ps: seq<Pair>)
    requires d != "" && w != "" && d[|d| - 1] == w[|w| - 1] && (rest != "" ==> d[|d| - 1] == rest[|rest| - 1])
    requires ps == [] <==> rest == ""
    requires rest == "" && v == "" ==> w[|w| - 1] == '\''
    ensures EndsEmpty(d, [(key, v)] + ps) <==> EndsEmpty(rest, ps)
  {
    if ps != [] {
      assert ([(key, v)] + ps)[|ps|] == ps[|ps| - 1];
    }
  }
}

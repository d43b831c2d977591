/** Appending a parameter commutes with parsing: exactly when (escurel-index/src/dsn.rs, `with_param`). */
module DsnAppend {

  import opened Wrappers
  import opened Dsn
  import opened DsnKeyValue
  import opened DsnUri
  import Utf8

  // ---- Trimming ----

  lemma {:induction false} TrimEndMeans(s: string)
    ensures Trimmed(TrimEnd(s)) && TrimEnd(s) <= s && (Trimmed(s) ==> TrimEnd(s) == s)
  {
    if s != "" && IsSpace(s[|s| - 1]) {
      TrimEndMeans(s[..|s| - 1]);
    }
  }

  lemma {:induction false} TrimEndConcat(a: string, b: string)
    requires TrimEnd(b) != ""
    ensures TrimEnd(a + b) == a + TrimEnd(b)
  {
    if IsSpace(b[|b| - 1]) {
      assert (a + b)[..|a + b| - 1] == a + b[..|b| - 1];
      TrimEndConcat(a, b[..|b| - 1]);
    }
  }

  lemma {:induction false} TrimEndKeeps(s: string, c: char)
    requires c in s && !IsSpace(c)
    ensures c in TrimEnd(s)
  {
    if IsSpace(s[|s| - 1]) {
      assert s == s[..|s| - 1] + [s[|s| - 1]];
      TrimEndKeeps(s[..|s| - 1], c);
    }
  }

  lemma {:induction false} SkipKeeps(s: string, c: char)
    requires c in s && !IsSpace(c)
    ensures c in Skip(s)
  {
    if IsSpace(s[0]) {
      SkipKeeps(s[1..], c);
    }
  }

  /** Trimmed at both ends. */
  predicate Tidy(s: string) { Trimmed(s) && (s == "" || !IsSpace(s[0])) }

  lemma TidyTrims(s: string)
    requires Tidy(s)
    ensures Trim(s) == s
  {
    TrimEndMeans(s);
  }

  lemma TrimTidies(s: string)
    ensures Tidy(Trim(s)) && |Trim(s)| <= |s|
  {
    TrimEndMeans(Skip(s));
  }

  // ---- Schemes ----

  lemma NoneOf(scheme: string, d: string, c: char, x: string)
    requires c !in scheme && scheme <= d + ([c] + x)
    ensures scheme <= d
  {
    assert (d + ([c] + x))[|d|] == c;
  }

  lemma SchemeText(c: char)
    requires c == ' ' || c == '=' || c == '?'
    ensures c !in Schemes()[0] && c !in Schemes()[1] && c !in Schemes()[2]
  {}

  /** A string is a URI or not whatever follows a character no scheme has. */
  lemma SchemeDecided(d: string, c: char, x: string)
    requires c == ' ' || c == '='
    ensures UriRest(d + ([c] + x)).Some? <==> UriRest(d).Some?
  {
    SchemeText(c);
    var s := d + ([c] + x);
    assert d <= s;
    if Schemes()[0] <= s { NoneOf(Schemes()[0], d, c, x); }
    if Schemes()[1] <= s { NoneOf(Schemes()[1], d, c, x); }
    if Schemes()[2] <= s { NoneOf(Schemes()[2], d, c, x); }
  }

  lemma SchemeKept(d: string, y: string)
    requires UriRest(d).Some?
    ensures UriRest(d + y) == Some(UriRest(d).value + y)
    ensures '?' in d <==> '?' in UriRest(d).value
    ensures d[0] == 'p' || d[0] == 'm'
  {
    SchemeText('?');
    var scheme := if Schemes()[0] <= d then Schemes()[0] else if Schemes()[1] <= d then Schemes()[1] else Schemes()[2];
    assert scheme <= d <= d + y;
    assert d == scheme + UriRest(d).value;
    assert (d + y)[|scheme|..] == UriRest(d).value + y;
    OneScheme(d, d + y);
  }

  lemma OneScheme(d: string, s: string)
    requires d <= s
    ensures Schemes()[1] <= d ==> !(Schemes()[0] <= s)
    ensures Schemes()[2] <= d ==> !(Schemes()[0] <= s) && !(Schemes()[1] <= s)
  {
    assert Schemes()[1][8] == ':' && Schemes()[0][8] == 'q';
    if Schemes()[2] <= d {
      assert d[0] == 'm';
    }
  }

  // ---- URI form ----

  lemma Assemble(a: string, b: string, c: string, d: string)
    ensures a + b + c + "=" + d == a + (b + (c + "=" + d))
  {}

  lemma EndsClean(k: string, v: string)
    ensures Trimmed(k + "=" + EscapeAll(Utf8.Encode(v)))
  {
    var e := EscapeAll(Utf8.Encode(v));
    EscapeAllClean(Utf8.Encode(v));
    if e != "" {
      assert e[|e| - 1] in e;
    }
  }

  /** For a URI that parses, any value and any key: the pair is appended exactly when the key has no `=`, `&` or `%`. */
  lemma AppendToUri(dsn: string, k: string, v: string)
    requires UriRest(Trim(dsn)).Some? && ParsePairs(dsn).Ok?
    ensures ParsePairs(WithParam(dsn, k, v)) == Ok(ParsePairs(dsn).value + [(k, v)]) <==>
              '=' !in k && '&' !in k && '%' !in k
  {
    var d := Trim(dsn);
    var rest := UriRest(d).value;
    var x := k + "=" + EscapeAll(Utf8.Encode(v));
    var sep := if '?' in d then "&" else "?";
    var out := WithParam(dsn, k, v);
    Assemble(d, sep, k, EscapeAll(Utf8.Encode(v)));
    assert out == d + (sep + x);
    EndsClean(k, v);
    SchemeKept(d, sep + x);
    assert Tidy(out);
    TidyTrims(out);
    UriParsesOn(rest, x);
    ParameterIff(k, v);
    AppendIff(Uri(rest).value, Parameters(DsnUri.Text.Split(x, '&')), (k, v));
  }

  lemma AppendIff(ps: seq<Pair>, r: Parsed, p: Pair)
    ensures Prefixed(ps, r) == Ok(ps + [p]) <==> r == Ok([p])
  {
    if r.Ok? && ps + r.value == ps + [p] {
      assert r.value == (ps + r.value)[|ps|..] == (ps + [p])[|ps|..] == [p];
    }
  }

  // ---- Key/value form ----

  /** The text of one pair, read on its own, is that pair exactly when both sides are plain. */
  lemma PairIff(k: string, v: string, r: string)
    requires r == TrimEnd(k + ("=" + v)) || r == Trim(k + ("=" + v))
    ensures KeyValue(r) == Ok([(k, v)]) <==> PlainKey(k) && PlainValue(v)
  {
    var s := k + ("=" + v);
    TrimEndMeans(s);
    TrimTidies(s);
    if PlainKey(k) && PlainValue(v) {
      assert k[0] in k && s[0] == k[0];
      if v != "" {
        assert v[|v| - 1] in v && s[|s| - 1] == v[|v| - 1];
      }
      TidyTrims(s);
      PlainIsPair(k, v);
    }
    if KeyValue(r) == Ok([(k, v)]) {
      PairIsPlain(r, k, v);
    }
  }

  lemma FixedKeysNoScheme(k: string, v: string)
    requires FixedKey(k)
    ensures UriRest(Trim(k + ("=" + v))).None?
  {
    var s := k + ("=" + v);
    TrimEndKeepsFront(k, "=" + v);
    var t := Trim(s);
    assert k <= t;
    SchemeMismatch(k, t);
  }

  lemma TrimEndKeepsFront(k: string, x: string)
    requires FixedKey(k) && x != "" && x[0] == '='
    ensures k <= Trim(k + x)
  {
    TrimEndKeeps(x, '=');
    TrimEndConcat(k, x);
  }

  lemma SchemeMismatch(k: string, t: string)
    requires FixedKey(k) && k <= t
    ensures UriRest(t).None?
  {
    assert k == "password" ==> t[1] == 'a';
    assert k == "port" ==> t[2] == 'r';
    assert t[0] == k[0];
  }

  /** The text of a pair that happens to be a URI never parses to that pair. */
  lemma UriIsNotPair(k: string, v: string)
    requires UriRest(Trim(k + ("=" + v))).Some?
    ensures Uri(UriRest(Trim(k + ("=" + v))).value) != Ok([(k, v)])
  {
    var s := k + ("=" + v);
    var t := Trim(s);
    var rest := UriRest(t).value;
    if Uri(rest) == Ok([(k, v)]) {
      assert (k, v) in Uri(rest).value;
      UriPairs(rest);
      if FixedKey(k) {
        FixedKeysNoScheme(k, v);
      } else {
        PairBytes(k, v);
        TrimBytes(s);
        RestBytes(t);
      }
    }
  }

  lemma PairBytes(k: string, v: string)
    ensures Bytes(k + ("=" + v)) == Bytes(k) + 1 + Bytes(v)
  {
    BytesConcat(k, "=" + v);
    BytesConcat("=", v);
    assert "="[1..] == "";
  }

  lemma {:induction false} SkipBytes(s: string)
    ensures Bytes(Skip(s)) <= Bytes(s)
  {
    if s != "" && IsSpace(s[0]) {
      SkipBytes(s[1..]);
    }
  }

  lemma TrimBytes(s: string)
    ensures Bytes(Trim(s)) <= Bytes(s)
  {
    SkipBytes(s);
    var t := Skip(s);
    TrimEndMeans(t);
    assert t == TrimEnd(t) + t[|TrimEnd(t)|..];
    BytesConcat(TrimEnd(t), t[|TrimEnd(t)|..]);
  }

  lemma RestBytes(t: string)
    requires UriRest(t).Some?
    ensures Bytes(UriRest(t).value) < Bytes(t)
  {
    var rest := UriRest(t).value;
    assert t == t[..|t| - |rest|] + rest;
    BytesConcat(t[..|t| - |rest|], rest);
  }

  /**
   For a key/value string that parses, the pair is appended exactly when key and value are plain, the string
   does not end in an empty unquoted value, and an empty string is not turned into a URI by the key.
   */
  lemma AppendToKeyValue(dsn: string, k: string, v: string)
    requires UriRest(Trim(dsn)).None? && ParsePairs(dsn).Ok?
    ensures ParsePairs(WithParam(dsn, k, v)) == Ok(ParsePairs(dsn).value + [(k, v)]) <==>
              && PlainKey(k) && PlainValue(v)
              && !EndsEmpty(Trim(dsn), ParsePairs(dsn).value)
              && (Trim(dsn) == "" ==> UriRest(k).None?)
  {
    TrimTidies(dsn);
    AppendedText(Trim(dsn), k, v);
    AppendToTidy(Trim(dsn), k, v);
  }

  lemma AppendToTidy(d: string, k: string, v: string)
    requires Tidy(d) && UriRest(d).None? && KeyValue(d).Ok?
    ensures ParsePairs(d + (" " + (k + ("=" + v)))) == Ok(KeyValue(d).value + [(k, v)]) <==>
              && PlainKey(k) && PlainValue(v)
              && !EndsEmpty(d, KeyValue(d).value)
              && (d == "" ==> UriRest(k).None?)
  {
    var s := k + ("=" + v);
    if d == "" {
      AppendToNothing(k, v);
      assert d + (" " + s) == " " + s;
      assert KeyValue(d).value == [] && [] + [(k, v)] == [(k, v)];
    } else {
      DanglingIff(d);
      AppendToSome(d, k, v);
    }
  }

  lemma AppendedText(d: string, k: string, v: string)
    ensures d + " " + k + "=" + v == d + (" " + (k + ("=" + v)))
  {}

  lemma AppendToNothing(k: string, v: string)
    ensures ParsePairs(" " + (k + ("=" + v))) == Ok([(k, v)]) <==>
              PlainKey(k) && PlainValue(v) && UriRest(k).None?
  {
    var s := k + ("=" + v);
    assert (" " + s)[1..] == s;
    assert Trim(" " + s) == Trim(s);
    PairIff(k, v, Trim(s));
    if UriRest(Trim(s)).Some? {
      UriIsNotPair(k, v);
    }
    if PlainKey(k) && PlainValue(v) {
      PlainTidy(k, v);
      SchemeDecided(k, '=', v);
    }
  }

  lemma PlainTidy(k: string, v: string)
    requires PlainKey(k) && PlainValue(v)
    ensures Trim(k + ("=" + v)) == k + ("=" + v)
  {
    var s := k + ("=" + v);
    assert k[0] in k && s[0] == k[0];
    if v != "" {
      assert v[|v| - 1] in v && s[|s| - 1] == v[|v| - 1];
    }
    TidyTrims(s);
  }

  lemma TrimAppended(d: string, k: string, v: string)
    requires d != "" && !IsSpace(d[0])
    ensures
      var r := TrimEnd(k + ("=" + v));
      Trim(d + (" " + (k + ("=" + v)))) == d + (" " + r) && '=' in r && |r| <= |k| + 1 + |v|
  {
    var s := k + ("=" + v);
    assert s[|k|] == '=';
    TrimEndKeeps(s, '=');
    TrimEndMeans(s);
    TrimEndConcat(d + " ", s);
    assert d + (" " + s) == d + " " + s && d + " " + TrimEnd(s) == d + (" " + TrimEnd(s));
  }

  lemma ParsesOnIff(d: string, r: string, k: string, v: string)
    requires KeyValue(d).Ok? && '=' in r && |r| <= |k| + 1 + |v|
    ensures KeyValue(d + (" " + r)) == Ok(KeyValue(d).value + [(k, v)]) <==>
              !Dangling(d) && KeyValue(r) == Ok([(k, v)])
  {
    if Dangling(d) {
      SkipKeeps(r, '=');
      DanglingChanges(d, r, k, v);
    } else {
      ParsesOn(d, " " + r);
      assert (" " + r)[1..] == r;
      assert KeyValue(" " + r) == KeyValue(r);
      AppendIff(KeyValue(d).value, KeyValue(r), (k, v));
    }
  }

  lemma AppendToSome(d: string, k: string, v: string)
    requires d != "" && Tidy(d) && UriRest(d).None? && KeyValue(d).Ok?
    ensures ParsePairs(d + (" " + (k + ("=" + v)))) == Ok(KeyValue(d).value + [(k, v)]) <==>
              PlainKey(k) && PlainValue(v) && !Dangling(d)
  {
    var r := TrimEnd(k + ("=" + v));
    TrimAppended(d, k, v);
    SchemeDecided(d, ' ', r);
    ParsesOnIff(d, r, k, v);
    PairIff(k, v, r);
  }
}

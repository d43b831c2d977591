/** Appending a query parameter to a URI connection string (escurel-index/src/dsn.rs, `with_param`). */
module DsnUri {

  import opened Wrappers
  import opened Text
  import opened Dsn
  import Utf8

  function Bytes(s: string): nat { |Utf8.Encode(s)| }

  lemma BytesConcat(a: string, b: string)
    ensures Bytes(a + b) == Bytes(a) + Bytes(b)
  {
    Utf8.EncodeConcat(a, b);
  }

  // ---- Percent-encoding ----

  lemma {:induction false} UnescapeLength(b: seq<Utf8.Byte>)
    requires Unescape(b).Some?
    ensures |Unescape(b).value| <= |b|
    ensures '%' as int in b ==> |Unescape(b).value| < |b|
    ensures '%' as int !in b ==> Unescape(b).value == b
  {
    if b != [] {
      if b[0] != '%' as int {
        UnescapeLength(b[1..]);
        assert b == [b[0]] + b[1..];
      } else {
        UnescapeLength(b[3..]);
      }
    }
  }

  lemma {:induction false} UnescapePlain(b: seq<Utf8.Byte>)
    requires '%' as int !in b
    ensures Unescape(b) == Some(b)
  {
    if b != [] {
      UnescapePlain(b[1..]);
      assert b == [b[0]] + b[1..];
    }
  }

  /** Decoding never makes text longer, and leaves exactly the text without `%` as it is. */
  lemma DecodeMeans(s: string)
    ensures PercentDecode(s).Ok? ==> Bytes(PercentDecode(s).value) <= Bytes(s)
    ensures PercentDecode(s) == Ok(s) <==> '%' !in s
  {
    var b := Utf8.Encode(s);
    Utf8.AsciiOccurs(s, '%');
    if '%' !in s {
      UnescapePlain(b);
      Utf8.DecodeEncode(s);
    }
    if PercentDecode(s).Ok? {
      UnescapeLength(b);
      Utf8.EncodeDecode(Unescape(b).value);
    }
  }

  lemma EscapeClean(b: Utf8.Byte)
    ensures forall c :: c in Escape(b) ==> c as int < 0x80 && !IsSpace(c) && c != '&'
    ensures Escape(b) != ""
  {}

  lemma {:induction false} EscapeAllClean(b: seq<Utf8.Byte>)
    ensures forall c :: c in EscapeAll(b) ==> c as int < 0x80 && !IsSpace(c) && c != '&'
  {
    if b != [] {
      EscapeClean(b[0]);
      EscapeAllClean(b[1..]);
    }
  }

  lemma HexRoundTrip(b: Utf8.Byte)
    ensures HexByte(HexChar(b / 16) as int, HexChar(b % 16) as int) == Some(b)
  {
    HexDigitRoundTrip(b / 16);
    HexDigitRoundTrip(b % 16);
  }

  lemma HexDigitRoundTrip(n: nat)
    requires n < 16
    ensures HexChar(n) as int < 0x80 && HexDigit(HexChar(n) as int) == Some(n)
  {}

  lemma UnescapeEscape(b: Utf8.Byte, rest: seq<Utf8.Byte>)
    requires Unescape(rest).Some?
    ensures Unescape(Utf8.Encode(Escape(b)) + rest) == Some([b] + Unescape(rest).value)
  {
    EscapeClean(b);
    Utf8.EncodeAscii(Escape(b));
    var s := Utf8.Encode(Escape(b)) + rest;
    if Kept(b) {
      assert s[1..] == rest;
    } else {
      HexRoundTrip(b);
      assert s[3..] == rest;
    }
  }

  lemma {:induction false} UnescapeEscapeAll(b: seq<Utf8.Byte>)
    ensures Unescape(Utf8.Encode(EscapeAll(b))) == Some(b)
  {
    if b != [] {
      UnescapeEscapeAll(b[1..]);
      UnescapeEscape(b[0], Utf8.Encode(EscapeAll(b[1..])));
      Utf8.EncodeConcat(Escape(b[0]), EscapeAll(b[1..]));
      assert b == [b[0]] + b[1..];
    }
  }

  /** Any value survives the encoding of `with_param`. */
  lemma DecodeEscaped(v: string)
    ensures PercentDecode(EscapeAll(Utf8.Encode(v))) == Ok(v)
  {
    UnescapeEscapeAll(Utf8.Encode(v));
    Utf8.DecodeEncode(v);
  }

  // ---- The query ----

  lemma {:induction false} ParametersConcat(a: seq<string>, b: seq<string>)
    requires Parameters(a).Ok?
    ensures Parameters(a + b) == Prefixed(Parameters(a).value, Parameters(b))
  {
    if a == [] {
      assert a + b == b;
      PrefixedTwice([], [], Parameters(b));
    } else {
      assert (a + b)[1..] == a[1..] + b;
      ParametersConcat(a[1..], b);
      if a[0] != "" {
        var (k, v) := SplitOnce(a[0], '=').value;
        PrefixedTwice([Decoded(k, v).value], Parameters(a[1..]).value, Parameters(b));
      }
    }
  }

  /** Parsing goes on after what is there: the appended query text is read on its own. */
  lemma UriParsesOn(rest: string, x: string)
    requires Uri(rest).Ok?
    ensures Uri(rest + ((if '?' in rest then "&" else "?") + x)) == Prefixed(Uri(rest).value, Parameters(Split(x, '&')))
  {
    SplitOnceMissing(rest, '?');
    if '?' in rest {
      var (a, q) := SplitOnce(rest, '?').value;
      var front := Front(a).value;
      assert rest + ("&" + x) == a + ['?'] + (q + ['&'] + x);
      SplitOnceAt(a, '?', q + ['&'] + x);
      SplitConcat(q, '&', x);
      ParametersConcat(Split(q, '&'), Split(x, '&'));
      PrefixedTwice(front, Parameters(Split(q, '&')).value, Parameters(Split(x, '&')));
    } else {
      assert rest + ("?" + x) == rest + ['?'] + x;
      SplitOnceAt(rest, '?', x);
      PrefixedTwice(Front(rest).value, [], Ok([]));
    }
  }

  lemma CutBytes(s: string, c: char)
    requires SplitOnce(s, c).Some?
    ensures Bytes(SplitOnce(s, c).value.0) + 1 + Bytes(SplitOnce(s, c).value.1) <= Bytes(s)
  {
    var (a, b) := SplitOnce(s, c).value;
    SplitOnceMissing(s, c);
    BytesConcat(a + [c], b);
    BytesConcat(a, [c]);
    assert Utf8.Encode([c]) == Utf8.EncodeChar(c) + Utf8.Encode([c][1..]);
  }

  /** A key of the query read from `k=e` is no longer than `k`, and shorter when `k` is cut. */
  lemma {:induction false} KeyBound(k: string, e: string)
    requires '&' !in e
    ensures forall p :: p in Split(k + "=" + e, '&') && SplitOnce(p, '=').Some? ==>
              && Bytes(SplitOnce(p, '=').value.0) <= Bytes(k)
              && ('&' in k || '=' in k ==> Bytes(SplitOnce(p, '=').value.0) < Bytes(k))
    decreases |k|
  {
    SplitOnceMissing(k, '&');
    if '&' in k {
      var (a, b) := SplitOnce(k, '&').value;
      CutBytes(k, '&');
      KeyBound(b, e);
      assert k + "=" + e == a + ['&'] + (b + "=" + e);
      SplitConcat(a, '&', b + "=" + e);
      SplitWhole(a, '&');
      if SplitOnce(a, '=').Some? {
        CutBytes(a, '=');
      }
    } else {
      var s := k + "=" + e;
      SplitWhole(s, '&');
      SplitOnceMissing(k, '=');
      if '=' in k {
        var (a, b) := SplitOnce(k, '=').value;
        CutBytes(k, '=');
        assert s == a + ['='] + (b + "=" + e);
        SplitOnceAt(a, '=', b + "=" + e);
      } else {
        assert s == k + ['='] + e;
        SplitOnceAt(k, '=', e);
      }
    }
  }

  lemma {:induction false} KeysBelow(pieces: seq<string>, n: nat)
    requires Parameters(pieces).Ok?
    requires forall p :: p in pieces && SplitOnce(p, '=').Some? ==> Bytes(SplitOnce(p, '=').value.0) < n
    ensures forall q :: q in Parameters(pieces).value ==> Bytes(q.0) < n
  {
    if pieces != [] {
      KeysBelow(pieces[1..], n);
      if pieces[0] != "" {
        assert pieces[0] in pieces;
        DecodeMeans(SplitOnce(pieces[0], '=').value.0);
      }
    }
  }

  /** The appended text reads as the pair it was made from exactly when the key needs no encoding. */
  lemma ParameterIff(k: string, v: string)
    ensures Parameters(Split(k + "=" + EscapeAll(Utf8.Encode(v)), '&')) == Ok([(k, v)]) <==>
              '=' !in k && '&' !in k && '%' !in k
  {
    var e := EscapeAll(Utf8.Encode(v));
    var pieces := Split(k + "=" + e, '&');
    EscapeAllClean(Utf8.Encode(v));
    if '=' in k || '&' in k {
      KeyBound(k, e);
      if Parameters(pieces) == Ok([(k, v)]) {
        assert (k, v) in Parameters(pieces).value;
        KeysBelow(pieces, Bytes(k));
      }
    } else {
      var s := k + "=" + e;
      SplitWhole(s, '&');
      assert s == k + ['='] + e;
      SplitOnceAt(k, '=', e);
      DecodeMeans(k);
      DecodeEscaped(v);
      assert [s][1..] == [];
      if PercentDecode(k).Ok? {
        PrefixedTwice([(PercentDecode(k).value, v)], [], Ok([]));
      }
    }
  }

  // ---- A URI is not the pair its text spells ----

  predicate FixedKey(k: string) { k == "user" || k == "password" || k == "host" || k == "port" || k == "dbname" }

  lemma FrontKeys(s: string)
    requires Front(s).Ok?
    ensures forall p :: p in Front(s).value ==> FixedKey(p.0)
  {
    var authority := match SplitOnce(s, '/') case Some(p) => p.0 case None => s;
    match RSplitOnce(authority, '@')
    case Some((u, h)) => UserKeys(u);
    case None =>
  }

  lemma UserKeys(u: string)
    ensures UserInfo(u).Ok? ==> forall p :: p in UserInfo(u).value ==> FixedKey(p.0)
  {}

  lemma {:induction false} SplitBytes(s: string, c: char)
    ensures forall p :: p in Split(s, c) ==> Bytes(p) <= Bytes(s)
  {
    if s != "" {
      SplitBytes(s[1..], c);
      if s[0] != c {
        var r := Split(s[1..], c);
        assert r[0] in r;
        assert ([s[0]] + r[0])[1..] == r[0];
      }
    }
  }

  lemma {:induction false} PairsWithin(pieces: seq<string>, n: nat)
    requires Parameters(pieces).Ok? && forall p :: p in pieces ==> Bytes(p) <= n
    ensures forall q :: q in Parameters(pieces).value ==> Bytes(q.0) + 1 + Bytes(q.1) <= n
  {
    if pieces != [] {
      PairsWithin(pieces[1..], n);
      if pieces[0] != "" {
        assert pieces[0] in pieces;
        CutBytes(pieces[0], '=');
        var (k, v) := SplitOnce(pieces[0], '=').value;
        DecodeMeans(k);
        DecodeMeans(v);
      }
    }
  }

  /** Every pair of a URI has a fixed key or fits in its text. */
  lemma UriPairs(rest: string)
    requires Uri(rest).Ok?
    ensures forall q :: q in Uri(rest).value ==> FixedKey(q.0) || Bytes(q.0) + 1 + Bytes(q.1) <= Bytes(rest)
  {
    SplitOnceMissing(rest, '?');
    if '?' in rest {
      var (a, q) := SplitOnce(rest, '?').value;
      CutBytes(rest, '?');
      FrontKeys(a);
      SplitBytes(q, '&');
      PairsWithin(Split(q, '&'), Bytes(q));
    } else {
      FrontKeys(rest);
    }
  }
}

/** UTF-8 as `str::as_bytes` and `String::from_utf8` see it. */
module Utf8 {

  import opened Wrappers

  type Byte = x: int | 0 <= x < 256

  function Low(n: nat): Byte { 0x80 + n % 64 }

  function EncodeChar(c: char): seq<Byte> {
    var n := c as int;
    if n < 0x80 then [n]
    else if n < 0x800 then [0xC0 + n / 64, Low(n)]
    else if n < 0x10000 then [0xE0 + n / 64 / 64, Low(n / 64), Low(n)]
    else [0xF0 + n / 64 / 64 / 64, Low(n / 64 / 64), Low(n / 64), Low(n)]
  }

  function Encode(s: string): seq<Byte> {
    if s == "" then [] else EncodeChar(s[0]) + Encode(s[1..])
  }

  predicate Continues(b: Byte) { 0x80 <= b < 0xC0 }

  function Pack(high: int, low: int): int { high * 64 + (low - 0x80) }

  predicate Scalar(n: int) { 0 <= n < 0xD800 || 0xE000 <= n < 0x110000 }

  /** The first character, refusing overlong forms, surrogates and anything past U+10FFFF. */
  function DecodeFirst(b: seq<Byte>): (r: Option<(char, nat)>)
    ensures r.Some? ==> 1 <= r.value.1 <= |b|
  {
    if b == [] then None
    else if b[0] < 0x80 then Some((b[0] as char, 1))
    else if b[0] < 0xC0 then None
    else if b[0] < 0xE0 then
      if |b| < 2 || !Continues(b[1]) then None
      else Checked(Pack(b[0] - 0xC0, b[1]), 0x80, 2)
    else if b[0] < 0xF0 then
      if |b| < 3 || !Continues(b[1]) || !Continues(b[2]) then None
      else Checked(Pack(Pack(b[0] - 0xE0, b[1]), b[2]), 0x800, 3)
    else if b[0] < 0xF5 then
      if |b| < 4 || !Continues(b[1]) || !Continues(b[2]) || !Continues(b[3]) then None
      else Checked(Pack(Pack(Pack(b[0] - 0xF0, b[1]), b[2]), b[3]), 0x10000, 4)
    else None
  }

  function Checked(n: int, least: nat, length: nat): Option<(char, nat)> {
    if n < least || !Scalar(n) then None else Some((n as char, length))
  }

  function Decode(b: seq<Byte>): Option<string> {
    if b == [] then Some("")
    else match DecodeFirst(b)
         case None => None
         case Some((c, n)) =>
           match Decode(b[n..])
           case None => None
           case Some(s) => Some([c] + s)
  }

  lemma PackUnpack(n: nat)
    ensures Pack(n / 64, Low(n)) == n && Continues(Low(n))
  {}

  lemma UnpackPack(high: nat, low: Byte)
    requires Continues(low)
    ensures Pack(high, low) >= 0 && Pack(high, low) / 64 == high && Low(Pack(high, low)) == low
  {}

  lemma DecodeEncodeChar(c: char, rest: seq<Byte>)
    ensures DecodeFirst(EncodeChar(c) + rest) == Some((c, |EncodeChar(c)|))
  {
    var n := c as int;
    assert Scalar(n) && n as char == c;
    if n >= 0x80 {
      Spread(n);
      var s := EncodeChar(c) + rest;
      assert s[0] == EncodeChar(c)[0] && s[1] == EncodeChar(c)[1];
    }
  }

  /** The sixes of bits put together again, and the ranges of what is left above them. */
  lemma Spread(n: nat)
    requires n < 0x110000
    ensures Pack(n / 64, Low(n)) == n && Pack(n / 64 / 64, Low(n / 64)) == n / 64
    ensures Pack(n / 64 / 64 / 64, Low(n / 64 / 64)) == n / 64 / 64
    ensures Continues(Low(n)) && Continues(Low(n / 64)) && Continues(Low(n / 64 / 64))
    ensures n < 0x800 ==> n / 64 < 32
    ensures n < 0x10000 ==> n / 64 / 64 < 16
    ensures n / 64 / 64 / 64 < 5
  {
    PackUnpack(n);
    PackUnpack(n / 64);
    PackUnpack(n / 64 / 64);
  }

  /** The shortest form that holds the code point, most significant bits first, six to every further byte. */
  lemma EncodeCharMeans(c: char)
    ensures
      var n, b: seq<int> := c as int, EncodeChar(c);
      && (forall i :: 1 <= i < |b| ==> 0x80 <= b[i] <= 0xBF)
      && (n < 0x80 ==> b == [n])
      && (0x80 <= n < 0x800 ==> |b| == 2 && 0xC0 <= b[0] <= 0xDF && (b[0] - 0xC0) * 64 + (b[1] - 0x80) == n)
      && (0x800 <= n < 0x10000 ==>
            |b| == 3 && 0xE0 <= b[0] <= 0xEF && ((b[0] - 0xE0) * 64 + (b[1] - 0x80)) * 64 + (b[2] - 0x80) == n)
      && (0x10000 <= n ==>
            && |b| == 4 && 0xF0 <= b[0] <= 0xF4
            && (((b[0] - 0xF0) * 64 + (b[1] - 0x80)) * 64 + (b[2] - 0x80)) * 64 + (b[3] - 0x80) == n)
  {
    Spread(c as int);
  }

  lemma TwoBytes(a: nat, b: Byte)
    requires Continues(b) && 0x80 <= Pack(a, b) < 0x800
    ensures Scalar(Pack(a, b)) && EncodeChar(Pack(a, b) as char) == [0xC0 + a, b]
  {
    UnpackPack(a, b);
  }

  lemma ThreeBytes(a: nat, b: Byte, c: Byte)
    requires Continues(b) && Continues(c)
    requires 0x800 <= Pack(Pack(a, b), c) < 0x10000 && Scalar(Pack(Pack(a, b), c))
    ensures EncodeChar(Pack(Pack(a, b), c) as char) == [0xE0 + a, b, c]
  {
    UnpackPack(a, b);
    UnpackPack(Pack(a, b), c);
  }

  lemma FourBytes(a: nat, b: Byte, c: Byte, d: Byte)
    requires Continues(b) && Continues(c) && Continues(d)
    requires 0x10000 <= Pack(Pack(Pack(a, b), c), d) && Scalar(Pack(Pack(Pack(a, b), c), d))
    ensures EncodeChar(Pack(Pack(Pack(a, b), c), d) as char) == [0xF0 + a, b, c, d]
  {
    UnpackPack(a, b);
    UnpackPack(Pack(a, b), c);
    UnpackPack(Pack(Pack(a, b), c), d);
  }

  lemma EncodeDecodeFirst(b: seq<Byte>)
    requires DecodeFirst(b).Some?
    ensures EncodeChar(DecodeFirst(b).value.0) == b[..DecodeFirst(b).value.1]
  {
    if 0xC0 <= b[0] < 0xE0 {
      TwoBytes(b[0] - 0xC0, b[1]);
      assert b[..2] == [b[0], b[1]];
    } else if 0xE0 <= b[0] < 0xF0 {
      ThreeBytes(b[0] - 0xE0, b[1], b[2]);
      assert b[..3] == [b[0], b[1], b[2]];
    } else if 0xF0 <= b[0] {
      FourBytes(b[0] - 0xF0, b[1], b[2], b[3]);
      assert b[..4] == [b[0], b[1], b[2], b[3]];
    }
  }

  lemma {:induction false} DecodeEncode(s: string)
    ensures Decode(Encode(s)) == Some(s)
  {
    if s != "" {
      DecodeEncodeChar(s[0], Encode(s[1..]));
      assert Encode(s)[|EncodeChar(s[0])|..] == Encode(s[1..]);
      DecodeEncode(s[1..]);
      assert [s[0]] + s[1..] == s;
    }
  }

  lemma EncodeCons(c: char, s: string)
    ensures Encode([c] + s) == EncodeChar(c) + Encode(s)
  {
    assert ([c] + s)[1..] == s;
  }

  lemma FirstOf(b: seq<Byte>) returns (c: char, n: nat)
    requires b != [] && Decode(b).Some?
    ensures 1 <= n <= |b| && EncodeChar(c) == b[..n]
    ensures Decode(b[n..]).Some? && Decode(b).value == [c] + Decode(b[n..]).value
  {
    c, n := DecodeFirst(b).value.0, DecodeFirst(b).value.1;
    EncodeDecodeFirst(b);
  }

  lemma {:induction false} EncodeDecode(b: seq<Byte>)
    requires Decode(b).Some?
    ensures Encode(Decode(b).value) == b
  {
    if b != [] {
      var c, n := FirstOf(b);
      EncodeDecode(b[n..]);
      EncodeCons(c, Decode(b[n..]).value);
      assert b == b[..n] + b[n..];
    }
  }

  lemma {:induction false} EncodeConcat(a: string, b: string)
    ensures Encode(a + b) == Encode(a) + Encode(b)
  {
    if a == "" {
      assert a + b == b;
    } else {
      assert (a + b)[1..] == a[1..] + b;
      EncodeConcat(a[1..], b);
    }
  }

  /** Bytes that are characters of their own, one byte each. */
  lemma {:induction false} EncodeAscii(s: string)
    requires forall c :: c in s ==> c as int < 0x80
    ensures |Encode(s)| == |s| && forall i :: 0 <= i < |s| ==> Encode(s)[i] == s[i] as int
  {
    if s != "" {
      assert forall c :: c in s[1..] ==> c in s;
      EncodeAscii(s[1..]);
      assert s[0] in s;
    }
  }

  /** An ASCII byte occurs in the encoding exactly when its character occurs in the text. */
  lemma {:induction false} AsciiOccurs(s: string, c: char)
    requires c as int < 0x80
    ensures c as int in Encode(s) <==> c in s
  {
    if s != "" {
      AsciiOccurs(s[1..], c);
      assert s == [s[0]] + s[1..];
      assert c as int in EncodeChar(s[0]) <==> c == s[0];
    }
  }
}

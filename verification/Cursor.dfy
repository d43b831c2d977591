/**
 Signed list cursors (escurel-index/src/cursor.rs): `<base64url(raw)>.<tag>`, where the tag is a keyed
 hash of the length-prefixed scope and the payload.

 Base64url and the keyed hash are parameters: decoding inverts encoding, and a tag never holds the
 `.` that separates it. Bytes are spelled as characters.
 */
module Cursor {

  import opened Wrappers
  import opened Text

  datatype Signer = Signer(encode: string -> string, decode: string -> Option<string>, mac: string -> string)

  ghost predicate Lawful(k: Signer) {
    && (forall raw: string :: k.decode(k.encode(raw)) == Some(raw))
    && (forall m: string :: '.' !in k.mac(m))
  }

  /** The keyed hash has no collisions. */
  ghost predicate CollisionFree(k: Signer) {
    forall a: string, b: string :: k.mac(a) == k.mac(b) ==> a == b
  }

  /** The low `width` bytes of `n`, most significant first. */
  function BigEndian(n: nat, width: nat): (s: string)
    ensures |s| == width
  {
    if width == 0 then "" else BigEndian(n / 256, width - 1) + [(n % 256) as char]
  }

  function Frame(scope: string, raw: string): string {
    BigEndian(|scope|, 8) + scope + raw
  }

  function Tag(k: Signer, scope: string, raw: string): string { k.mac(Frame(scope, raw)) }

  function Seal(k: Signer, scope: string, raw: string): string {
    k.encode(raw) + "." + Tag(k, scope, raw)
  }

  function Unseal(k: Signer, scope: string, token: string): Option<string> {
    match RSplitOnce(token, '.')
    case None => None
    case Some((body, sig)) =>
      match k.decode(body)
      case None => None
      case Some(raw) => if sig == Tag(k, scope, raw) then Some(raw) else None
  }

  lemma SealThenSplit(k: Signer, scope: string, raw: string)
    requires Lawful(k)
    ensures RSplitOnce(Seal(k, scope, raw), '.') == Some((k.encode(raw), Tag(k, scope, raw)))
  {
    RSplitOnceAt(k.encode(raw), '.', Tag(k, scope, raw));
  }

  function Powers(width: nat): nat {
    if width == 0 then 1 else 256 * Powers(width - 1)
  }

  lemma {:induction false} BigEndianInjective(n: nat, m: nat, width: nat)
    requires n < Powers(width) && m < Powers(width) && BigEndian(n, width) == BigEndian(m, width)
    ensures n == m
  {
    if width > 0 {
      var a, b := BigEndian(n, width), BigEndian(m, width);
      assert a[..width - 1] == BigEndian(n / 256, width - 1) && b[..width - 1] == BigEndian(m / 256, width - 1);
      assert a[width - 1] == (n % 256) as char && b[width - 1] == (m % 256) as char;
      BigEndianInjective(n / 256, m / 256, width - 1);
    }
  }

  /** Length-prefixed, no scope and payload can be rewritten into another pair. */
  lemma FrameInjective(s: string, r: string, s': string, r': string)
    requires |s| < Powers(8) && |s'| < Powers(8) && Frame(s, r) == Frame(s', r')
    ensures s == s' && r == r'
  {
    var f := Frame(s, r);
    assert f[..8] == BigEndian(|s|, 8) == BigEndian(|s'|, 8);
    BigEndianInjective(|s|, |s'|, 8);
    assert f[8..8 + |s|] == s == s';
    assert f[8 + |s|..] == r == r';
  }

  /** A token opens exactly in the scope it was sealed for, and then gives its payload back. */
  lemma OpensOnlyInScope(k: Signer, scope: string, raw: string, scope': string)
    requires Lawful(k) && CollisionFree(k) && |scope| < Powers(8) && |scope'| < Powers(8)
    ensures Unseal(k, scope', Seal(k, scope, raw)) == if scope' == scope then Some(raw) else None
  {
    SealThenSplit(k, scope, raw);
    if Tag(k, scope, raw) == Tag(k, scope', raw) {
      FrameInjective(scope, raw, scope', raw);
    }
  }

  lemma UnsealSeal(k: Signer, scope: string, raw: string)
    requires Lawful(k)
    ensures Unseal(k, scope, Seal(k, scope, raw)) == Some(raw)
  {
    SealThenSplit(k, scope, raw);
  }

  /** `encode` / `decode`: a sort key (empty for NULL) and a row id around a `|`. */
  function Encode(k: Signer, scope: string, key: Option<string>, id: string): string {
    Seal(k, scope, (match key case None => "" case Some(t) => t) + "|" + id)
  }

  function Decode(k: Signer, scope: string, token: string): Option<(Option<string>, string)> {
    match Unseal(k, scope, token)
    case None => None
    case Some(s) =>
      match SplitOnce(s, '|')
      case None => None
      case Some((key, id)) => Some((if key == "" then None else Some(key), id))
  }

  /** A cursor round-trips whatever the row id holds, `|` included. */
  lemma DecodeEncode(k: Signer, scope: string, key: Option<string>, id: string)
    requires Lawful(k) && (key.Some? ==> key.value != "" && '|' !in key.value)
    ensures Decode(k, scope, Encode(k, scope, key, id)) == Some((key, id))
  {
    var head := match key case None => "" case Some(t) => t;
    UnsealSeal(k, scope, head + "|" + id);
    SplitOnceAt(head, '|', id);
  }
}

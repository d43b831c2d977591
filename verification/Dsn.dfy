/** Connection strings in both spellings (escurel-index/src/dsn.rs). */
module Dsn {

  import opened Wrappers
  import opened Text
  import Utf8

  type Pair = (string, string)

  datatype Malformed = NoSeparator | OpenQuote | OpenEscape | BadPercent | NotUtf8 | BadIpv6 | BadParameter

  type Parsed = Result<seq<Pair>, Malformed>

  /** Results of a parse, `ps` in front. */
  function Prefixed(ps: seq<Pair>, r: Parsed): Parsed {
    match r case Err(e) => Err(e) case Ok(qs) => Ok(ps + qs)
  }

  lemma PrefixedTwice(a: seq<Pair>, b: seq<Pair>, r: Parsed)
    ensures Prefixed(a, Prefixed(b, r)) == Prefixed(a + b, r)
    ensures Prefixed([], r) == r && Prefixed(a, Ok([])) == Ok(a)
  {
    assert a + [] == a;
    if r.Ok? {
      assert [] + r.value == r.value;
      assert a + (b + r.value) == a + b + r.value;
    }
  }

  // ---- White space ----

  /** `char::is_whitespace`: Unicode's White_Space. */
  predicate IsSpace(c: char) {
    var n := c as int;
    || 0x9 <= n <= 0xD || n == 0x20 || n == 0x85 || n == 0xA0 || n == 0x1680 || 0x2000 <= n <= 0x200A
    || n == 0x2028 || n == 0x2029 || n == 0x202F || n == 0x205F || n == 0x3000
  }

  function Skip(s: string): (r: string)
    ensures |r| <= |s| && (r != "" ==> !IsSpace(r[0]))
  {
    if s != "" && IsSpace(s[0]) then Skip(s[1..]) else s
  }

  function TrimEnd(s: string): string {
    if s != "" && IsSpace(s[|s| - 1]) then TrimEnd(s[..|s| - 1]) else s
  }

  function Trim(s: string): string { TrimEnd(Skip(s)) }

  // ---- Key/value form ----

  predicate EndsKey(c: char) { c == '=' || IsSpace(c) }

  function KeyLength(s: string): (n: nat)
    ensures n <= |s|
  {
    if s == "" || EndsKey(s[0]) then 0 else 1 + KeyLength(s[1..])
  }

  /** A value and what follows it. */
  type Valued = Result<(string, string), Malformed>

  function More(c: char, r: Valued): Valued {
    match r case Err(e) => Err(e) case Ok((v, rest)) => Ok(([c] + v, rest))
  }

  /** After the opening quote. */
  function QuotedValue(s: string): (r: Valued)
    ensures r.Ok? ==> |r.value.0| + |r.value.1| < |s|
  {
    if s == "" then Err(OpenQuote)
    else if s[0] == '\'' then Ok(("", s[1..]))
    else if s[0] == '\\' then
      if |s| == 1 then Err(OpenEscape) else More(s[1], QuotedValue(s[2..]))
    else More(s[0], QuotedValue(s[1..]))
  }

  function BareValue(s: string): (r: Valued)
    ensures r.Ok? ==> |r.value.0| + |r.value.1| <= |s|
  {
    if s == "" || IsSpace(s[0]) then Ok(("", s))
    else if s[0] == '\\' then
      if |s| == 1 then Err(OpenEscape) else More(s[1], BareValue(s[2..]))
    else More(s[0], BareValue(s[1..]))
  }

  function Value(s: string): (r: Valued)
    ensures r.Ok? ==> |r.value.0| + |r.value.1| <= |s|
  {
    if s != "" && s[0] == '\'' then QuotedValue(s[1..]) else BareValue(s)
  }

  /** A key and what follows its `=`, white space skipped. */
  function Separated(key: string, u: string): (r: Option<(string, string)>)
    ensures r.Some? ==> |r.value.0| + |r.value.1| < |key| + |u|
  {
    if u == "" || u[0] != '=' || key == "" then None else Some((key, Skip(u[1..])))
  }

  function AfterKey(s: string): (r: Option<(string, string)>)
    ensures r.Some? ==> |r.value.0| + |r.value.1| < |s|
  {
    Separated(s[..KeyLength(s)], Skip(s[KeyLength(s)..]))
  }

  function KeyValue(s: string): Parsed
    decreases |s|
  {
    var t := Skip(s);
    if t == "" then Ok([])
    else match AfterKey(t)
         case None => Err(NoSeparator)
         case Some((key, w)) =>
           match Value(w)
           case Err(e) => Err(e)
           case Ok((v, rest)) => Prefixed([(key, v)], KeyValue(rest))
  }

  // ---- URI form ----

  function HexDigit(b: Utf8.Byte): Option<Utf8.Byte> {
    if '0' as int <= b <= '9' as int then Some(b - '0' as int)
    else if 'A' as int <= b <= 'F' as int then Some(b - 'A' as int + 10)
    else if 'a' as int <= b <= 'f' as int then Some(b - 'a' as int + 10)
    else None
  }

  /** `u8::from_str_radix(_, 16)` of two characters, which takes a plus sign for the first. */
  function HexByte(a: Utf8.Byte, b: Utf8.Byte): Option<Utf8.Byte> {
    match (HexDigit(a), HexDigit(b))
    case (Some(x), Some(y)) => (if x < 16 && y < 16 then Some(16 * x + y) else None)
    case (None, Some(y)) => if a == '+' as int then Some(y) else None
    case (_, None) => None
  }

  function Unescape(b: seq<Utf8.Byte>): Option<seq<Utf8.Byte>> {
    if b == [] then Some([])
    else if b[0] != '%' as int then
      match Unescape(b[1..]) case None => None case Some(r) => Some([b[0]] + r)
    else if |b| < 3 || HexByte(b[1], b[2]).None? then None
    else match Unescape(b[3..]) case None => None case Some(r) => Some([HexByte(b[1], b[2]).value] + r)
  }

  function PercentDecode(s: string): Result<string, Malformed> {
    match Unescape(Utf8.Encode(s))
    case None => Err(BadPercent)
    case Some(b) => match Utf8.Decode(b) case None => Err(NotUtf8) case Some(t) => Ok(t)
  }

  function Decoded(k: string, v: string): Result<Pair, Malformed> {
    match PercentDecode(k)
    case Err(e) => Err(e)
    case Ok(key) => match PercentDecode(v) case Err(e) => Err(e) case Ok(value) => Ok((key, value))
  }

  function UserInfo(u: string): Parsed {
    match SplitOnce(u, ':')
    case Some((user, password)) => (
      match Decoded(user, password)
      case Err(e) => Err(e)
      case Ok((a, b)) => Ok([("user", a), ("password", b)])
    )
    case None => match PercentDecode(u) case Err(e) => Err(e) case Ok(user) => Ok([("user", user)])
  }

  /** One host of the list, not yet decoded, and its port. */
  function HostPort(h: string): Result<(string, string), Malformed> {
    if h != "" && h[0] == '[' then
      match SplitOnce(h[1..], ']')
      case None => Err(BadIpv6)
      case Some((address, after)) => Ok((address, if after != "" && after[0] == ':' then after[1..] else ""))
    else match RSplitOnce(h, ':')
         case Some((host, port)) => Ok((host, port))
         case None => Ok((h, ""))
  }

  function Hosts(pieces: seq<string>): Result<(seq<string>, seq<string>), Malformed> {
    if pieces == [] then Ok(([], []))
    else if pieces[0] == "" then Hosts(pieces[1..])
    else match HostPort(pieces[0])
         case Err(e) => Err(e)
         case Ok((h, port)) =>
           match PercentDecode(h)
           case Err(e) => Err(e)
           case Ok(host) =>
             match Hosts(pieces[1..])
             case Err(e) => Err(e)
             case Ok((hosts, ports)) => Ok(([host] + hosts, [port] + ports))
  }

  function Join(items: seq<string>): string {
    if items == [] then "" else if |items| == 1 then items[0] else items[0] + "," + Join(items[1..])
  }

  function HostPairs(hosts: seq<string>, ports: seq<string>): seq<Pair> {
    (if hosts == [] then [] else [("host", Join(hosts))])
    + if exists p :: p in ports && p != "" then [("port", Join(ports))] else []
  }

  /** Everything before the `?`. */
  function Front(s: string): Parsed {
    var (authority, dbname) := match SplitOnce(s, '/') case Some(p) => p case None => (s, "");
    var (user, hostspec) := match RSplitOnce(authority, '@')
                            case Some((u, h)) => (UserInfo(u), h)
                            case None => (Ok([]), authority);
    match user
    case Err(e) => Err(e)
    case Ok(us) =>
      match Hosts(Split(hostspec, ','))
      case Err(e) => Err(e)
      case Ok((hosts, ports)) =>
        var front := us + HostPairs(hosts, ports);
        if dbname == "" then Ok(front)
        else match PercentDecode(dbname) case Err(e) => Err(e) case Ok(d) => Ok(front + [("dbname", d)])
  }

  function Parameters(pieces: seq<string>): Parsed {
    if pieces == [] then Ok([])
    else if pieces[0] == "" then Parameters(pieces[1..])
    else match SplitOnce(pieces[0], '=')
         case None => Err(BadParameter)
         case Some((k, v)) =>
           match Decoded(k, v)
           case Err(e) => Err(e)
           case Ok(pair) => Prefixed([pair], Parameters(pieces[1..]))
  }

  function Uri(rest: string): Parsed {
    var (before, pieces) := match SplitOnce(rest, '?') case Some((a, q)) => (a, Split(q, '&')) case None => (rest, []);
    match Front(before)
    case Err(e) => Err(e)
    case Ok(front) => Prefixed(front, Parameters(pieces))
  }

  // ---- Both ----

  function Schemes(): seq<string> { ["postgresql://", "postgres://", "mysql://"] }

  /** What follows a URI scheme. */
  function UriRest(s: string): Option<string> {
    if Schemes()[0] <= s then Some(s[|Schemes()[0]|..])
    else if Schemes()[1] <= s then Some(s[|Schemes()[1]|..])
    else if Schemes()[2] <= s then Some(s[|Schemes()[2]|..])
    else None
  }

  function ParsePairs(dsn: string): Parsed {
    match UriRest(Trim(dsn))
    case Some(rest) => Uri(rest)
    case None => KeyValue(Trim(dsn))
  }

  // ---- with_param ----

  predicate Kept(b: Utf8.Byte) {
    || 'A' as int <= b <= 'Z' as int || 'a' as int <= b <= 'z' as int || '0' as int <= b <= '9' as int
    || b == '-' as int || b == '_' as int || b == '.' as int || b == ',' as int || b == ':' as int
  }

  function HexChar(n: nat): char
    requires n < 16
  {
    if n < 10 then ('0' as int + n) as char else ('A' as int + n - 10) as char
  }

  function Escape(b: Utf8.Byte): string {
    if Kept(b) then [b as char] else ['%', HexChar(b / 16), HexChar(b % 16)]
  }

  function EscapeAll(b: seq<Utf8.Byte>): string {
    if b == [] then "" else Escape(b[0]) + EscapeAll(b[1..])
  }

  function WithParam(dsn: string, key: string, value: string): string {
    var d := Trim(dsn);
    if UriRest(d).Some? then
      d + (if '?' in d then "&" else "?") + key + "=" + EscapeAll(Utf8.Encode(value))
    else d + " " + key + "=" + value
  }

  // ---- The loops ----

  method SkipFrom(s: string, start: nat) returns (i: nat)
    requires start <= |s|
    ensures start <= i <= |s| && s[i..] == Skip(s[start..])
  {
    i := start;
    while i < |s| && IsSpace(s[i])
      invariant start <= i <= |s| && Skip(s[i..]) == Skip(s[start..])
    {
      assert s[i..][1..] == s[i + 1..];
      i := i + 1;
    }
  }

  method ReadKey(s: string, start: nat) returns (key: string, i: nat)
    requires start <= |s|
    ensures start <= i <= |s| && i == start + KeyLength(s[start..]) && key == s[start..i]
  {
    key, i := "", start;
    while i < |s| && !EndsKey(s[i])
      invariant start <= i <= |s| && key == s[start..i]
      invariant i + KeyLength(s[i..]) == start + KeyLength(s[start..])
    {
      assert s[i..][1..] == s[i + 1..];
      key := key + [s[i]];
      i := i + 1;
    }
  }

  /** A value read so far, and the rest of it. */
  function Onto(value: string, r: Valued): Valued {
    match r case Err(e) => Err(e) case Ok((v, rest)) => Ok((value + v, rest))
  }

  lemma OntoNothing(value: string, r: Valued, rest: string)
    ensures Onto("", r) == r && Onto(value, Ok(("", rest))) == Ok((value, rest))
  {
    assert value + "" == value;
    if r.Ok? {
      assert "" + r.value.0 == r.value.0;
    }
  }

  lemma OntoMore(value: string, c: char, r: Valued)
    ensures Onto(value, More(c, r)) == Onto(value + [c], r)
  {
    if r.Ok? {
      assert value + ([c] + r.value.0) == value + [c] + r.value.0;
    }
  }

  method ReadQuoted(s: string, start: nat) returns (r: Result<(string, nat), Malformed>)
    requires start <= |s|
    ensures match r
            case Err(e) => QuotedValue(s[start..]) == Err(e)
            case Ok((v, i)) => start <= i <= |s| && QuotedValue(s[start..]) == Ok((v, s[i..]))
  {
    var value, i := "", start;
    OntoNothing(value, QuotedValue(s[i..]), "");
    while i < |s|
      invariant start <= i <= |s|
      invariant QuotedValue(s[start..]) == Onto(value, QuotedValue(s[i..]))
    {
      assert s[i..][1..] == s[i + 1..];
      if s[i] == '\'' {
        OntoNothing(value, Err(OpenQuote), s[i + 1..]);
        return Ok((value, i + 1));
      } else if s[i] == '\\' {
        if i + 1 == |s| {
          return Err(OpenEscape);
        }
        assert s[i..][2..] == s[i + 2..];
        OntoMore(value, s[i + 1], QuotedValue(s[i + 2..]));
        value := value + [s[i + 1]];
        i := i + 2;
      } else {
        OntoMore(value, s[i], QuotedValue(s[i + 1..]));
        value := value + [s[i]];
        i := i + 1;
      }
    }
    r := Err(OpenQuote);
  }

  method ReadBare(s: string, start: nat) returns (r: Result<(string, nat), Malformed>)
    requires start <= |s|
    ensures match r
            case Err(e) => BareValue(s[start..]) == Err(e)
            case Ok((v, i)) => start <= i <= |s| && BareValue(s[start..]) == Ok((v, s[i..]))
  {
    var value, i := "", start;
    OntoNothing(value, BareValue(s[i..]), "");
    while i < |s| && !IsSpace(s[i])
      invariant start <= i <= |s|
      invariant BareValue(s[start..]) == Onto(value, BareValue(s[i..]))
    {
      assert s[i..][1..] == s[i + 1..];
      if s[i] == '\\' {
        if i + 1 == |s| {
          return Err(OpenEscape);
        }
        assert s[i..][2..] == s[i + 2..];
        OntoMore(value, s[i + 1], BareValue(s[i + 2..]));
        value := value + [s[i + 1]];
        i := i + 2;
      } else {
        OntoMore(value, s[i], BareValue(s[i + 1..]));
        value := value + [s[i]];
        i := i + 1;
      }
    }
    OntoNothing(value, Err(OpenQuote), s[i..]);
    r := Ok((value, i));
  }

  method ReadValue(s: string, start: nat) returns (r: Result<(string, nat), Malformed>)
    requires start <= |s|
    ensures match r
            case Err(e) => Value(s[start..]) == Err(e)
            case Ok((v, i)) => start <= i <= |s| && Value(s[start..]) == Ok((v, s[i..]))
  {
    if start < |s| && s[start] == '\'' {
      assert s[start..][1..] == s[start + 1..];
      r := ReadQuoted(s, start + 1);
    } else {
      r := ReadBare(s, start);
    }
  }

  /** The key of a pair and where its value starts. */
  method ReadSeparator(s: string, start: nat) returns (r: Option<(string, nat)>)
    requires start <= |s|
    ensures match r
            case None => AfterKey(s[start..]) == None
            case Some((key, i)) => start <= i <= |s| && AfterKey(s[start..]) == Some((key, s[i..]))
  {
    ghost var t := s[start..];
    var key, k := ReadKey(s, start);
    assert key == t[..KeyLength(t)] && s[k..] == t[KeyLength(t)..];
    var j := SkipFrom(s, k);
    if j == |s| || s[j] != '=' || key == "" {
      return None;
    }
    assert s[j..][1..] == s[j + 1..];
    var i := SkipFrom(s, j + 1);
    r := Some((key, i));
  }

  /** `parse_key_value`: a moving position over the string. */
  method ParseKeyValue(s: string) returns (r: Parsed)
    ensures r == KeyValue(s)
  {
    var out: seq<Pair> := [];
    var i := 0;
    assert s[0..] == s;
    PrefixedTwice([], [], KeyValue(s));
    while true
      invariant 0 <= i <= |s|
      invariant KeyValue(s) == Prefixed(out, KeyValue(s[i..]))
      decreases |s| - i
    {
      ghost var from := i;
      i := SkipFrom(s, i);
      if i == |s| {
        PrefixedTwice(out, [], Ok([]));
        return Ok(out);
      }
      var separator := ReadSeparator(s, i);
      match separator
      case None => return Err(NoSeparator);
      case Some((key, j)) =>
        var v := ReadValue(s, j);
        match v
        case Err(e) => return Err(e);
        case Ok((value, rest)) =>
          assert KeyValue(s[from..]) == Prefixed([(key, value)], KeyValue(s[rest..]));
          PrefixedTwice(out, [(key, value)], KeyValue(s[rest..]));
          out := out + [(key, value)];
          i := rest;
    }
  }

  /** `percent_decode`: a moving index over the bytes. */
  method DecodePercent(s: string) returns (r: Result<string, Malformed>)
    ensures r == PercentDecode(s)
  {
    var b := Utf8.Encode(s);
    var out: seq<Utf8.Byte> := [];
    var i := 0;
    assert b[0..] == b;
    AheadTwice(out, [], Unescape(b));
    while i < |b|
      invariant 0 <= i <= |b|
      invariant Unescape(b) == Ahead(out, Unescape(b[i..]))
    {
      ghost var rest := b[i..];
      assert rest[1..] == b[i + 1..];
      if b[i] == '%' as int {
        if i + 3 > |b| || HexByte(b[i + 1], b[i + 2]).None? {
          return Err(BadPercent);
        }
        assert rest[3..] == b[i + 3..];
        AheadTwice(out, [HexByte(b[i + 1], b[i + 2]).value], Unescape(b[i + 3..]));
        out := out + [HexByte(b[i + 1], b[i + 2]).value];
        i := i + 3;
      } else {
        AheadTwice(out, [b[i]], Unescape(b[i + 1..]));
        out := out + [b[i]];
        i := i + 1;
      }
    }
    AheadTwice(out, [], Some([]));
    match Utf8.Decode(out)
    case None => r := Err(NotUtf8);
    case Some(t) => r := Ok(t);
  }

  function Ahead(a: seq<Utf8.Byte>, r: Option<seq<Utf8.Byte>>): Option<seq<Utf8.Byte>> {
    match r case None => None case Some(b) => Some(a + b)
  }

  lemma AheadTwice(a: seq<Utf8.Byte>, b: seq<Utf8.Byte>, r: Option<seq<Utf8.Byte>>)
    ensures Ahead(a, Ahead(b, r)) == Ahead(a + b, r)
    ensures Ahead([], r) == r && Ahead(a, Some([])) == Some(a)
  {
    assert a + [] == a;
    if r.Some? {
      assert [] + r.value == r.value;
      assert a + (b + r.value) == a + b + r.value;
    }
  }

  type HostLists = Result<(seq<string>, seq<string>), Malformed>

  function HostsAhead(hosts: seq<string>, ports: seq<string>, r: HostLists): HostLists {
    match r case Err(e) => Err(e) case Ok((hs, ps)) => Ok((hosts + hs, ports + ps))
  }

  lemma HostsAheadTwice(hosts: seq<string>, ports: seq<string>, h: string, p: string, r: HostLists)
    ensures HostsAhead(hosts, ports, HostsAhead([h], [p], r)) == HostsAhead(hosts + [h], ports + [p], r)
    ensures HostsAhead([], [], r) == r && HostsAhead(hosts, ports, Ok(([], []))) == Ok((hosts, ports))
  {
    assert hosts + [] == hosts && ports + [] == ports;
    if r.Ok? {
      assert [] + r.value.0 == r.value.0 && [] + r.value.1 == r.value.1;
      assert hosts + ([h] + r.value.0) == hosts + [h] + r.value.0;
      assert ports + ([p] + r.value.1) == ports + [p] + r.value.1;
    }
  }

  method ParseHosts(hostspec: string) returns (r: HostLists)
    ensures r == Hosts(Split(hostspec, ','))
  {
    var pieces := Split(hostspec, ',');
    var hosts, ports := [], [];
    assert pieces[0..] == pieces;
    HostsAheadTwice([], [], "", "", Hosts(pieces));
    for n := 0 to |pieces|
      invariant Hosts(pieces) == HostsAhead(hosts, ports, Hosts(pieces[n..]))
    {
      assert pieces[n..][1..] == pieces[n + 1..];
      if pieces[n] != "" {
        match HostPort(pieces[n])
        case Err(e) => return Err(e);
        case Ok((h, port)) =>
          var host := DecodePercent(h);
          match host
          case Err(e) => return Err(e);
          case Ok(name) =>
            HostsAheadTwice(hosts, ports, name, port, Hosts(pieces[n + 1..]));
            hosts, ports := hosts + [name], ports + [port];
      }
    }
    HostsAheadTwice(hosts, ports, "", "", Ok(([], [])));
    r := Ok((hosts, ports));
  }

  method ParseParameters(query: string) returns (r: Parsed)
    ensures r == Parameters(Split(query, '&'))
  {
    var pieces := Split(query, '&');
    var out: seq<Pair> := [];
    assert pieces[0..] == pieces;
    PrefixedTwice([], [], Parameters(pieces));
    for n := 0 to |pieces|
      invariant Parameters(pieces) == Prefixed(out, Parameters(pieces[n..]))
    {
      assert pieces[n..][1..] == pieces[n + 1..];
      if pieces[n] != "" {
        match SplitOnce(pieces[n], '=')
        case None => return Err(BadParameter);
        case Some((k, v)) =>
          match Decoded(k, v)
          case Err(e) => return Err(e);
          case Ok(pair) =>
            PrefixedTwice(out, [pair], Parameters(pieces[n + 1..]));
            out := out + [pair];
      }
    }
    PrefixedTwice(out, [], Ok([]));
    r := Ok(out);
  }
}

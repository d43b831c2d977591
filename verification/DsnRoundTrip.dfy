/**
 Connection strings spelled from their parts parse to those parts, in both spellings and every form each part
 can take (escurel-index/src/dsn.rs, `parse_pairs`).
 */
module DsnRoundTrip {

  import opened Wrappers
  import opened Text
  import opened Dsn
  import opened DsnUri
  import opened DsnKeyValue
  import Utf8

  function Escaped(s: string): string { EscapeAll(Utf8.Encode(s)) }

  /** Characters the encoding never leaves in. */
  predicate Outside(c: char) { c == '/' || c == '@' || c == '?' || c == '[' || c == ']' || c == '&' || c == '=' }

  lemma EscapeAvoids(b: Utf8.Byte, c: char)
    requires Outside(c) || ((c == ',' || c == ':') && b != c as int)
    ensures c !in Escape(b)
  {}

  lemma {:induction false} EscapeAllAvoids(b: seq<Utf8.Byte>, c: char)
    requires Outside(c) || ((c == ',' || c == ':') && c as int !in b)
    ensures c !in EscapeAll(b)
  {
    if b != [] {
      EscapeAvoids(b[0], c);
      EscapeAllAvoids(b[1..], c);
    }
  }

  lemma EscapedAvoids(s: string, c: char)
    requires Outside(c) || ((c == ',' || c == ':') && c !in s)
    ensures c !in Escaped(s)
  {
    Utf8.AsciiOccurs(s, c);
    EscapeAllAvoids(Utf8.Encode(s), c);
  }

  lemma EscapedNotEmpty(s: string)
    requires s != ""
    ensures Escaped(s) != ""
  {
    EscapeClean(Utf8.Encode(s)[0]);
  }

  /** Letters, digits and `-_.,:` stand for themselves. */
  predicate Unchanged(c: char) {
    'a' <= c <= 'z' || 'A' <= c <= 'Z' || '0' <= c <= '9' || c == '-' || c == '_' || c == '.' || c == ',' || c == ':'
  }

  /** A text of such characters is its own encoding; any other is `%` and the two digits of its byte. */
  lemma {:induction false} EscapedMeans(s: string)
    requires forall c :: c in s ==> c as int < 0x80
    ensures (forall c :: c in s ==> Unchanged(c)) <==> Escaped(s) == s
    ensures |Escaped(s)| >= |s|
  {
    if s != "" {
      assert s[0] in s && s == [s[0]] + s[1..] && forall c :: c in s[1..] ==> c in s;
      EscapedMeans(s[1..]);
      var n := s[0] as int;
      assert Utf8.Encode(s) == [n] + Utf8.Encode(s[1..]);
      assert Utf8.Encode(s)[1..] == Utf8.Encode(s[1..]);
      assert Escaped(s) == Escape(n) + Escaped(s[1..]);
      if Unchanged(s[0]) {
        assert Escape(n) == [s[0]];
        assert (Escape(n) + Escaped(s[1..]))[1..] == Escaped(s[1..]) && s[1..] == s[1..];
      }
    }
  }

  // ---- Hosts ----

  /** `name`, `name:port`, or `[name]` and `[name]:port` for an address with colons. */
  datatype Host = Bare(name: string) | WithPort(name: string, port: string) | Bracketed(name: string) | BracketedPort(name: string, port: string)

  predicate Delimiter(c: char) { c == ',' || c == ':' || c == '/' || c == '@' || c == '?' }

  predicate PlainPort(port: string) { forall c :: c in port ==> !Delimiter(c) }

  predicate PlainHost(h: Host) {
    match h
    case Bare(name) => name != "" && ',' !in name && ':' !in name
    case WithPort(name, port) => name != "" && ',' !in name && ':' !in name && PlainPort(port)
    case Bracketed(name) => ',' !in name
    case BracketedPort(name, port) => ',' !in name && PlainPort(port)
  }

  function PortOf(h: Host): string {
    match h case Bare(_) => "" case WithPort(_, p) => p case Bracketed(_) => "" case BracketedPort(_, p) => p
  }

  function HostText(h: Host): string {
    match h
    case Bare(name) => Escaped(name)
    case WithPort(name, port) => Escaped(name) + [':'] + port
    case Bracketed(name) => ['['] + (Escaped(name) + [']'] + "")
    case BracketedPort(name, port) => ['['] + (Escaped(name) + [']'] + ([':'] + port))
  }

  /** None for a host specification without hosts. */
  function HostsText(hosts: seq<Host>): string {
    if hosts == [] then "" else if |hosts| == 1 then HostText(hosts[0]) else HostText(hosts[0]) + [','] + HostsText(hosts[1..])
  }

  function Names(hosts: seq<Host>): seq<string> { if hosts == [] then [] else [hosts[0].name] + Names(hosts[1..]) }

  function Ports(hosts: seq<Host>): seq<string> { if hosts == [] then [] else [PortOf(hosts[0])] + Ports(hosts[1..]) }

  lemma NameClean(name: string)
    requires ',' !in name
    ensures ',' !in Escaped(name) && '/' !in Escaped(name) && '@' !in Escaped(name) && '?' !in Escaped(name)
    ensures '[' !in Escaped(name) && ']' !in Escaped(name)
  {
    EscapedAvoids(name, ',');
    EscapedAvoids(name, '/');
    EscapedAvoids(name, '@');
    EscapedAvoids(name, '?');
    EscapedAvoids(name, '[');
    EscapedAvoids(name, ']');
  }

  lemma HostTextClean(h: Host)
    requires PlainHost(h)
    ensures ',' !in HostText(h) && '/' !in HostText(h) && '@' !in HostText(h) && '?' !in HostText(h) && HostText(h) != ""
  {
    NameClean(h.name);
    if h.name != "" {
      EscapedNotEmpty(h.name);
    }
  }

  lemma HostReadsBack(h: Host)
    requires PlainHost(h)
    ensures HostPort(HostText(h)) == Ok((Escaped(h.name), PortOf(h))) && PercentDecode(Escaped(h.name)) == Ok(h.name)
  {
    var n := Escaped(h.name);
    NameClean(h.name);
    DecodeEscaped(h.name);
    match h
    case Bare(name) =>
      EscapedNotEmpty(name);
      EscapedAvoids(name, ':');
      assert n[0] in n;
      RSplitOnceMissing(n, ':');
    case WithPort(name, port) =>
      EscapedNotEmpty(name);
      assert n[0] in n && HostText(h)[0] == n[0];
      RSplitOnceAt(n, ':', port);
    case Bracketed(name) =>
      assert HostText(h)[1..] == n + [']'] + "";
      SplitOnceAt(n, ']', "");
    case BracketedPort(name, port) =>
      assert HostText(h)[1..] == n + [']'] + ([':'] + port);
      SplitOnceAt(n, ']', [':'] + port);
      assert ([':'] + port)[1..] == port;
  }

  lemma {:induction false} HostsReadBack(hosts: seq<Host>)
    requires forall h :: h in hosts ==> PlainHost(h)
    ensures Hosts(Split(HostsText(hosts), ',')) == Ok((Names(hosts), Ports(hosts)))
    ensures '/' !in HostsText(hosts) && '@' !in HostsText(hosts) && '?' !in HostsText(hosts)
  {
    if hosts == [] {
      assert [""][1..] == [];
    } else {
      var t := HostText(hosts[0]);
      assert PlainHost(hosts[0]);
      HostTextClean(hosts[0]);
      HostReadsBack(hosts[0]);
      SplitWhole(t, ',');
      if |hosts| == 1 {
        assert [t][1..] == [] && hosts[1..] == [];
      } else {
        HostsReadBack(hosts[1..]);
        SplitConcat(t, ',', HostsText(hosts[1..]));
        var rest := Split(HostsText(hosts[1..]), ',');
        assert ([t] + rest)[1..] == rest;
      }
    }
  }

  /** A host that opens a bracket and never closes it is an error, and no other host is. */
  lemma HostFailsIff(h: string)
    ensures HostPort(h).Err? <==> h != "" && h[0] == '[' && ']' !in h[1..]
  {
    if h != "" {
      SplitOnceMissing(h[1..], ']');
    }
  }

  /** After a closing bracket only what follows a colon is a port. */
  lemma BracketTail(address: string, after: string)
    requires ']' !in address
    ensures HostPort(['['] + (address + [']'] + after)) == Ok((address, if [':'] <= after then after[1..] else ""))
  {
    assert (['['] + (address + [']'] + after))[1..] == address + [']'] + after;
    SplitOnceAt(address, ']', after);
  }

  /** Names and ports are listed with commas between them. */
  lemma {:induction false} JoinMeans(items: seq<string>)
    requires items != [] && forall t :: t in items ==> ',' !in t
    ensures Split(Join(items), ',') == items
  {
    assert items[0] in items;
    SplitWhole(items[0], ',');
    if |items| > 1 {
      JoinMeans(items[1..]);
      assert Join(items) == items[0] + [','] + Join(items[1..]);
      SplitConcat(items[0], ',', Join(items[1..]));
      assert items == [items[0]] + items[1..];
    } else {
      assert items == [items[0]];
    }
  }

  // ---- Before the hosts ----

  datatype Login = Nobody | User(user: string) | UserPassword(user: string, password: string)

  function LoginText(l: Login): string {
    match l
    case Nobody => ""
    case User(u) => Escaped(u) + ['@']
    case UserPassword(u, p) => Escaped(u) + [':'] + Escaped(p) + ['@']
  }

  function LoginPairs(l: Login): seq<Pair> {
    match l
    case Nobody => []
    case User(u) => [("user", u)]
    case UserPassword(u, p) => [("user", u), ("password", p)]
  }

  predicate PlainLogin(l: Login) { !l.Nobody? ==> ':' !in l.user }

  lemma LoginReadsBack(l: Login)
    requires PlainLogin(l) && !l.Nobody?
    ensures
      var t := LoginText(l);
      t[|t| - 1] == '@' && UserInfo(t[..|t| - 1]) == Ok(LoginPairs(l)) && '/' !in t && '?' !in t
  {
    var t, u := LoginText(l), Escaped(l.user);
    EscapedAvoids(l.user, ':');
    EscapedAvoids(l.user, '/');
    EscapedAvoids(l.user, '?');
    DecodeEscaped(l.user);
    if l.User? {
      assert t[..|t| - 1] == u;
      SplitOnceMissing(u, ':');
    } else {
      EscapedAvoids(l.password, '/');
      EscapedAvoids(l.password, '?');
      assert t[..|t| - 1] == u + [':'] + Escaped(l.password);
      SplitOnceAt(u, ':', Escaped(l.password));
      DecodeEscaped(l.password);
    }
  }

  // ---- After them ----

  function DbText(db: Option<string>): string { match db case None => "" case Some(d) => ['/'] + Escaped(d) }

  /** Before the query. */
  function FrontText(l: Login, hosts: seq<Host>, db: Option<string>): string { LoginText(l) + HostsText(hosts) + DbText(db) }

  /** The pairs they stand for: the ports only if some host has one, the database only if it has a name. */
  function FrontParts(l: Login, hosts: seq<Host>, db: Option<string>): seq<Pair> {
    LoginPairs(l)
    + (if hosts == [] then [] else [("host", Join(Names(hosts)))])
    + (if exists h :: h in hosts && PortOf(h) != "" then [("port", Join(Ports(hosts)))] else [])
    + (if db.None? || db.value == "" then [] else [("dbname", db.value)])
  }

  lemma {:induction false} PortsAt(hosts: seq<Host>)
    ensures |Ports(hosts)| == |hosts| == |Names(hosts)|
    ensures forall i :: 0 <= i < |hosts| ==> Ports(hosts)[i] == PortOf(hosts[i])
  {
    if hosts != [] {
      PortsAt(hosts[1..]);
    }
  }

  lemma SomePort(hosts: seq<Host>)
    ensures (exists p :: p in Ports(hosts) && p != "") <==> exists h :: h in hosts && PortOf(h) != ""
  {
    PortsAt(hosts);
    if p :| p in Ports(hosts) && p != "" {
      var i :| 0 <= i < |hosts| && Ports(hosts)[i] == p;
      assert hosts[i] in hosts;
    }
    if h :| h in hosts && PortOf(h) != "" {
      var i :| 0 <= i < |hosts| && hosts[i] == h;
      assert Ports(hosts)[i] in Ports(hosts);
    }
  }

  lemma Regroup(a: seq<Pair>, b: seq<Pair>, c: seq<Pair>, d: seq<Pair>)
    ensures a + b + c + d == a + (b + c) + d
  {}

  lemma PartsAre(l: Login, hosts: seq<Host>, db: Option<string>)
    ensures FrontParts(l, hosts, db) ==
            LoginPairs(l) + HostPairs(Names(hosts), Ports(hosts)) + if db.None? || db.value == "" then [] else [("dbname", db.value)]
  {
    PortsAt(hosts);
    SomePort(hosts);
    Regroup(LoginPairs(l),
            if hosts == [] then [] else [("host", Join(Names(hosts)))],
            if exists h :: h in hosts && PortOf(h) != "" then [("port", Join(Ports(hosts)))] else [],
            if db.None? || db.value == "" then [] else [("dbname", db.value)]);
  }

  lemma LoginCut(t: string, h: string)
    requires t != "" && t[|t| - 1] == '@' && '@' !in h
    ensures RSplitOnce(t + h, '@') == Some((t[..|t| - 1], h))
  {
    assert t == t[..|t| - 1] + ['@'];
    RSplitOnceAt(t[..|t| - 1], '@', h);
  }

  lemma DbCut(a: string, e: string)
    requires '/' !in a
    ensures SplitOnce(a + (['/'] + e), '/') == Some((a, e)) && SplitOnce(a + "", '/').None? && a + "" == a
  {
    assert a + (['/'] + e) == a + ['/'] + e && a + "" == a;
    SplitOnceAt(a, '/', e);
    SplitOnceMissing(a, '/');
  }

  /** What the cut at the last `@` gives. */
  ghost predicate LoginAt(authority: string, us: seq<Pair>, hostspec: string) {
    match RSplitOnce(authority, '@')
    case Some((u, h)) => UserInfo(u) == Ok(us) && h == hostspec
    case None => us == [] && hostspec == authority
  }

  lemma AuthorityCut(l: Login, h: string)
    requires PlainLogin(l) && '@' !in h && '/' !in h && '?' !in h
    ensures LoginAt(LoginText(l) + h, LoginPairs(l), h) && '/' !in LoginText(l) + h && '?' !in LoginText(l) + h
  {
    if l.Nobody? {
      assert "" + h == h;
      RSplitOnceMissing(h, '@');
    } else {
      LoginReadsBack(l);
      LoginCut(LoginText(l), h);
    }
  }

  /** The front of a URI from what its cuts give. */
  lemma FrontIs(s: string, authority: string, d: string, us: seq<Pair>, hostspec: string, names: seq<string>, ports: seq<string>, db: string)
    requires SplitOnce(s, '/') == Some((authority, d)) || (SplitOnce(s, '/').None? && authority == s && d == "")
    requires LoginAt(authority, us, hostspec)
    requires Hosts(Split(hostspec, ',')) == Ok((names, ports)) && (d != "" ==> PercentDecode(d) == Ok(db))
    ensures Front(s) == Ok(us + HostPairs(names, ports) + if d == "" then [] else [("dbname", db)])
  {
    var front := us + HostPairs(names, ports);
    assert front + [] == front;
  }

  lemma DbReadsBack(d: string)
    ensures PercentDecode(Escaped(d)) == Ok(d) && (Escaped(d) == "" <==> d == "") && '?' !in Escaped(d)
  {
    DecodeEscaped(d);
    EscapedAvoids(d, '?');
    if d == "" {
      assert Utf8.Encode("") == [];
    } else {
      EscapedNotEmpty(d);
    }
  }

  lemma FrontOf(authority: string, us: seq<Pair>, hostspec: string, names: seq<string>, ports: seq<string>, db: Option<string>)
    requires LoginAt(authority, us, hostspec) && Hosts(Split(hostspec, ',')) == Ok((names, ports))
    requires '/' !in authority && '?' !in authority
    ensures Front(authority + DbText(db)) ==
            Ok(us + HostPairs(names, ports) + if db.None? || db.value == "" then [] else [("dbname", db.value)])
    ensures '?' !in authority + DbText(db)
  {
    var d := if db.None? then "" else db.value;
    DbReadsBack(d);
    DbCut(authority, Escaped(d));
    FrontIs(authority + DbText(db), authority, Escaped(d), us, hostspec, names, ports, d);
  }

  lemma FrontReadsBack(l: Login, hosts: seq<Host>, db: Option<string>)
    requires PlainLogin(l) && forall h :: h in hosts ==> PlainHost(h)
    ensures Front(FrontText(l, hosts, db)) == Ok(FrontParts(l, hosts, db)) && '?' !in FrontText(l, hosts, db)
  {
    HostsReadBack(hosts);
    AuthorityCut(l, HostsText(hosts));
    PartsAre(l, hosts, db);
    FrontOf(LoginText(l) + HostsText(hosts), LoginPairs(l), HostsText(hosts), Names(hosts), Ports(hosts), db);
  }

  // ---- The query ----

  function ParameterText(p: Pair): string { Escaped(p.0) + ['='] + Escaped(p.1) }

  function QueryText(ps: seq<Pair>): string
    requires ps != []
  {
    if |ps| == 1 then ParameterText(ps[0]) else ParameterText(ps[0]) + ['&'] + QueryText(ps[1..])
  }

  lemma ParameterReadsBack(p: Pair)
    ensures Parameters(Split(ParameterText(p), '&')) == Ok([p])
  {
    var (k, v) := (Escaped(p.0), Escaped(p.1));
    EscapedAvoids(p.0, '&');
    EscapedAvoids(p.1, '&');
    EscapedAvoids(p.0, '=');
    SplitWhole(ParameterText(p), '&');
    SplitOnceAt(k, '=', v);
    DecodeEscaped(p.0);
    DecodeEscaped(p.1);
    assert [ParameterText(p)][1..] == [];
    PrefixedTwice([p], [], Ok([]));
  }

  lemma {:induction false} QueryReadsBack(ps: seq<Pair>)
    requires ps != []
    ensures Parameters(Split(QueryText(ps), '&')) == Ok(ps)
  {
    ParameterReadsBack(ps[0]);
    if |ps| == 1 {
      assert ps == [ps[0]];
    } else {
      QueryReadsBack(ps[1..]);
      SplitConcat(ParameterText(ps[0]), '&', QueryText(ps[1..]));
      ParametersConcat(Split(ParameterText(ps[0]), '&'), Split(QueryText(ps[1..]), '&'));
      assert ps == [ps[0]] + ps[1..];
    }
  }

  /** A piece of the query without `=` is an error. */
  lemma ParameterFails(piece: string, rest: seq<string>)
    requires piece != "" && '=' !in piece
    ensures Parameters([piece] + rest) == Err(BadParameter)
  {
    SplitOnceMissing(piece, '=');
  }

  function UriText(l: Login, hosts: seq<Host>, db: Option<string>, ps: seq<Pair>): string {
    FrontText(l, hosts, db) + if ps == [] then "" else ['?'] + QueryText(ps)
  }

  lemma UriIs(rest: string, before: string, pieces: seq<string>, front: seq<Pair>, ps: seq<Pair>)
    requires (SplitOnce(rest, '?').None? && before == rest && pieces == []) ||
             (SplitOnce(rest, '?').Some? && SplitOnce(rest, '?').value.0 == before && Split(SplitOnce(rest, '?').value.1, '&') == pieces)
    requires Front(before) == Ok(front) && Parameters(pieces) == Ok(ps)
    ensures Uri(rest) == Ok(front + ps)
  {}

  lemma QueryFollows(front: string, fs: seq<Pair>, q: string, ps: seq<Pair>)
    requires '?' !in front && Front(front) == Ok(fs) && Parameters(Split(q, '&')) == Ok(ps)
    ensures Uri(front + ['?'] + q) == Ok(fs + ps)
  {
    SplitOnceAt(front, '?', q);
    UriIs(front + ['?'] + q, front, Split(q, '&'), fs, ps);
  }

  lemma NoQuery(front: string, fs: seq<Pair>)
    requires '?' !in front && Front(front) == Ok(fs)
    ensures Uri(front) == Ok(fs + [])
  {
    SplitOnceMissing(front, '?');
    UriIs(front, front, [], fs, []);
  }

  lemma Ending(front: string, q: string)
    ensures front + "" == front && front + (['?'] + q) == front + ['?'] + q
  {}

  /** A URI spelled from a login, hosts, a database and parameters, any of them left out, parses to their pairs. */
  lemma UriReadsBack(l: Login, hosts: seq<Host>, db: Option<string>, ps: seq<Pair>)
    requires PlainLogin(l) && forall h :: h in hosts ==> PlainHost(h)
    ensures Uri(UriText(l, hosts, db, ps)) == Ok(FrontParts(l, hosts, db) + ps)
  {
    FrontReadsBack(l, hosts, db);
    WithQuery(FrontText(l, hosts, db), FrontParts(l, hosts, db), ps);
  }

  lemma WithQuery(front: string, fs: seq<Pair>, ps: seq<Pair>)
    requires '?' !in front && Front(front) == Ok(fs)
    ensures Uri(front + if ps == [] then "" else ['?'] + QueryText(ps)) == Ok(fs + ps)
  {
    if ps == [] {
      Ending(front, "");
      NoQuery(front, fs);
    } else {
      QueryReadsBack(ps);
      Ending(front, QueryText(ps));
      QueryFollows(front, fs, QueryText(ps), ps);
    }
  }

  // ---- The key/value form ----

  /** A value in quotes, or bare with escapes. */
  datatype Style = Quoted | Bare

  function QuotedText(v: string): string {
    if v == "" then "" else (if v[0] == '\'' || v[0] == '\\' then ['\\', v[0]] else [v[0]]) + QuotedText(v[1..])
  }

  function BareText(v: string): string {
    if v == "" then "" else (if v[0] == '\\' || v[0] == '\'' || IsSpace(v[0]) then ['\\', v[0]] else [v[0]]) + BareText(v[1..])
  }

  function ValueText(style: Style, v: string): string {
    match style case Quoted => ['\''] + (QuotedText(v) + ['\'']) case Bare => BareText(v)
  }

  lemma {:induction false} QuotedReadsBack(v: string, rest: string)
    ensures QuotedValue(QuotedText(v) + ['\''] + rest) == Ok((v, rest))
  {
    var s := QuotedText(v) + ['\''] + rest;
    if v == "" {
      assert s[1..] == rest;
    } else {
      QuotedReadsBack(v[1..], rest);
      var more := QuotedText(v[1..]) + ['\''] + rest;
      assert v == [v[0]] + v[1..];
      if v[0] == '\'' || v[0] == '\\' {
        assert s == ['\\', v[0]] + more && s[2..] == more;
      } else {
        assert s == [v[0]] + more && s[1..] == more;
      }
    }
  }

  /** Without the closing quote, or after a lone backslash, it is the error for that. */
  lemma {:induction false} QuotedFails(v: string)
    ensures QuotedValue(QuotedText(v)) == Err(OpenQuote) && QuotedValue(QuotedText(v) + ['\\']) == Err(OpenEscape)
  {
    var (q, t) := (QuotedText(v), QuotedText(v) + ['\\']);
    if v != "" {
      QuotedFails(v[1..]);
      var (more, most) := (QuotedText(v[1..]), QuotedText(v[1..]) + ['\\']);
      if v[0] == '\'' || v[0] == '\\' {
        assert q == ['\\', v[0]] + more && q[2..] == more && t == ['\\', v[0]] + most && t[2..] == most;
      } else {
        assert q == [v[0]] + more && q[1..] == more && t == [v[0]] + most && t[1..] == most;
      }
    }
  }

  lemma {:induction false} BareReadsBack(v: string, rest: string)
    requires rest == "" || IsSpace(rest[0])
    ensures BareValue(BareText(v) + rest) == Ok((v, rest))
  {
    var s := BareText(v) + rest;
    if v == "" {
      assert s == rest;
    } else {
      BareReadsBack(v[1..], rest);
      var more := BareText(v[1..]) + rest;
      assert v == [v[0]] + v[1..];
      if v[0] == '\\' || v[0] == '\'' || IsSpace(v[0]) {
        assert s == ['\\', v[0]] + more && s[2..] == more;
      } else {
        assert s == [v[0]] + more && s[1..] == more;
      }
    }
  }

  /** A bare value that ends in a lone backslash is the error for that. */
  lemma {:induction false} BareFails(v: string)
    ensures BareValue(BareText(v) + ['\\']) == Err(OpenEscape)
  {
    var t := BareText(v) + ['\\'];
    if v != "" {
      BareFails(v[1..]);
      var most := BareText(v[1..]) + ['\\'];
      if v[0] == '\\' || v[0] == '\'' || IsSpace(v[0]) {
        assert t == ['\\', v[0]] + most && t[2..] == most;
      } else {
        assert t == [v[0]] + most && t[1..] == most;
      }
    }
  }

  /** A bare empty value would take what follows the spaces after it. */
  predicate Spellable(style: Style, v: string) { style.Bare? ==> v != "" }

  lemma OpensQuote(u: string, v: string, rest: string)
    requires QuotedValue(u + ['\''] + rest) == Ok((v, rest))
    ensures Value(['\''] + (u + ['\'']) + rest) == Ok((v, rest))
  {
    assert (['\''] + (u + ['\'']) + rest)[1..] == u + ['\''] + rest;
  }

  lemma BareHead(v: string)
    requires v != ""
    ensures BareText(v) != "" && BareText(v)[0] != '\'' && !IsSpace(BareText(v)[0])
  {}

  lemma ValueReadsBack(style: Style, v: string, rest: string)
    requires Spellable(style, v) && (rest == "" || IsSpace(rest[0]))
    ensures Value(ValueText(style, v) + rest) == Ok((v, rest))
    ensures ValueText(style, v) != "" && !IsSpace(ValueText(style, v)[0])
  {
    match style
    case Quoted =>
      QuotedReadsBack(v, rest);
      OpensQuote(QuotedText(v), v, rest);
    case Bare =>
      BareReadsBack(v, rest);
      BareHead(v);
      assert (BareText(v) + rest)[0] == BareText(v)[0];
  }

  /** A pair with its style. */
  type Styled = (Pair, Style)

  function PairText(p: Styled): string { p.0.0 + (['='] + ValueText(p.1, p.0.1)) }

  function PairsText(ps: seq<Styled>): string {
    if ps == [] then "" else if |ps| == 1 then PairText(ps[0]) else PairText(ps[0]) + ([' '] + PairsText(ps[1..]))
  }

  function Unstyled(ps: seq<Styled>): seq<Pair> { if ps == [] then [] else [ps[0].0] + Unstyled(ps[1..]) }

  lemma SkipNone(s: string)
    requires s == "" || !IsSpace(s[0])
    ensures Skip(s) == s
  {}

  lemma KeyReadsBack(k: string, w: string)
    requires PlainKey(k) && w != "" && !IsSpace(w[0])
    ensures
      var s := k + (['='] + w);
      s != "" && Skip(s) == s && AfterKey(s) == Some((k, w))
  {
    var s := k + (['='] + w);
    assert k[0] in k && s[0] == k[0];
    SkipNone(s);
    KeyLengthPlain(k, ['='] + w);
    assert s[..|k|] == k && s[|k|..] == ['='] + w;
    SkipNone(['='] + w);
    assert (['='] + w)[1..] == w;
    SkipNone(w);
  }

  lemma PairThen(k: string, w: string, v: string, rest: string)
    requires PlainKey(k) && w != "" && !IsSpace(w[0]) && Value(w) == Ok((v, rest))
    ensures KeyValue(k + (['='] + w)) == Prefixed([(k, v)], KeyValue(rest))
  {
    KeyReadsBack(k, w);
  }

  lemma PairReadsBack(p: Styled, rest: string)
    requires PlainKey(p.0.0) && Spellable(p.1, p.0.1) && (rest == "" || IsSpace(rest[0]))
    ensures KeyValue(PairText(p) + rest) == Prefixed([p.0], KeyValue(rest))
  {
    var (k, v) := p.0;
    var w := ValueText(p.1, v) + rest;
    ValueReadsBack(p.1, v, rest);
    assert w[0] == ValueText(p.1, v)[0];
    PairThen(k, w, v, rest);
    assert PairText(p) + rest == k + (['='] + w);
  }

  /** Pairs spelled with either style of value, one space between them, parse to those pairs, whatever the values. */
  lemma {:induction false} KeyValueReadsBack(ps: seq<Styled>)
    requires forall p :: p in ps ==> PlainKey(p.0.0) && Spellable(p.1, p.0.1)
    ensures KeyValue(PairsText(ps)) == Ok(Unstyled(ps))
  {
    if ps != [] {
      assert ps[0] in ps;
      if |ps| == 1 {
        PairReadsBack(ps[0], "");
        assert PairText(ps[0]) + "" == PairText(ps[0]) && ps[1..] == [] && [ps[0].0] + [] == [ps[0].0];
      } else {
        KeyValueReadsBack(ps[1..]);
        var rest := [' '] + PairsText(ps[1..]);
        PairReadsBack(ps[0], rest);
        assert rest[1..] == PairsText(ps[1..]);
        SkipsOn(rest);
      }
    }
  }

  lemma SkipsOn(s: string)
    requires s != "" && IsSpace(s[0])
    ensures KeyValue(s) == KeyValue(s[1..])
  {
    assert Skip(s) == Skip(s[1..]);
  }

  // ---- Which of the two ----

  lemma SchemeMeans(s: string, rest: string)
    ensures UriRest(s) == Some(rest) <==> s == "postgresql://" + rest || s == "postgres://" + rest || s == "mysql://" + rest
  {
    assert "postgresql://"[8] != "postgres://"[8] && "mysql://"[0] != "postgres://"[0];
    if s == "postgresql://" + rest {
      assert s[|Schemes()[0]|..] == rest;
    } else if s == "postgres://" + rest {
      assert s[8] == ':' && s[|Schemes()[1]|..] == rest;
    } else if s == "mysql://" + rest {
      assert s[0] == 'm' && s[|Schemes()[2]|..] == rest;
    }
  }

  /** White space around the string is not part of it. */
  lemma TrimMeans(before: string, s: string, after: string)
    requires (forall c :: c in before ==> IsSpace(c)) && forall c :: c in after ==> IsSpace(c)
    requires s == "" || (!IsSpace(s[0]) && !IsSpace(s[|s| - 1]))
    ensures Trim(before + s + after) == s
  {
    SkipSpaces(before, s + after);
    assert before + s + after == before + (s + after);
    if s == "" {
      assert s + after == after;
      SkipSpaces(after, "");
      assert after + "" == after;
    } else {
      SkipNone(s + after);
    }
    TrimEndSpaces(s, if s == "" then "" else after);
  }

  lemma {:induction false} SkipSpaces(a: string, s: string)
    requires forall c :: c in a ==> IsSpace(c)
    ensures Skip(a + s) == Skip(s)
  {
    if a == "" {
      assert a + s == s;
    } else {
      assert a[0] in a && (a + s)[1..] == a[1..] + s;
      SkipSpaces(a[1..], s);
    }
  }

  lemma {:induction false} TrimEndSpaces(s: string, b: string)
    requires (forall c :: c in b ==> IsSpace(c)) && (s == "" || !IsSpace(s[|s| - 1]))
    ensures TrimEnd(s + b) == s
  {
    if b == "" {
      assert s + b == s;
    } else {
      assert b[|b| - 1] in b && (s + b)[..|s + b| - 1] == s + b[..|b| - 1];
      TrimEndSpaces(s, b[..|b| - 1]);
    }
  }

  /** A scheme makes it a URI, white space around it or not; without one it is key/value. */
  lemma ParsePairsIs(before: string, s: string, after: string)
    requires (forall c :: c in before ==> IsSpace(c)) && forall c :: c in after ==> IsSpace(c)
    requires s == "" || (!IsSpace(s[0]) && !IsSpace(s[|s| - 1]))
    ensures forall rest :: s == "postgresql://" + rest || s == "postgres://" + rest || s == "mysql://" + rest ==>
              ParsePairs(before + s + after) == Uri(rest)
    ensures (forall rest :: s != "postgresql://" + rest && s != "postgres://" + rest && s != "mysql://" + rest) ==>
              ParsePairs(before + s + after) == KeyValue(s)
  {
    TrimMeans(before, s, after);
    forall rest ensures UriRest(s) == Some(rest) <==> s == "postgresql://" + rest || s == "postgres://" + rest || s == "mysql://" + rest {
      SchemeMeans(s, rest);
    }
  }

  /** The 25 white space characters of Unicode. */
  lemma SpacesAre(c: char)
    ensures IsSpace(c) <==>
            || c in {'\U{0009}', '\U{000A}', '\U{000B}', '\U{000C}', '\U{000D}', ' ', '\U{0085}', '\U{00A0}', '\U{1680}'}
            || c in {'\U{2000}', '\U{2001}', '\U{2002}', '\U{2003}', '\U{2004}', '\U{2005}', '\U{2006}', '\U{2007}', '\U{2008}'}
            || c in {'\U{2009}', '\U{200A}', '\U{2028}', '\U{2029}', '\U{202F}', '\U{205F}', '\U{3000}'}
  {}
}

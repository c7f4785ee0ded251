/** The URLs that http_parser_parse_url accepts, as a grammar: every URL is taken apart into exactly its parts. */
module HttpUrlGrammar {
  import opened HttpChars
  import opened HttpMachine
  import opened HttpUrl
  import opened Options

  // ----- The grammar -----

  type Text = seq<Octet>

  /** A name, or an IPv6 address with a zone, which may be empty. */
  datatype Host = Name(name: Text) | Ipv6(address: Text, zone: Text)

  /** A port without digits is absent. */
  datatype Authority = Authority(userinfo: Option<Text>, host: Host, port: Text)

  /** A schema or path without characters is absent. */
  datatype Url = Url(schema: Text, authority: Option<Authority>, path: Text, query: Option<Text>,
                     fragment: Option<Text>)

  predicate AllAlpha(t: Text) { forall i :: 0 <= i < |t| ==> IsAlpha(t[i]) }

  predicate AllUserinfo(t: Text) { forall i :: 0 <= i < |t| ==> IsUserinfoChar(t[i]) }

  predicate AllHost(t: Text) { forall i :: 0 <= i < |t| ==> IsHostChar(t[i]) }

  predicate AllV6(t: Text) { forall i :: 0 <= i < |t| ==> InV6(t[i]) }

  predicate AllZone(t: Text) { forall i :: 0 <= i < |t| ==> InZone(t[i]) }

  predicate AllUrl(t: Text) { forall i :: 0 <= i < |t| ==> IsUrlChar(t[i]) }

  predicate AllQuery(t: Text) { forall i :: 0 <= i < |t| ==> IsUrlChar(t[i]) || t[i] == '?' }

  predicate AllFragment(t: Text) { forall i :: 0 <= i < |t| ==> IsUrlChar(t[i]) || t[i] == '?' || t[i] == '#' }

  predicate ValidHost(h: Host) {
    match h
    case Name(name) => name != [] && AllHost(name)
    case Ipv6(address, zone) => address != [] && AllV6(address) && AllZone(zone)
  }

  predicate ValidAuthority(a: Authority) {
    && (a.userinfo.Some? ==> AllUserinfo(a.userinfo.value))
    && ValidHost(a.host)
    && AllDigits(a.port, 0, |a.port|)
  }

  /** The parts in their places: without CONNECT an authority comes with a schema. */
  predicate ValidParts(u: Url, connect: bool) {
    && AllAlpha(u.schema) && (u.authority.Some? ==> ValidAuthority(u.authority.value))
    && (if connect then u.schema == [] && u.authority.Some? else u.authority.Some? <==> u.schema != [])
    && AllUrl(u.path) && (u.authority.None? ==> u.path != [])
    && (u.path != [] ==> u.path[0] == '/' || (u.path[0] == '*' && u.authority.None?))
    && (u.query.Some? ==> AllQuery(u.query.value))
    && (u.fragment.Some? ==> AllFragment(u.fragment.value) && (u.path != [] || u.query.Some?))
  }

  /** The port is a 16-bit number, and after CONNECT there is a host and a port and nothing else. */
  predicate ValidUrl(u: Url, connect: bool) {
    ValidParts(u, connect) && PortOf(u) <= 0xffff && (connect ==> OnlyHostAndPort(FieldsOf(u)))
  }

  // ----- As text -----

  function HostText(h: Host): Text {
    match h
    case Name(name) => name
    case Ipv6(address, zone) => ['['] + address + (if zone == [] then [] else ['%'] + zone) + [']']
  }

  function UserinfoText(a: Authority): Text { if a.userinfo.None? then [] else a.userinfo.value + ['@'] }

  function PortText(port: Text): Text { if port == [] then [] else [':'] + port }

  function AuthorityText(a: Authority): Text { UserinfoText(a) + HostText(a.host) + PortText(a.port) }

  function SchemaText(schema: Text): Text { if schema == [] then [] else schema + [':', '/', '/'] }

  function ServerText(u: Url): Text { if u.authority.None? then [] else AuthorityText(u.authority.value) }

  function QueryText(query: Option<Text>): Text { if query.None? then [] else ['?'] + query.value }

  function FragmentText(fragment: Option<Text>): Text { if fragment.None? then [] else ['#'] + fragment.value }

  function UrlText(u: Url): Text {
    SchemaText(u.schema) + ServerText(u) + u.path + QueryText(u.query) + FragmentText(u.fragment)
  }

  // ----- Where the parts are -----

  function Place(off: nat, len: nat): Option<Range> { if len == 0 then None else Some(Range(off, len)) }

  /** How many `#` a fragment begins with; they are not part of the field. */
  function Hashes(t: Text): (n: nat)
    ensures n <= |t|
  {
    if t != [] && t[0] == '#' then 1 + Hashes(t[1..]) else 0
  }

  function UserinfoPlace(a: Authority, off: nat): Option<Range> {
    if a.userinfo.None? then None else Place(off, |a.userinfo.value|)
  }

  /** The field of the host is without the brackets. */
  function HostPlace(h: Host, off: nat): Option<Range> {
    match h
    case Name(name) => Place(off, |name|)
    case Ipv6(address, zone) => Place(off + 1, |address| + if zone == [] then 0 else 1 + |zone|)
  }

  function QueryPlace(query: Option<Text>, off: nat): Option<Range> {
    if query.None? then None else Place(off + 1, |query.value|)
  }

  function FragmentPlace(fragment: Option<Text>, off: nat): Option<Range> {
    if fragment.None? then None
    else var n := Hashes(fragment.value); Place(off + 1 + n, |fragment.value| - n)
  }

  function FieldsOf(u: Url): Fields {
    var a := |SchemaText(u.schema)|;
    var p := a + |ServerText(u)|;
    var q := p + |u.path|;
    var f := q + |QueryText(u.query)|;
    var server := if u.authority.None? then [None, None, None] else ServerFields(u.authority.value, a);
    [Place(0, |u.schema|)] + server + [Place(p, |u.path|), QueryPlace(u.query, q), FragmentPlace(u.fragment, f)]
  }

  function ServerFields(a: Authority, off: nat): (r: seq<Option<Range>>)
    ensures |r| == 3
  {
    var h := off + |UserinfoText(a)|;
    [UserinfoPlace(a, off), HostPlace(a.host, h), Place(h + |HostText(a.host)| + 1, |a.port|)]
  }

  function PortOf(u: Url): nat {
    if u.authority.None? then 0 else DecimalValue(u.authority.value.port, 0, |u.authority.value.port|)
  }

  // ----- Reading: the first pass -----

  /** One byte. */
  lemma {:induction false} ByteRead(buf: Text, connect: bool, i: nat, t: UrlState)
    requires i < |buf| && ScanUrl(buf, connect, i).Some?
    requires UrlNext(ScanUrl(buf, connect, i).value.state, buf[i]) == UrlOk(t)
    ensures var b := ScanUrl(buf, connect, i).value;
            var fields := if Skips(t) then b.fields
                          else AddByte(b.fields, i, Rank(t), Reads(b.state) && RankOf(b.state) == Rank(t));
            ScanUrl(buf, connect, i + 1) == Some(Scan(Some(t), fields, b.foundAt || t.ServerWithAt?))
  {
    hide UrlNext, AddByte, Skips;
  }

  /** One part, whose first byte leads to the state t and whose others stay there. */
  lemma {:induction false} PartRead(buf: Text, connect: bool, i: nat, n: nat, t: UrlState)
    requires 0 < n && i + n <= |buf| && ScanUrl(buf, connect, i).Some? && !Skips(t) && !t.ServerWithAt?
    requires var b := ScanUrl(buf, connect, i).value;
             && UrlNext(b.state, buf[i]) == UrlOk(t) && !(Reads(b.state) && RankOf(b.state) == Rank(t))
    requires forall k :: i < k < i + n ==> UrlNext(Some(t), buf[k]) == UrlOk(t)
    ensures var b := ScanUrl(buf, connect, i).value;
            ScanUrl(buf, connect, i + n) == Some(Scan(Some(t), b.fields[Rank(t) := Some(Range(i, n))], b.foundAt))
  {
    hide UrlNext, ScanUrl;
    var b := ScanUrl(buf, connect, i).value;
    if n > 1 {
      PartRead(buf, connect, i, n - 1, t);
      assert UrlNext(Some(t), buf[i + n - 1]) == UrlOk(t);
      ByteRead(buf, connect, i + n - 1, t);
      TwiceSet(b.fields, Rank(t), Some(Range(i, n - 1)), Some(Range(i, n)));
    } else {
      ByteRead(buf, connect, i, t);
    }
  }

  lemma {:induction false} TwiceSet(fields: Fields, k: nat, x: Option<Range>, y: Option<Range>)
    requires k < 7
    ensures fields[k := x][k := y] == fields[k := y]
  {
  }

  /** The text of a part stands at position o. */
  predicate StandsAt(buf: Text, o: nat, t: Text) { o + |t| <= |buf| && buf[o..o + |t|] == t }

  lemma {:induction false} StandsApart(buf: Text, o: nat, a: Text, b: Text)
    requires StandsAt(buf, o, a + b)
    ensures StandsAt(buf, o, a) && StandsAt(buf, o + |a|, b) && o + |a| + |b| <= |buf|
  {
    assert buf[o..o + |a|] == buf[o..o + |a + b|][..|a|];
    assert buf[o + |a|..o + |a| + |b|] == buf[o..o + |a + b|][|a|..];
  }

  lemma {:induction false} StandsByte(buf: Text, o: nat, t: Text, k: nat)
    requires StandsAt(buf, o, t) && k < |t|
    ensures o + |t| <= |buf| && buf[o + k] == t[k]
  {
    assert buf[o..o + |t|][k] == t[k];
  }

  lemma {:induction false} StandsBytes(buf: Text, o: nat, t: Text)
    requires StandsAt(buf, o, t)
    ensures o + |t| <= |buf| && forall k :: o <= k < o + |t| ==> buf[k] == t[k - o]
  {
    forall k | o <= k < o + |t|
      ensures buf[k] == t[k - o]
    {
      StandsByte(buf, o, t, k - o);
    }
  }

  lemma {:induction false} SchemaRead(buf: Text, schema: Text)
    requires schema != [] && AllAlpha(schema) && StandsAt(buf, 0, SchemaText(schema))
    ensures ScanUrl(buf, false, |schema| + 3)
            == Some(Scan(Some(ServerStart), NO_FIELDS[SCHEMA := Some(Range(0, |schema|))], false))
  {
    hide ScanUrl, UrlNext, IsAlpha, StandsAt;
    var n := |schema|;
    assert SchemaText(schema) == schema + [':', '/', '/'];
    StandsApart(buf, 0, schema, [':', '/', '/']);
    StandsBytes(buf, 0, schema);
    StandsBytes(buf, n, [':', '/', '/']);
    Begins(buf, false);
    AlphaSteps();
    PartRead(buf, false, 0, n, Schema);
    DelimiterSteps();
    ByteRead(buf, false, n, SchemaSlash);
    ByteRead(buf, false, n + 1, SchemaSlashSlash);
    ByteRead(buf, false, n + 2, ServerStart);
  }

  lemma {:induction false} Begins(buf: Text, connect: bool)
    ensures ScanUrl(buf, connect, 0) == Some(Scan(if connect then Some(ServerStart) else None, NO_FIELDS, false))
  {
  }

  lemma {:induction false} AlphaSteps()
    ensures forall c: Octet :: IsAlpha(c) ==>
              UrlNext(None, c) == UrlOk(Schema) && UrlNext(Some(Schema), c) == UrlOk(Schema)
  {
  }

  lemma {:induction false} DelimiterSteps()
    ensures UrlNext(Some(Schema), ':') == UrlOk(SchemaSlash)
    ensures UrlNext(Some(SchemaSlash), '/') == UrlOk(SchemaSlashSlash)
    ensures UrlNext(Some(SchemaSlashSlash), '/') == UrlOk(ServerStart)
    ensures UrlNext(Some(Path), '?') == UrlNext(Some(Server), '?') == UrlNext(Some(ServerWithAt), '?')
            == UrlOk(QueryStringStart)
    ensures UrlNext(Some(Path), '#') == UrlNext(Some(QueryStringStart), '#') == UrlNext(Some(QueryString), '#')
            == UrlNext(Some(FragmentStart), '#') == UrlOk(FragmentStart)
    ensures UrlNext(None, '/') == UrlNext(Some(Server), '/') == UrlNext(Some(ServerWithAt), '/') == UrlOk(Path)
    ensures UrlNext(None, '*') == UrlOk(Path)
  {
  }

  // ----- The server -----

  predicate IsServerChar(c: Octet) { IsUserinfoChar(c) || c == '[' || c == ']' }

  /** What the first pass takes for a server: no two `@` in a row. */
  predicate AllServer(t: Text) {
    && (forall i :: 0 <= i < |t| ==> IsServerChar(t[i]) || t[i] == '@')
    && (forall i :: 0 < i < |t| ==> t[i] != '@' || t[i - 1] != '@')
  }

  function AfterServer(c: Octet): UrlState { if c == '@' then ServerWithAt else Server }

  lemma {:induction false} ServerSteps(c: Octet)
    requires IsServerChar(c) || c == '@'
    ensures UrlNext(Some(ServerStart), c) == UrlNext(Some(Server), c) == UrlOk(AfterServer(c))
    ensures c != '@' ==> UrlNext(Some(ServerWithAt), c) == UrlOk(Server)
  {
  }

  /** One more byte of the server. */
  lemma {:induction false} ServerByte(buf: Text, connect: bool, i: nat, n: nat, fields: Fields, foundAt: bool, c: Octet)
    requires 0 < n && i + n < |buf| && buf[i + n] == c && (IsServerChar(c) || (c == '@' && buf[i + n - 1] != '@'))
    requires ScanUrl(buf, connect, i + n)
             == Some(Scan(Some(AfterServer(buf[i + n - 1])), fields[HOST := Some(Range(i, n))], foundAt))
    ensures ScanUrl(buf, connect, i + n + 1)
            == Some(Scan(Some(AfterServer(c)), fields[HOST := Some(Range(i, n + 1))], foundAt || c == '@'))
  {
    hide ScanUrl, UrlNext, IsServerChar;
    ServerSteps(c);
    NoUserinfoAt(c);
    ByteRead(buf, connect, i + n, AfterServer(c));
    TwiceSet(fields, HOST, Some(Range(i, n)), Some(Range(i, n + 1)));
  }

  lemma {:induction false} NoUserinfoAt(c: Octet)
    ensures IsServerChar(c) ==> c != '@'
  {
  }

  lemma {:induction false} ServerRead(buf: Text, connect: bool, i: nat, t: Text)
    requires t != [] && AllServer(t) && StandsAt(buf, i, t)
    requires ScanUrl(buf, connect, i).Some? && ScanUrl(buf, connect, i).value.state == Some(ServerStart)
    ensures var b := ScanUrl(buf, connect, i).value;
            ScanUrl(buf, connect, i + |t|)
            == Some(Scan(Some(AfterServer(t[|t| - 1])), b.fields[HOST := Some(Range(i, |t|))], b.foundAt || '@' in t))
    decreases |t|
  {
    hide ScanUrl, UrlNext, IsServerChar, AfterServer;
    var b := ScanUrl(buf, connect, i).value;
    var n := |t|;
    var last := t[n - 1];
    StandsBytes(buf, i, t);
    if n > 1 {
      var front := t[..n - 1];
      assert t == front + [last];
      StandsApart(buf, i, front, [last]);
      ServerRead(buf, connect, i, front);
      ServerByte(buf, connect, i, n - 1, b.fields, b.foundAt || '@' in front, last);
    } else {
      ServerSteps(last);
      ServerFirst(last);
      ByteRead(buf, connect, i, AfterServer(last));
      assert t == [last];
    }
  }

  lemma {:induction false} ServerFirst(c: Octet)
    ensures var s := AfterServer(c);
            !Skips(s) && Rank(s) == HOST && !Reads(Some(ServerStart)) && (s.ServerWithAt? <==> c == '@')
  {
  }

  // ----- Path, query and fragment -----

  predicate AfterAuthority(s: Option<UrlState>) { s == Some(Server) || s == Some(ServerWithAt) }

  lemma {:induction false} PathRead(buf: Text, connect: bool, i: nat, t: Text)
    requires t != [] && AllUrl(t) && StandsAt(buf, i, t) && ScanUrl(buf, connect, i).Some?
    requires var s := ScanUrl(buf, connect, i).value.state;
             (AfterAuthority(s) && t[0] == '/') || (s.None? && (t[0] == '/' || t[0] == '*'))
    ensures var b := ScanUrl(buf, connect, i).value;
            ScanUrl(buf, connect, i + |t|) == Some(Scan(Some(Path), b.fields[PATH := Some(Range(i, |t|))], b.foundAt))
  {
    hide ScanUrl, UrlNext, IsUrlChar;
    StandsBytes(buf, i, t);
    DelimiterSteps();
    UrlSteps();
    PartRead(buf, connect, i, |t|, Path);
  }

  lemma {:induction false} UrlSteps()
    ensures forall c: Octet :: IsUrlChar(c) ==> UrlNext(Some(Path), c) == UrlOk(Path)
    ensures forall c: Octet :: IsUrlChar(c) || c == '?' ==>
              UrlNext(Some(QueryStringStart), c) == UrlNext(Some(QueryString), c) == UrlOk(QueryString)
    ensures forall c: Octet :: IsUrlChar(c) || c == '?' ==> UrlNext(Some(FragmentStart), c) == UrlOk(Fragment)
    ensures forall c: Octet :: IsUrlChar(c) || c == '?' || c == '#' ==> UrlNext(Some(Fragment), c) == UrlOk(Fragment)
  {
  }

  lemma {:induction false} QueryRead(buf: Text, connect: bool, i: nat, t: Text)
    requires AllQuery(t) && StandsAt(buf, i, ['?'] + t) && ScanUrl(buf, connect, i).Some?
    requires var s := ScanUrl(buf, connect, i).value.state; AfterAuthority(s) || s == Some(Path)
    ensures var b := ScanUrl(buf, connect, i).value;
            ScanUrl(buf, connect, i + 1 + |t|)
            == Some(Scan(Some(if t == [] then QueryStringStart else QueryString),
                         if t == [] then b.fields else b.fields[QUERY := Some(Range(i + 1, |t|))], b.foundAt))
  {
    hide ScanUrl, UrlNext, IsUrlChar;
    StandsApart(buf, i, ['?'], t);
    StandsByte(buf, i, ['?'], 0);
    StandsBytes(buf, i + 1, t);
    DelimiterSteps();
    UrlSteps();
    ByteRead(buf, connect, i, QueryStringStart);
    if t != [] { PartRead(buf, connect, i + 1, |t|, QueryString); }
  }

  lemma {:induction false} HashesRead(buf: Text, connect: bool, i: nat, t: Text)
    requires StandsAt(buf, i, t) && ScanUrl(buf, connect, i).Some?
    requires ScanUrl(buf, connect, i).value.state == Some(FragmentStart)
    ensures ScanUrl(buf, connect, i + Hashes(t)) == ScanUrl(buf, connect, i)
    ensures Hashes(t) < |t| ==> t[Hashes(t)] != '#'
    decreases |t|
  {
    hide ScanUrl, UrlNext;
    if t != [] && t[0] == '#' {
      assert t == [t[0]] + t[1..];
      StandsApart(buf, i, [t[0]], t[1..]);
      StandsByte(buf, i, [t[0]], 0);
      DelimiterSteps();
      ByteRead(buf, connect, i, FragmentStart);
      HashesRead(buf, connect, i + 1, t[1..]);
    }
  }

  lemma {:induction false} FragmentRead(buf: Text, connect: bool, i: nat, t: Text)
    requires AllFragment(t) && StandsAt(buf, i, ['#'] + t) && ScanUrl(buf, connect, i).Some?
    requires var s := ScanUrl(buf, connect, i).value.state;
             s == Some(Path) || s == Some(QueryStringStart) || s == Some(QueryString)
    ensures var b := ScanUrl(buf, connect, i).value;
            var n := Hashes(t);
            ScanUrl(buf, connect, i + 1 + |t|)
            == Some(Scan(Some(if n == |t| then FragmentStart else Fragment),
                         if n == |t| then b.fields
                         else b.fields[FRAGMENT := Some(Range(i + 1 + n, |t| - n))], b.foundAt))
  {
    hide ScanUrl, UrlNext, IsUrlChar, Hashes;
    StandsApart(buf, i, ['#'], t);
    StandsByte(buf, i, ['#'], 0);
    StandsBytes(buf, i + 1, t);
    DelimiterSteps();
    UrlSteps();
    ByteRead(buf, connect, i, FragmentStart);
    HashesRead(buf, connect, i + 1, t);
    if Hashes(t) < |t| { PartRead(buf, connect, i + 1 + Hashes(t), |t| - Hashes(t), Fragment); }
  }

  // ----- The whole first pass -----

  /** The fields before the host is taken apart. */
  function FirstFields(u: Url): Fields {
    FieldsOf(u)[USERINFO := None][PORT := None][HOST := Place(|SchemaText(u.schema)|, |ServerText(u)|)]
  }

  /** The parts that the first pass tells apart. */
  predicate ValidFirst(u: Url, connect: bool) {
    && AllAlpha(u.schema) && (u.authority.Some? ==> ServerText(u) != [] && AllServer(ServerText(u)))
    && (if connect then u.schema == [] && u.authority.Some? else u.authority.Some? <==> u.schema != [])
    && AllUrl(u.path) && (u.authority.None? ==> u.path != [])
    && (u.path != [] ==> u.path[0] == '/' || (u.path[0] == '*' && u.authority.None?))
    && (u.query.Some? ==> AllQuery(u.query.value))
    && (u.fragment.Some? ==> AllFragment(u.fragment.value) && (u.path != [] || u.query.Some?))
  }

  lemma {:induction false} UrlApart(u: Url)
    ensures var buf := UrlText(u);
            var a := |SchemaText(u.schema)|;
            var p := a + |ServerText(u)|;
            var q := p + |u.path|;
            var f := q + |QueryText(u.query)|;
            && StandsAt(buf, 0, SchemaText(u.schema)) && StandsAt(buf, a, ServerText(u)) && StandsAt(buf, p, u.path)
            && StandsAt(buf, q, QueryText(u.query)) && StandsAt(buf, f, FragmentText(u.fragment))
            && |buf| == f + |FragmentText(u.fragment)|
  {
    hide SchemaText, ServerText, QueryText, FragmentText;
    var a, b, c, d, e := SchemaText(u.schema), ServerText(u), u.path, QueryText(u.query), FragmentText(u.fragment);
    var buf := UrlText(u);
    assert buf[0..|buf|] == buf;
    StandsApart(buf, 0, a + b + c + d, e);
    StandsApart(buf, 0, a + b + c, d);
    StandsApart(buf, 0, a + b, c);
    StandsApart(buf, 0, a, b);
  }

  /** The first pass has come to position i. */
  ghost predicate Scanned(buf: Text, connect: bool, i: nat, s: Option<UrlState>, fields: Fields, foundAt: bool) {
    i <= |buf| && ScanUrl(buf, connect, i) == Some(Scan(s, fields, foundAt))
  }

  function ServerEnd(u: Url): Option<UrlState> {
    var t := ServerText(u);
    if t == [] then None else Some(AfterServer(t[|t| - 1]))
  }

  lemma {:induction false} ServerEnds(u: Url)
    ensures ServerText(u) != [] ==> AfterAuthority(ServerEnd(u))
  {
  }

  lemma {:induction false} FrontRead(u: Url, connect: bool)
    requires ValidFirst(u, connect)
    ensures var a, n := |SchemaText(u.schema)|, |ServerText(u)|;
            Scanned(UrlText(u), connect, a + n, ServerEnd(u),
                    [Place(0, |u.schema|), None, Place(a, n), None, None, None, None], '@' in ServerText(u))
  {
    hide ScanUrl, ServerText, UrlText, ValidFirst, SchemaText, StandsAt, AllServer, AfterServer;
    var buf := UrlText(u);
    UrlApart(u);
    NoServer(u);
    FirstShape(u, connect);
    SchemaScanned(u, connect);
    var a, n := |SchemaText(u.schema)|, |ServerText(u)|;
    if u.authority.Some? { ServerRead(buf, connect, a, ServerText(u)); }
    var r := ScanUrl(buf, connect, a + n);
    assert r.Some? && a + n <= |buf|;
    FieldsEqual(r.value.fields, [Place(0, |u.schema|), None, Place(a, n), None, None, None, None]);
  }

  lemma {:induction false} FirstShape(u: Url, connect: bool)
    requires ValidFirst(u, connect)
    ensures AllAlpha(u.schema) && (u.authority.Some? <==> connect || u.schema != []) && (connect ==> u.schema == [])
    ensures u.authority.Some? ==> ServerText(u) != [] && AllServer(ServerText(u))
  {
    hide AllServer, AllUrl, AllQuery, AllFragment, AllAlpha, ServerText;
  }

  /** The schema, if there is one. */
  lemma {:induction false} SchemaScanned(u: Url, connect: bool)
    requires ValidFirst(u, connect)
    ensures Scanned(UrlText(u), connect, |SchemaText(u.schema)|,
                    if u.authority.Some? then Some(ServerStart) else None,
                    [Place(0, |u.schema|), None, None, None, None, None, None], false)
  {
    hide ScanUrl, ServerText, UrlText, ValidFirst, StandsAt, AllAlpha;
    var buf := UrlText(u);
    UrlApart(u);
    FirstShape(u, connect);
    Begins(buf, connect);
    if u.schema != [] { SchemaRead(buf, u.schema); }
    FieldsEqual(ScanUrl(buf, connect, |SchemaText(u.schema)|).value.fields,
                [Place(0, |u.schema|), None, None, None, None, None, None]);
  }

  /** The parts after the server. */
  lemma {:induction false} TailRead(u: Url, connect: bool, p: nat, fields: Fields, foundAt: bool)
    returns (s: Option<UrlState>)
    requires ValidFirst(u, connect) && p == |SchemaText(u.schema)| + |ServerText(u)|
    requires Scanned(UrlText(u), connect, p, ServerEnd(u), fields, foundAt)
    requires fields[PATH].None? && fields[QUERY].None? && fields[FRAGMENT].None?
    ensures var q := p + |u.path|;
            var f := q + |QueryText(u.query)|;
            Scanned(UrlText(u), connect, |UrlText(u)|, s,
                    fields[PATH := Place(p, |u.path|)][QUERY := QueryPlace(u.query, q)]
                      [FRAGMENT := FragmentPlace(u.fragment, f)], foundAt)
  {
    hide ScanUrl, ServerText, AllServer, AllUrl, AllQuery, AllFragment, AllAlpha, UrlText, Hashes, StandsAt,
      AfterServer;
    var buf := UrlText(u);
    UrlApart(u);
    NoServer(u);
    ServerEnds(u);
    var q := p + |u.path|;
    var f := q + |QueryText(u.query)|;
    s := ServerEnd(u);
    if u.path != [] {
      PathRead(buf, connect, p, u.path);
      s := Some(Path);
    }
    var g := fields[PATH := Place(p, |u.path|)];
    SetNothing(fields, PATH);
    assert Scanned(buf, connect, q, s, g, foundAt);
    if u.query.Some? {
      QueryRead(buf, connect, q, u.query.value);
      s := Some(if u.query.value == [] then QueryStringStart else QueryString);
    }
    var h := g[QUERY := QueryPlace(u.query, q)];
    SetNothing(g, QUERY);
    assert Scanned(buf, connect, f, s, h, foundAt);
    if u.fragment.Some? {
      FragmentRead(buf, connect, f, u.fragment.value);
      s := Some(if Hashes(u.fragment.value) == |u.fragment.value| then FragmentStart else Fragment);
    }
    SetNothing(h, FRAGMENT);
  }

  lemma {:induction false} SetNothing(fields: Fields, k: nat)
    requires k < 7 && fields[k].None?
    ensures fields[k := None] == fields
  {
  }

  /** What the first pass makes of the text. */
  lemma {:induction false} FirstPass(u: Url, connect: bool)
    requires ValidFirst(u, connect)
    ensures var buf := UrlText(u);
            var r := ScanUrl(buf, connect, |buf|);
            r.Some? && r.value.fields == FirstFields(u) && r.value.foundAt == ('@' in ServerText(u))
  {
    hide ScanUrl, ServerText, ValidFirst, SchemaText, QueryPlace, FragmentPlace, QueryText, UrlText, FieldsOf;
    var a, n := |SchemaText(u.schema)|, |ServerText(u)|;
    var fields: Fields := [Place(0, |u.schema|), None, Place(a, n), None, None, None, None];
    FrontRead(u, connect);
    var s := TailRead(u, connect, a + n, fields, '@' in ServerText(u));
    FirstFieldsAre(u);
    FieldsEqual(ScanUrl(UrlText(u), connect, |UrlText(u)|).value.fields, FirstFields(u));
  }

  lemma {:induction false} NoServer(u: Url)
    ensures u.authority.None? ==> ServerText(u) == []
  {
  }

  lemma {:induction false} FirstFieldsAre(u: Url)
    ensures var a := |SchemaText(u.schema)|;
            var p := a + |ServerText(u)|;
            var q := p + |u.path|;
            var f := q + |QueryText(u.query)|;
            FirstFields(u) == [Place(0, |u.schema|), None, Place(a, |ServerText(u)|), None, Place(p, |u.path|),
                               QueryPlace(u.query, q), FragmentPlace(u.fragment, f)]
  {
    hide SchemaText, ServerText, QueryText, QueryPlace, FragmentPlace, Place, ServerFields;
    var a := |SchemaText(u.schema)|;
    var p := a + |ServerText(u)|;
    var q := p + |u.path|;
    var f := q + |QueryText(u.query)|;
    FieldsEqual(FirstFields(u), [Place(0, |u.schema|), None, Place(a, |ServerText(u)|), None, Place(p, |u.path|),
                                 QueryPlace(u.query, q), FragmentPlace(u.fragment, f)]);
  }

  lemma {:induction false} FieldsEqual(a: Fields, b: Fields)
    requires a[0] == b[0] && a[1] == b[1] && a[2] == b[2] && a[3] == b[3] && a[4] == b[4] && a[5] == b[5]
    requires a[6] == b[6]
    ensures a == b
  {
  }

  // ----- Reading: the second pass, over the host -----

  lemma {:induction false} HostByte(buf: Text, start: HostScan, a: nat, i: nat, t: HostState)
    requires a <= i < |buf| && ScanHost(buf, start, a, i).Some? && !t.HostDead?
    requires HostNext(ScanHost(buf, start, a, i).value.state, buf[i]) == t
    ensures var b := ScanHost(buf, start, a, i).value;
            var more := HostReads(b.state) && HostRank(b.state) == HostRank(t);
            ScanHost(buf, start, a, i + 1)
            == Some(HostScan(t, if HostReads(t) then AddByte(b.fields, i, HostRank(t), more) else b.fields))
  {
    hide HostNext, AddByte, HostReads;
  }

  /** More of a field, which began at position off: the first byte leads to the state t and the others stay there. */
  lemma {:induction false} FieldRead(buf: Text, start: HostScan, a: nat, off: nat, i: nat, n: nat, t: HostState)
    requires a <= off <= i && 0 < n && i + n <= |buf| && ScanHost(buf, start, a, i).Some? && HostReads(t)
    requires var b := ScanHost(buf, start, a, i).value;
             && HostNext(b.state, buf[i]) == t
             && (if off == i then !(HostReads(b.state) && HostRank(b.state) == HostRank(t))
                 else HostReads(b.state) && HostRank(b.state) == HostRank(t)
                      && b.fields[HostRank(t)] == Some(Range(off, i - off)))
    requires forall k :: i < k < i + n ==> HostNext(t, buf[k]) == t
    ensures var b := ScanHost(buf, start, a, i).value;
            ScanHost(buf, start, a, i + n) == Some(HostScan(t, b.fields[HostRank(t) := Some(Range(off, i + n - off))]))
  {
    hide HostNext, ScanHost;
    var b := ScanHost(buf, start, a, i).value;
    if n > 1 {
      FieldRead(buf, start, a, off, i, n - 1, t);
      assert HostNext(t, buf[i + n - 1]) == t;
      HostByte(buf, start, a, i + n - 1, t);
      TwiceSet(b.fields, HostRank(t), Some(Range(off, i + n - 1 - off)), Some(Range(off, i + n - off)));
    } else {
      HostByte(buf, start, a, i, t);
    }
  }

  lemma {:induction false} HostSteps()
    ensures forall c: Octet :: IsUserinfoChar(c) ==>
              HostNext(UserinfoStart, c) == HostNext(HostState.Userinfo, c) == HostState.Userinfo
    ensures HostNext(UserinfoStart, '@') == HostNext(HostState.Userinfo, '@') == HostStart
    ensures forall c: Octet :: IsHostChar(c) ==> HostNext(HostStart, c) == HostNext(InHost, c) == InHost
    ensures HostNext(HostStart, '[') == V6Start
    ensures forall c: Octet :: InV6(c) ==> HostNext(V6Start, c) == HostNext(V6, c) == V6
    ensures HostNext(V6, '%') == V6ZoneStart && HostNext(V6, ']') == HostNext(V6Zone, ']') == V6End
    ensures forall c: Octet :: InZone(c) ==> HostNext(V6ZoneStart, c) == HostNext(V6Zone, c) == V6Zone
    ensures HostNext(InHost, ':') == HostNext(V6End, ':') == PortStart
    ensures forall c: Octet :: IsNum(c) ==> HostNext(PortStart, c) == HostNext(InPort, c) == InPort
  {
  }

  lemma {:induction false} UserinfoRead(buf: Text, start: HostScan, a: nat, t: Text)
    requires AllUserinfo(t) && StandsAt(buf, a, t + ['@']) && start.state == UserinfoStart
    ensures a + |t| + 1 <= |buf|
    ensures ScanHost(buf, start, a, a + |t| + 1)
            == Some(HostScan(HostStart,
                             if t == [] then start.fields else start.fields[USERINFO := Some(Range(a, |t|))]))
  {
    hide ScanHost, HostNext, IsUserinfoChar, StandsAt;
    StandsApart(buf, a, t, ['@']);
    StandsBytes(buf, a, t);
    StandsByte(buf, a + |t|, ['@'], 0);
    HostSteps();
    HostBegins(buf, start, a);
    if t != [] { FieldRead(buf, start, a, a, a, |t|, HostState.Userinfo); }
    HostByte(buf, start, a, a + |t|, HostStart);
  }

  lemma {:induction false} HostBegins(buf: Text, start: HostScan, a: nat)
    requires a <= |buf|
    ensures ScanHost(buf, start, a, a) == Some(start)
  {
  }

  lemma {:induction false} NameRead(buf: Text, start: HostScan, a: nat, i: nat, t: Text)
    requires a <= i && t != [] && AllHost(t) && StandsAt(buf, i, t)
    requires i <= |buf| && ScanHost(buf, start, a, i).Some? && ScanHost(buf, start, a, i).value.state == HostStart
    ensures i + |t| <= |buf|
    ensures ScanHost(buf, start, a, i + |t|)
            == Some(HostScan(InHost, ScanHost(buf, start, a, i).value.fields[HOST := Some(Range(i, |t|))]))
  {
    hide ScanHost, HostNext, IsHostChar, StandsAt;
    StandsBytes(buf, i, t);
    HostSteps();
    FieldRead(buf, start, a, i, i, |t|, InHost);
  }

  lemma {:induction false} AddressRead(buf: Text, start: HostScan, a: nat, i: nat, t: Text)
    requires a <= i && t != [] && AllV6(t) && StandsAt(buf, i, ['['] + t)
    requires i <= |buf| && ScanHost(buf, start, a, i).Some? && ScanHost(buf, start, a, i).value.state == HostStart
    ensures i + 1 + |t| <= |buf|
    ensures ScanHost(buf, start, a, i + 1 + |t|)
            == Some(HostScan(V6, ScanHost(buf, start, a, i).value.fields[HOST := Some(Range(i + 1, |t|))]))
  {
    hide ScanHost, HostNext, InV6, StandsAt;
    StandsApart(buf, i, ['['], t);
    StandsByte(buf, i, ['['], 0);
    StandsBytes(buf, i + 1, t);
    HostSteps();
    HostByte(buf, start, a, i, V6Start);
    FieldRead(buf, start, a, i + 1, i + 1, |t|, V6);
  }

  lemma {:induction false} BracketRead(buf: Text, start: HostScan, a: nat, i: nat, fields: Fields, s: HostState)
    requires a <= i && StandsAt(buf, i, [']']) && (s == V6 || s == V6Zone) && i <= |buf|
    requires ScanHost(buf, start, a, i) == Some(HostScan(s, fields))
    ensures i < |buf| && ScanHost(buf, start, a, i + 1) == Some(HostScan(V6End, fields))
  {
    hide ScanHost, HostNext, StandsAt;
    StandsByte(buf, i, [']'], 0);
    HostSteps();
    HostByte(buf, start, a, i, V6End);
  }

  lemma {:induction false} Ipv6Read(buf: Text, start: HostScan, a: nat, i: nat, h: Host)
    requires a <= i && h.Ipv6? && ValidHost(h) && StandsAt(buf, i, HostText(h))
    requires i <= |buf| && ScanHost(buf, start, a, i).Some? && ScanHost(buf, start, a, i).value.state == HostStart
    ensures i + |HostText(h)| <= |buf|
    ensures ScanHost(buf, start, a, i + |HostText(h)|)
            == Some(HostScan(V6End, ScanHost(buf, start, a, i).value.fields[HOST := HostPlace(h, i)]))
  {
    hide ScanHost, HostNext, AllV6, AllZone, StandsAt;
    var fields := ScanHost(buf, start, a, i).value.fields;
    var front := ['['] + h.address;
    var zone := if h.zone == [] then [] else ['%'] + h.zone;
    assert HostText(h) == front + zone + [']'];
    StandsApart(buf, i, front + zone, [']']);
    StandsApart(buf, i, front, zone);
    AddressRead(buf, start, a, i, h.address);
    if h.zone != [] { ZoneRead(buf, start, a, i + 1, i + |front|, h.zone, fields); }
    BracketRead(buf, start, a, i + |front| + |zone|, fields[HOST := HostPlace(h, i)],
                if h.zone == [] then V6 else V6Zone);
  }

  lemma {:induction false} ZoneRead(buf: Text, start: HostScan, a: nat, off: nat, i: nat, zone: Text, fields: Fields)
    requires a <= off < i <= |buf| && zone != [] && AllZone(zone) && StandsAt(buf, i, ['%'] + zone)
    requires ScanHost(buf, start, a, i) == Some(HostScan(V6, fields[HOST := Some(Range(off, i - off))]))
    ensures var e := i + 1 + |zone|;
            && e <= |buf|
            && ScanHost(buf, start, a, e) == Some(HostScan(V6Zone, fields[HOST := Some(Range(off, e - off))]))
  {
    hide ScanHost, HostNext, InZone, StandsAt;
    StandsApart(buf, i, ['%'], zone);
    StandsByte(buf, i, ['%'], 0);
    StandsBytes(buf, i + 1, zone);
    HostSteps();
    FieldRead(buf, start, a, off, i, 1, V6ZoneStart);
    TwiceSet(fields, HOST, Some(Range(off, i - off)), Some(Range(off, i + 1 - off)));
    FieldRead(buf, start, a, off, i + 1, |zone|, V6Zone);
    TwiceSet(fields, HOST, Some(Range(off, i + 1 - off)), Some(Range(off, i + 1 + |zone| - off)));
  }

  lemma {:induction false} PortRead(buf: Text, start: HostScan, a: nat, i: nat, port: Text)
    requires a <= i && port != [] && AllDigits(port, 0, |port|) && StandsAt(buf, i, [':'] + port)
    requires i <= |buf| && ScanHost(buf, start, a, i).Some?
    requires var s := ScanHost(buf, start, a, i).value.state; s == InHost || s == V6End
    ensures i + 1 + |port| <= |buf|
    ensures ScanHost(buf, start, a, i + 1 + |port|)
            == Some(HostScan(InPort, ScanHost(buf, start, a, i).value.fields[PORT := Some(Range(i + 1, |port|))]))
  {
    hide ScanHost, HostNext, IsNum, StandsAt;
    StandsApart(buf, i, [':'], port);
    StandsByte(buf, i, [':'], 0);
    StandsBytes(buf, i + 1, port);
    HostSteps();
    HostByte(buf, start, a, i, PortStart);
    FieldRead(buf, start, a, i + 1, i + 1, |port|, InPort);
  }

  /** What the second pass makes of an authority. */
  lemma {:induction false} SecondPass(buf: Text, a: nat, auth: Authority, fields: Fields) returns (s: HostState)
    requires ValidAuthority(auth) && StandsAt(buf, a, AuthorityText(auth))
    requires fields[USERINFO].None? && fields[HOST].None? && fields[PORT].None?
    ensures var start := HostScan(if auth.userinfo.Some? then UserinfoStart else HostStart, fields);
            var places := ServerFields(auth, a);
            && a + |AuthorityText(auth)| <= |buf| && HostComplete(s)
            && ScanHost(buf, start, a, a + |AuthorityText(auth)|)
               == Some(HostScan(s, fields[USERINFO := places[0]][HOST := places[1]][PORT := places[2]]))
  {
    hide ScanHost, HostNext, StandsAt, HostText, ValidHost, AllUserinfo, AllDigits, DecimalValue;
    var start := HostScan(if auth.userinfo.Some? then UserinfoStart else HostStart, fields);
    StandsApart(buf, a, UserinfoText(auth) + HostText(auth.host), PortText(auth.port));
    StandsApart(buf, a, UserinfoText(auth), HostText(auth.host));
    var h := a + |UserinfoText(auth)|;
    var p := h + |HostText(auth.host)|;
    HostBegins(buf, start, a);
    SetNothing(fields, USERINFO);
    if auth.userinfo.Some? { UserinfoRead(buf, start, a, auth.userinfo.value); }
    var g := fields[USERINFO := UserinfoPlace(auth, a)];
    assert ScanHost(buf, start, a, h) == Some(HostScan(HostStart, g));
    s := HostRead(buf, start, a, h, auth.host);
    var k := g[HOST := HostPlace(auth.host, h)];
    SetNothing(k, PORT);
    if auth.port != [] {
      PortRead(buf, start, a, p, auth.port);
      s := InPort;
    }
  }

  lemma {:induction false} HostRead(buf: Text, start: HostScan, a: nat, i: nat, h: Host) returns (s: HostState)
    requires a <= i && ValidHost(h) && StandsAt(buf, i, HostText(h))
    requires i <= |buf| && ScanHost(buf, start, a, i).Some? && ScanHost(buf, start, a, i).value.state == HostStart
    ensures i + |HostText(h)| <= |buf| && (s == InHost || s == V6End)
    ensures ScanHost(buf, start, a, i + |HostText(h)|)
            == Some(HostScan(s, ScanHost(buf, start, a, i).value.fields[HOST := HostPlace(h, i)]))
  {
    hide ScanHost, StandsAt, AllHost, AllV6, AllZone;
    if h.Name? {
      NameRead(buf, start, a, i, h.name);
      s := InHost;
    } else {
      Ipv6Read(buf, start, a, i, h);
      s := V6End;
    }
  }

  // ----- Composition -----

  /** An authority is a server to the first pass, with an `@` exactly if it has userinfo. */
  lemma {:induction false} AuthorityIsServer(auth: Authority)
    requires ValidAuthority(auth)
    ensures AuthorityText(auth) != [] && AllServer(AuthorityText(auth))
    ensures '@' in AuthorityText(auth) <==> auth.userinfo.Some?
  {
    hide IsServerChar, DecimalValue, AllServer, IsUserinfoChar, IsHostChar, InV6, InZone, IsNum;
    ServerChars();
    var rest := HostText(auth.host) + PortText(auth.port);
    HostServer(auth.host);
    assert forall c :: c in PortText(auth.port) ==> IsServerChar(c) by {
      forall c | c in PortText(auth.port)
        ensures IsServerChar(c)
      {
        var k :| 0 <= k < |PortText(auth.port)| && PortText(auth.port)[k] == c;
        if k > 0 { assert IsNum(auth.port[k - 1]); }
      }
    }
    assert AuthorityText(auth) == UserinfoText(auth) + rest;
    UserinfoServer(auth, rest);
  }

  lemma {:induction false} ServerChars()
    ensures forall c: Octet :: IsUserinfoChar(c) || IsHostChar(c) || InV6(c) || InZone(c) || IsNum(c) ==>
              IsServerChar(c)
    ensures IsServerChar(':') && IsServerChar('[') && IsServerChar(']') && IsServerChar('%')
    ensures !IsServerChar('@')
  {
  }

  lemma {:induction false} HostServer(h: Host)
    requires ValidHost(h)
    ensures HostText(h) != [] && forall c :: c in HostText(h) ==> IsServerChar(c)
  {
    hide IsServerChar, IsHostChar, InV6, InZone;
    ServerChars();
    forall c | c in HostText(h)
      ensures IsServerChar(c)
    {
      if h.Ipv6? {
        var zone := if h.zone == [] then [] else ['%'] + h.zone;
        assert HostText(h) == ['['] + h.address + zone + [']'];
        assert c == '[' || c in h.address || c == '%' || c in h.zone || c == ']';
      }
    }
  }

  lemma {:induction false} UserinfoServer(auth: Authority, rest: Text)
    requires auth.userinfo.Some? ==> AllUserinfo(auth.userinfo.value)
    requires rest != [] && forall c :: c in rest ==> IsServerChar(c)
    ensures AllServer(UserinfoText(auth) + rest)
    ensures '@' in UserinfoText(auth) + rest <==> auth.userinfo.Some?
  {
    hide IsServerChar, IsUserinfoChar;
    ServerChars();
    var t := UserinfoText(auth) + rest;
    var n := |UserinfoText(auth)|;
    forall i | 0 <= i < |t|
      ensures IsServerChar(t[i]) || (t[i] == '@' && auth.userinfo.Some? && i == n - 1)
    {
      if i < n - 1 { assert t[i] == auth.userinfo.value[i]; } else if i >= n { assert t[i] == rest[i - n]; }
    }
    if auth.userinfo.Some? { assert t[n - 1] == '@'; }
  }

  /** The value of digits does not depend on where they stand. */
  lemma {:induction false} DecimalElsewhere(buf: Text, o: nat, t: Text, n: nat)
    requires StandsAt(buf, o, t) && n <= |t|
    ensures o + n <= |buf| && DecimalValue(buf, o, o + n) == DecimalValue(t, 0, n)
  {
    hide StandsAt, IsNum;
    StandsBytes(buf, o, t);
    if n > 0 { DecimalElsewhere(buf, o, t, n - 1); }
  }

  /** What is made of a text of parts. */
  lemma {:induction false} PartsAreRead(u: Url, connect: bool)
    requires ValidParts(u, connect)
    ensures ParsedUrl(UrlText(u), connect)
            == if ValidUrl(u, connect) then Some(ParsedFields(FieldsOf(u), PortOf(u))) else None
  {
    hide ScanUrl, ScanHost, UrlText, ServerText, AuthorityText, SchemaText, QueryText, FragmentText, ValidAuthority,
      AllAlpha, AllUrl, AllQuery, AllFragment, AllServer, DecimalValue, FieldsOf, ServerFields, StandsAt,
      OnlyHostAndPort, PortOf;
    var buf := UrlText(u);
    ServerIsAuthority(u);
    if u.authority.Some? { AuthorityIsServer(u.authority.value); }
    FirstPass(u, connect);
    UrlApart(u);
    FirstFieldsAre(u);
    FieldsAre(u);
    TextIsSome(u, connect);
    if u.authority.Some? {
      var auth := u.authority.value;
      var a := |SchemaText(u.schema)|;
      var fields: Fields := FirstFields(u)[HOST := None];
      var s := SecondPass(buf, a, auth, fields);
      var places := ServerFields(auth, a);
      FieldsEqual(fields[USERINFO := places[0]][HOST := places[1]][PORT := places[2]], FieldsOf(u));
      PortIsRead(buf, a, u);
    } else {
      FieldsEqual(FirstFields(u), FieldsOf(u));
      NoPort(u);
    }
  }

  lemma {:induction false} NoPort(u: Url)
    ensures u.authority.None? ==> PortOf(u) == 0
  {
  }

  lemma {:induction false} ServerIsAuthority(u: Url)
    ensures u.authority.Some? ==> ServerText(u) == AuthorityText(u.authority.value)
    ensures u.authority.None? ==> ServerText(u) == []
  {
  }

  lemma {:induction false} TextIsSome(u: Url, connect: bool)
    requires ValidParts(u, connect) && (u.authority.Some? ==> ServerText(u) != [])
    ensures UrlText(u) != []
  {
    hide ServerText, ValidAuthority;
  }

  lemma {:induction false} FieldsAre(u: Url)
    ensures var a := |SchemaText(u.schema)|;
            var p := a + |ServerText(u)|;
            var q := p + |u.path|;
            var f := q + |QueryText(u.query)|;
            var server := if u.authority.None? then [None, None, None] else ServerFields(u.authority.value, a);
            FieldsOf(u) == [Place(0, |u.schema|), server[0], server[1], server[2], Place(p, |u.path|),
                            QueryPlace(u.query, q), FragmentPlace(u.fragment, f)]
  {
  }

  lemma {:induction false} PortIsRead(buf: Text, a: nat, u: Url)
    requires u.authority.Some? && StandsAt(buf, a, AuthorityText(u.authority.value))
    ensures var r := ServerFields(u.authority.value, a)[2];
            if r.None? then PortOf(u) == 0
            else End(r.value) <= |buf| && DecimalValue(buf, r.value.off, End(r.value)) == PortOf(u)
  {
    hide StandsAt, HostText, UserinfoText, ValidHost, AllUserinfo, AllDigits;
    var auth := u.authority.value;
    var front := UserinfoText(auth) + HostText(auth.host);
    if auth.port != [] {
      StandsApart(buf, a, front, [':'] + auth.port);
      StandsApart(buf, a + |front|, [':'], auth.port);
      DecimalElsewhere(buf, a + |front| + 1, auth.port, |auth.port|);
    }
  }
}

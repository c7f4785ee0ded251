/** Every URL that http_parser_parse_url accepts is one of the grammar. */
module HttpUrlParts {
  import opened HttpChars
  import opened HttpMachine
  import opened HttpUrl
  import opened HttpUrlGrammar
  import opened Options

  // ----- Nothing else is accepted: the second pass -----

  /** What is known of the authority in each state. */
  predicate Partial(s: HostState, a: Authority) {
    && (a.userinfo.Some? ==> AllUserinfo(a.userinfo.value)) && AllDigits(a.port, 0, |a.port|)
    && (s != InPort ==> a.port == []) && (s == InPort ==> a.port != [])
    && match s
       case UserinfoStart => a.userinfo.None?
       case Userinfo => a.userinfo.Some?
       case HostStart => true
       case V6Start => true
       case InHost => a.host.Name? && ValidHost(a.host)
       case V6 => a.host.Ipv6? && ValidHost(a.host) && a.host.zone == []
       case V6ZoneStart => a.host.Ipv6? && ValidHost(a.host) && a.host.zone == []
       case V6Zone => a.host.Ipv6? && ValidHost(a.host) && a.host.zone != []
       case V6End => ValidHost(a.host)
       case PortStart => ValidHost(a.host)
       case InPort => ValidHost(a.host)
       case HostDead => false
  }

  /** How much of it has been read. */
  function PartialText(s: HostState, a: Authority): Text
    requires Partial(s, a)
  {
    match s
    case UserinfoStart => []
    case Userinfo => a.userinfo.value
    case HostStart => UserinfoText(a)
    case V6Start => UserinfoText(a) + ['[']
    case InHost => UserinfoText(a) + HostText(a.host)
    case V6 => UserinfoText(a) + (['['] + a.host.address)
    case V6ZoneStart => UserinfoText(a) + (['['] + a.host.address + ['%'])
    case V6Zone => UserinfoText(a) + (['['] + a.host.address + (['%'] + a.host.zone))
    case V6End => UserinfoText(a) + HostText(a.host)
    case PortStart => UserinfoText(a) + HostText(a.host) + [':']
    case InPort => UserinfoText(a) + HostText(a.host) + PortText(a.port)
  }

  /** One more byte. */
  function Grown(s: HostState, a: Authority, c: Octet): Authority
    requires Partial(s, a)
  {
    match HostNext(s, c)
    case Userinfo => a.(userinfo := Some((if s.UserinfoStart? then [] else a.userinfo.value) + [c]))
    case HostStart => if s.UserinfoStart? then a.(userinfo := Some([])) else a
    case InHost => a.(host := Name((if s.HostStart? then [] else a.host.name) + [c]))
    case V6 => a.(host := Ipv6((if s.V6Start? then [] else a.host.address) + [c], []))
    case V6Zone => a.(host := Ipv6(a.host.address, a.host.zone + [c]))
    case InPort => a.(port := a.port + [c])
    case _ => a
  }

  lemma {:induction false} GrownKeeps(s: HostState, a: Authority, c: Octet)
    requires Partial(s, a) && !HostNext(s, c).HostDead?
    ensures Partial(HostNext(s, c), Grown(s, a, c))
  {
    hide IsUserinfoChar, IsHostChar, InV6, InZone, IsNum;
  }

  lemma {:induction false} GrownText(s: HostState, a: Authority, c: Octet)
    requires Partial(s, a) && Partial(HostNext(s, c), Grown(s, a, c))
    ensures PartialText(HostNext(s, c), Grown(s, a, c)) == PartialText(s, a) + [c]
  {
    hide *;
    var t := HostNext(s, c);
    if t.V6Start? || t.InHost? || t.V6? || t.V6ZoneStart? || t.V6Zone? {
      HostGrown(s, a, c);
    } else if t.V6End? || t.PortStart? || t.InPort? {
      EndGrown(s, a, c);
    } else {
      OtherStates(t);
      UserinfoGrown(s, a, c);
    }
  }

  lemma {:induction false} OtherStates(t: HostState)
    requires !t.V6Start? && !t.InHost? && !t.V6? && !t.V6ZoneStart? && !t.V6Zone?
    requires !t.V6End? && !t.PortStart? && !t.InPort?
    ensures t.Userinfo? || t.HostStart? || t.UserinfoStart? || t.HostDead?
  {
  }

  lemma {:induction false} SameUserinfo(a: Authority, b: Authority)
    ensures a.userinfo == b.userinfo ==> UserinfoText(a) == UserinfoText(b)
  {
  }

  lemma {:induction false} UserinfoGrown(s: HostState, a: Authority, c: Octet)
    requires Partial(s, a) && Partial(HostNext(s, c), Grown(s, a, c))
    requires var t := HostNext(s, c); t.Userinfo? || t.HostStart? || t.UserinfoStart? || t.HostDead?
    ensures PartialText(HostNext(s, c), Grown(s, a, c)) == PartialText(s, a) + [c]
  {
    hide IsUserinfoChar, IsHostChar, InV6, InZone, IsNum, AllUserinfo, AllDigits, ValidHost, HostText;
  }

  lemma {:induction false} HostGrown(s: HostState, a: Authority, c: Octet)
    requires var t := HostNext(s, c);
             Partial(s, a) && (t.V6Start? || t.InHost? || t.V6? || t.V6ZoneStart? || t.V6Zone?)
    requires Partial(HostNext(s, c), Grown(s, a, c))
    ensures PartialText(HostNext(s, c), Grown(s, a, c)) == PartialText(s, a) + [c]
  {
    hide IsUserinfoChar, IsHostChar, InV6, InZone, IsNum, AllUserinfo, AllDigits, ValidHost, UserinfoText;
    var b := Grown(s, a, c);
    SameUserinfo(a, b);
    if s.V6? && b.host.Ipv6? { assert ['['] + a.host.address + [c] == ['['] + (a.host.address + [c]); }
    if HostNext(s, c).V6Zone? { assert ['%'] + a.host.zone + [c] == ['%'] + b.host.zone; }
  }

  lemma {:induction false} EndGrown(s: HostState, a: Authority, c: Octet)
    requires var t := HostNext(s, c); Partial(s, a) && (t.V6End? || t.PortStart? || t.InPort?)
    requires Partial(HostNext(s, c), Grown(s, a, c))
    ensures PartialText(HostNext(s, c), Grown(s, a, c)) == PartialText(s, a) + [c]
  {
    hide IsUserinfoChar, IsHostChar, InV6, InZone, IsNum, AllUserinfo, AllDigits, ValidHost, UserinfoText;
    var b := Grown(s, a, c);
    SameUserinfo(a, b);
    if HostNext(s, c).InPort? {
      assert [':'] + a.port + [c] == [':'] + b.port;
    } else if HostNext(s, c).V6End? {
      assert HostText(a.host)
             == ['['] + a.host.address + (if a.host.zone == [] then [] else ['%'] + a.host.zone) + [']'];
    }
  }

  /** A host that is read to here is the text of an authority. */
  lemma {:induction false} HostIsAuthority(buf: Text, start: HostScan, a: nat, i: nat) returns (auth: Authority)
    requires a <= i <= |buf| && ScanHost(buf, start, a, i).Some?
    requires (start.state == UserinfoStart || start.state == HostStart)
    ensures var s := ScanHost(buf, start, a, i).value.state;
            Partial(s, auth) && buf[a..i] == PartialText(s, auth)
  {
    hide HostNext, Partial, PartialText, Grown;
    if i == a {
      auth := Authority(None, Name([]), []);
      NothingRead(start.state, auth);
      assert buf[a..i] == [];
    } else {
      var before := HostIsAuthority(buf, start, a, i - 1);
      var s := ScanHost(buf, start, a, i - 1).value.state;
      auth := Grown(s, before, buf[i - 1]);
      GrownKeeps(s, before, buf[i - 1]);
      GrownText(s, before, buf[i - 1]);
      assert buf[a..i] == buf[a..i - 1] + [buf[i - 1]];
    }
  }

  lemma {:induction false} NothingRead(s: HostState, a: Authority)
    requires (s == UserinfoStart || s == HostStart) && a == Authority(None, Name([]), [])
    ensures Partial(s, a) && PartialText(s, a) == []
  {
  }

  lemma {:induction false} CompleteIsAuthority(s: HostState, a: Authority)
    requires Partial(s, a) && HostComplete(s)
    ensures ValidAuthority(a) && PartialText(s, a) == AuthorityText(a)
  {
    hide AllUserinfo, AllDigits, ValidHost, HostText, UserinfoText;
    if s != InPort { assert UserinfoText(a) + HostText(a.host) + [] == UserinfoText(a) + HostText(a.host); }
  }

  // ----- Nothing else is accepted: the first pass -----

  /** The parts that the first pass tells apart, with the server as it stands. */
  datatype Front = Front(schema: Text, server: Text, path: Text, query: Option<Text>, fragment: Option<Text>)

  predicate HasServer(f: Front, connect: bool) { connect || f.schema != [] }

  predicate NoTail(f: Front) { f.path == [] && f.query.None? && f.fragment.None? }

  predicate PathFits(f: Front, connect: bool) {
    && AllUrl(f.path)
    && (f.path != [] ==> f.path[0] == '/' || (f.path[0] == '*' && !HasServer(f, connect)))
    && (f.path == [] ==> HasServer(f, connect))
  }

  predicate QueryFits(f: Front) { f.query.Some? ==> AllQuery(f.query.value) }

  /** What is known of the parts in each state. */
  predicate Known(s: Option<UrlState>, f: Front, connect: bool) {
    && AllAlpha(f.schema) && AllServer(f.server) && (connect ==> f.schema == [])
    && (!HasServer(f, connect) ==> f.server == [])
    && if s.None? then f == Front([], [], [], None, None) && !connect
       else
         match s.value
         case Schema => f.schema != [] && f.server == [] && NoTail(f)
         case SchemaSlash => f.schema != [] && f.server == [] && NoTail(f)
         case SchemaSlashSlash => f.schema != [] && f.server == [] && NoTail(f)
         case ServerStart => HasServer(f, connect) && f.server == [] && NoTail(f)
         case Server => HasServer(f, connect) && f.server != [] && NoTail(f)
         case ServerWithAt => HasServer(f, connect) && f.server != [] && NoTail(f)
         case Path => f.path != [] && PathFits(f, connect) && f.query.None? && f.fragment.None?
         case QueryStringStart => PathFits(f, connect) && f.query == Some([]) && f.fragment.None?
         case QueryString => PathFits(f, connect) && f.query.Some? && QueryFits(f) && f.fragment.None?
         case _ =>
           && PathFits(f, connect) && QueryFits(f) && f.fragment.Some? && AllFragment(f.fragment.value)
           && (f.path != [] || f.query.Some?)
  }

  predicate EndsWithAt(t: Text) { t != [] && t[|t| - 1] == '@' }

  /** How much of them has been read. */
  function KnownText(s: Option<UrlState>, f: Front): Text {
    if s == Some(Schema) then f.schema
    else if s == Some(SchemaSlash) then f.schema + [':']
    else if s == Some(SchemaSlashSlash) then f.schema + [':', '/']
    else SchemaText(f.schema) + f.server + f.path + QueryText(f.query) + FragmentText(f.fragment)
  }

  /** One more byte, which leads to the state t. */
  function Longer(s: Option<UrlState>, f: Front, c: Octet, t: UrlState): Front {
    match t
    case Schema => f.(schema := f.schema + [c])
    case Server | ServerWithAt => f.(server := f.server + [c])
    case Path => f.(path := f.path + [c])
    case QueryStringStart => f.(query := Some([]))
    case QueryString => f.(query := Some((if f.query.None? then [] else f.query.value) + [c]))
    case FragmentStart => f.(fragment := Some(if f.fragment.None? then [] else f.fragment.value + [c]))
    case Fragment => f.(fragment := Some((if f.fragment.None? then [] else f.fragment.value) + [c]))
    case _ => f
  }

  lemma {:induction false} LongerKnown(s: Option<UrlState>, f: Front, c: Octet, connect: bool)
    requires Known(s, f, connect) && UrlNext(s, c).UrlOk?
    requires (s == Some(ServerWithAt) <==> EndsWithAt(f.server) && NoTail(f))
    ensures var t := UrlNext(s, c).state;
            var g := Longer(s, f, c, t);
            Known(Some(t), g, connect) && (t == ServerWithAt <==> EndsWithAt(g.server) && NoTail(g))
  {
    hide IsAlpha, IsServerChar, IsUserinfoChar, IsUrlChar, AllAlpha, AllServer, AllUrl, AllQuery, AllFragment;
    NoUserinfoAt(c);
    PathBegins();
    NothingIsAll();
    ServerOnly(c);
    AllLonger(f.schema, c);
    AllLonger(f.server, c);
    AllLonger(f.path, c);
    if f.query.Some? { AllLonger(f.query.value, c); }
    if f.fragment.Some? { AllLonger(f.fragment.value, c); }
  }

  lemma {:induction false} AllLonger(t: Text, c: Octet)
    ensures AllAlpha(t) && IsAlpha(c) ==> AllAlpha(t + [c])
    ensures AllServer(t) && (IsServerChar(c) || (c == '@' && !EndsWithAt(t))) ==> AllServer(t + [c])
    ensures AllUrl(t) && IsUrlChar(c) ==> AllUrl(t + [c])
    ensures AllQuery(t) && (IsUrlChar(c) || c == '?') ==> AllQuery(t + [c])
    ensures AllFragment(t) && (IsUrlChar(c) || c == '?' || c == '#') ==> AllFragment(t + [c])
  {
    hide IsAlpha, IsServerChar, IsUrlChar;
    NoUserinfoAt(c);
    var s := t + [c];
    assert forall i :: 0 <= i < |t| ==> s[i] == t[i];
  }

  lemma {:induction false} NothingIsAll()
    ensures AllAlpha([]) && AllServer([]) && AllUrl([]) && AllQuery([]) && AllFragment([])
  {
  }

  lemma {:induction false} ServerOnly(c: Octet)
    ensures IsUserinfoChar(c) || c == '[' || c == ']' ==> IsServerChar(c)
  {
  }

  lemma {:induction false} PathBegins()
    ensures IsUrlChar('/') && IsUrlChar('*')
  {
  }

  lemma {:induction false} LongerText(s: Option<UrlState>, f: Front, c: Octet, connect: bool)
    requires Known(s, f, connect) && UrlNext(s, c).UrlOk?
    ensures var t := UrlNext(s, c).state;
            KnownText(Some(t), Longer(s, f, c, t)) == KnownText(s, f) + [c]
  {
    hide IsAlpha, IsUserinfoChar, IsUrlChar, AllAlpha, AllServer, AllUrl, AllQuery, AllFragment, KnownText;
    match UrlNext(s, c).state
    case Schema => SchemaLonger(s, f, c);
    case SchemaSlash => SchemaLonger(s, f, c);
    case SchemaSlashSlash => SchemaLonger(s, f, c);
    case ServerStart => SchemaLonger(s, f, c);
    case Server => ServerLonger(s, f, c);
    case ServerWithAt => ServerLonger(s, f, c);
    case Path => PathLonger(s, f, c);
    case QueryStringStart => QueryLonger(s, f, c);
    case QueryString => QueryLonger(s, f, c);
    case FragmentStart => FragmentLonger(s, f, c);
    case Fragment => FragmentLonger(s, f, c);
  }

  lemma {:induction false} SchemaLonger(s: Option<UrlState>, f: Front, c: Octet)
    requires UrlNext(s, c).UrlOk? && f.server == [] && NoTail(f) && (s.None? ==> f.schema == [])
    requires s.None? || s == Some(Schema) || s == Some(SchemaSlash) || s == Some(SchemaSlashSlash)
    requires UrlNext(s, c).state != Path && (s.Some? ==> f.schema != [])
    ensures var t := UrlNext(s, c).state;
            KnownText(Some(t), Longer(s, f, c, t)) == KnownText(s, f) + [c]
  {
    hide IsAlpha;
    assert SchemaText([]) == [];
  }

  predicate InServer(s: Option<UrlState>) { s == Some(ServerStart) || s == Some(Server) || s == Some(ServerWithAt) }

  lemma {:induction false} ServerLonger(s: Option<UrlState>, f: Front, c: Octet)
    requires InServer(s) && NoTail(f)
    ensures KnownText(Some(Server), f.(server := f.server + [c])) == KnownText(s, f) + [c]
    ensures KnownText(Some(ServerWithAt), f.(server := f.server + [c])) == KnownText(s, f) + [c]
  {
    hide SchemaText;
    assert SchemaText(f.schema) + (f.server + [c]) == SchemaText(f.schema) + f.server + [c];
  }

  lemma {:induction false} PathLonger(s: Option<UrlState>, f: Front, c: Octet)
    requires (s.None? && f.schema == []) || InServer(s) || s == Some(Path)
    requires f.query.None? && f.fragment.None?
    ensures KnownText(Some(Path), f.(path := f.path + [c])) == KnownText(s, f) + [c]
  {
    hide SchemaText;
    var front := SchemaText(f.schema) + f.server;
    assert front + (f.path + [c]) == front + f.path + [c];
  }

  lemma {:induction false} QueryLonger(s: Option<UrlState>, f: Front, c: Octet)
    requires InServer(s) || s == Some(Path) || s == Some(QueryStringStart) || s == Some(QueryString)
    requires f.fragment.None?
    ensures f.query.None? && c == '?' ==>
              KnownText(Some(QueryStringStart), f.(query := Some([]))) == KnownText(s, f) + [c]
    ensures f.query.Some? ==>
              KnownText(Some(QueryString), f.(query := Some(f.query.value + [c]))) == KnownText(s, f) + [c]
  {
    hide SchemaText;
    var front := SchemaText(f.schema) + f.server + f.path;
    if f.query.Some? { assert front + (['?'] + (f.query.value + [c])) == front + (['?'] + f.query.value) + [c]; }
  }

  lemma {:induction false} FragmentLonger(s: Option<UrlState>, f: Front, c: Octet)
    requires s.Some? && s != Some(Schema) && s != Some(SchemaSlash) && s != Some(SchemaSlashSlash)
    ensures f.fragment.None? && c == '#' ==>
              KnownText(Some(FragmentStart), f.(fragment := Some([]))) == KnownText(s, f) + [c]
    ensures f.fragment.Some? ==>
              var g := f.(fragment := Some(f.fragment.value + [c]));
              KnownText(Some(FragmentStart), g) == KnownText(Some(Fragment), g) == KnownText(s, f) + [c]
  {
    hide SchemaText, QueryText;
    var front := SchemaText(f.schema) + f.server + f.path + QueryText(f.query);
    if f.fragment.Some? { assert front + (['#'] + (f.fragment.value + [c]))
                         == front + (['#'] + f.fragment.value) + [c]; }
  }

  /** What the first pass has read is the text of parts. */
  lemma {:induction false} UrlIsFront(buf: Text, connect: bool, i: nat) returns (f: Front)
    requires i <= |buf| && ScanUrl(buf, connect, i).Some?
    ensures var r := ScanUrl(buf, connect, i).value;
            && Known(r.state, f, connect) && buf[..i] == KnownText(r.state, f)
            && (r.state == Some(ServerWithAt) <==> EndsWithAt(f.server) && NoTail(f))
            && (r.fields[SCHEMA].Some? <==> f.schema != [])
            && r.fields[HOST] == Place(|SchemaText(f.schema)|, |f.server|) && (r.foundAt <==> '@' in f.server)
  {
    hide UrlNext, Known, KnownText, Longer, NoTail;
    if i == 0 {
      f := Front([], [], [], None, None);
      NothingKnown(connect);
    } else {
      var before := UrlIsFront(buf, connect, i - 1);
      var r := ScanUrl(buf, connect, i - 1).value;
      var c := buf[i - 1];
      var t := UrlNext(r.state, c).state;
      f := Longer(r.state, before, c, t);
      LongerKnown(r.state, before, c, connect);
      LongerText(r.state, before, c, connect);
      assert buf[..i] == buf[..i - 1] + [c];
      ByteRead(buf, connect, i - 1, t);
      FieldsFollow(r.state, before, c, connect, r.fields, i - 1);
      AtFollows(r.state, before, c);
    }
  }

  lemma {:induction false} NothingKnown(connect: bool)
    ensures var f := Front([], [], [], None, None);
            var s := if connect then Some(ServerStart) else None;
            Known(s, f, connect) && KnownText(s, f) == [] && !(s == Some(ServerWithAt)) && !EndsWithAt(f.server)
  {
  }

  /** The fields of schema and host grow with their parts. */
  lemma {:induction false} FieldsFollow(s: Option<UrlState>, f: Front, c: Octet, connect: bool, fields: Fields, i: nat)
    requires Known(s, f, connect) && UrlNext(s, c).UrlOk? && |KnownText(s, f)| == i
    requires fields[SCHEMA].Some? <==> f.schema != []
    requires fields[HOST] == Place(|SchemaText(f.schema)|, |f.server|)
    ensures var t := UrlNext(s, c).state;
            var g := Longer(s, f, c, t);
            var next := if Skips(t) then fields else AddByte(fields, i, Rank(t), Reads(s) && RankOf(s) == Rank(t));
            (next[SCHEMA].Some? <==> g.schema != []) && next[HOST] == Place(|SchemaText(g.schema)|, |g.server|)
  {
    hide IsAlpha, IsUserinfoChar, IsUrlChar, AllAlpha, AllServer, AllUrl, AllQuery, AllFragment;
  }

  lemma {:induction false} AtFollows(s: Option<UrlState>, f: Front, c: Octet)
    requires UrlNext(s, c).UrlOk?
    ensures var t := UrlNext(s, c).state;
            '@' in Longer(s, f, c, t).server <==> '@' in f.server || t.ServerWithAt?
  {
    hide IsAlpha, IsUserinfoChar, IsUrlChar;
    NoUserinfoAt(c);
  }

  // ----- The main result -----

  function UrlOf(f: Front, authority: Option<Authority>): Url {
    Url.Url(f.schema, authority, f.path, f.query, f.fragment)
  }

  /** Without a host. */
  lemma {:induction false} FrontWithout(s: Option<UrlState>, f: Front, connect: bool)
    requires Known(s, f, connect) && !HasServer(f, connect) && KnownText(s, f) != []
    ensures ValidParts(UrlOf(f, None), connect) && UrlText(UrlOf(f, None)) == KnownText(s, f)
  {
    hide AllAlpha, AllServer, AllUrl, AllQuery, AllFragment;
    NothingIsAll();
  }

  lemma {:induction false} FrontWith(s: Option<UrlState>, f: Front, connect: bool, auth: Authority)
    requires Known(s, f, connect) && f.server != [] && ValidAuthority(auth) && f.server == AuthorityText(auth)
    ensures ValidParts(UrlOf(f, Some(auth)), connect) && UrlText(UrlOf(f, Some(auth))) == KnownText(s, f)
  {
    hide AllAlpha, AllServer, AllUrl, AllQuery, AllFragment, ValidAuthority, AuthorityText, SchemaText;
    NothingIsAll();
  }

  lemma {:induction false} ServerStands(s: Option<UrlState>, f: Front, connect: bool)
    requires Known(s, f, connect) && f.server != []
    ensures StandsAt(KnownText(s, f), |SchemaText(f.schema)|, f.server)
  {
    hide AllAlpha, AllServer, AllUrl, AllQuery, AllFragment, SchemaText, QueryText, FragmentText;
    var a := SchemaText(f.schema);
    var rest := f.path + QueryText(f.query) + FragmentText(f.fragment);
    assert KnownText(s, f) == a + f.server + rest;
    assert (a + f.server + rest)[|a|..|a| + |f.server|] == f.server;
  }

  /** Whatever is accepted is the text of a URL of the grammar. */
  lemma {:induction false} AcceptedIsUrl(buf: Text, connect: bool) returns (u: Url)
    requires ParsedUrl(buf, connect).Some?
    ensures ValidUrl(u, connect) && UrlText(u) == buf
  {
    hide ScanUrl, ScanHost, Known, KnownText, ValidParts, AllServer, AuthorityText, UrlText, FieldsOf, PortOf, WithPort,
      OnlyHostAndPort, SchemaText, StandsAt, HasServer, ValidAuthority, Partial, PartialText;
    var r := ScanUrl(buf, connect, |buf|).value;
    var f := UrlIsFront(buf, connect, |buf|);
    assert buf[..|buf|] == buf;
    HasServerMeans(f, connect);
    if r.fields[HOST].None? {
      FrontWithout(r.state, f, connect);
      u := UrlOf(f, None);
    } else {
      var a, n := |SchemaText(f.schema)|, |f.server|;
      var start := HostScan(if r.foundAt then UserinfoStart else HostStart, r.fields[HOST := None]);
      var auth := HostIsAuthority(buf, start, a, a + n);
      CompleteIsAuthority(ScanHost(buf, start, a, a + n).value.state, auth);
      ServerStands(r.state, f, connect);
      SameServer(buf, a, f.server);
      FrontWith(r.state, f, connect, auth);
      u := UrlOf(f, Some(auth));
    }
    PartsAreRead(u, connect);
  }

  lemma {:induction false} HasServerMeans(f: Front, connect: bool)
    ensures HasServer(f, connect) <==> connect || f.schema != []
  {
  }

  lemma {:induction false} SameServer(buf: Text, a: nat, t: Text)
    requires StandsAt(buf, a, t)
    ensures a + |t| <= |buf| && buf[a..a + |t|] == t
  {
  }

  /**
   * http_parser_parse_url accepts exactly the URLs of the grammar, and then gives the place of every part and the value
   * of the port.
   */
  lemma {:induction false} UrlReadIff(buf: Text, connect: bool)
    ensures ParsedUrl(buf, connect).Some? <==> exists u :: ValidUrl(u, connect) && UrlText(u) == buf
    ensures forall u :: ValidUrl(u, connect) && UrlText(u) == buf ==>
              ParsedUrl(buf, connect) == Some(ParsedFields(FieldsOf(u), PortOf(u)))
  {
    hide *;
    if ParsedUrl(buf, connect).Some? { var u := AcceptedIsUrl(buf, connect); }
    forall u | ValidUrl(u, connect) && UrlText(u) == buf
      ensures ParsedUrl(buf, connect) == Some(ParsedFields(FieldsOf(u), PortOf(u)))
    {
      ValidHasParts(u, connect);
      PartsAreRead(u, connect);
    }
  }

  lemma {:induction false} ValidHasParts(u: Url, connect: bool)
    ensures ValidUrl(u, connect) ==> ValidParts(u, connect)
  {
  }
}

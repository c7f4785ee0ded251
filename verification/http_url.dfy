/** http_parser_parse_url: the fields that it finds tile the URL, in order, with nothing but delimiters between them. */
module HttpUrl {
  import opened HttpChars
  import opened HttpMachine
  import opened Options

  // ----- Fields -----

  datatype Range = Range(off: nat, len: nat)

  /** The fields, in the order in which they stand in a URL; a field is None when it is not set. */
  type Fields = f: seq<Option<Range>> | |f| == 7 witness [None, None, None, None, None, None, None]

  const SCHEMA: nat := 0
  const USERINFO: nat := 1
  const HOST: nat := 2
  const PORT: nat := 3
  const PATH: nat := 4
  const QUERY: nat := 5
  const FRAGMENT: nat := 6

  const NO_FIELDS: Fields := [None, None, None, None, None, None, None]

  function End(r: Range): nat { r.off + r.len }

  predicate Covers(r: Option<Range>, k: nat) { r.Some? && r.value.off <= k < End(r.value) }

  predicate IsDelimiter(c: Octet) { c == ':' || c == '/' || c == '?' || c == '#' || c == '@' || c == '[' || c == ']' }

  /** The fields with numbers from `low` to `high` are within a..b, disjoint and in order. */
  predicate Ordered(fields: Fields, low: nat, high: nat, a: nat, b: nat)
    requires high <= 7
  {
    && (forall f :: low <= f < high && fields[f].Some? ==> a <= fields[f].value.off && End(fields[f].value) <= b)
    && (forall f, g :: low <= f < g < high && fields[f].Some? && fields[g].Some? ==>
          End(fields[f].value) <= fields[g].value.off)
  }

  /** Every byte of a..b is in one of the fields from `low` to `high`, or a delimiter. */
  ghost predicate Filled(buf: seq<Octet>, fields: Fields, low: nat, high: nat, a: nat, b: nat)
    requires b <= |buf| && high <= 7
  {
    forall k :: a <= k < b ==> IsDelimiter(buf[k]) || exists f :: low <= f < high && Covers(fields[f], k)
  }

  /** One field covers one more byte, or begins with it. */
  lemma {:induction false} FilledMore(buf: seq<Octet>, fields: Fields, fields': Fields, low: nat, high: nat, a: nat,
                                      i: nat, f: nat)
    requires i < |buf| && low <= f < high <= 7 && Filled(buf, fields, low, high, a, i)
    requires forall g, k :: low <= g < high && Covers(fields[g], k) ==> Covers(fields'[g], k)
    requires Covers(fields'[f], i)
    ensures Filled(buf, fields', low, high, a, i + 1)
  {
    hide Covers, IsDelimiter;
    forall k | a <= k < i + 1
      ensures IsDelimiter(buf[k]) || exists g :: low <= g < high && Covers(fields'[g], k)
    {
      if k < i && !IsDelimiter(buf[k]) {
        var g :| low <= g < high && Covers(fields[g], k);
      }
    }
  }

  /** The last field may grow to the end. */
  lemma {:induction false} OrderedMore(fields: Fields, low: nat, high: nat, a: nat, i: nat, f: nat)
    requires low <= f < high <= 7 && Ordered(fields, low, high, a, i) && fields[f].Some? && End(fields[f].value) == i
    requires forall g :: f < g < high ==> fields[g].None?
    ensures Ordered(fields[f := Some(Range(fields[f].value.off, fields[f].value.len + 1))], low, high, a, i + 1)
  {
  }

  /**
   * A pass over a..i of the buffer, which finds fields from `low` to `high`: `rank` is the field that is being read up
   * to here, if `reading`, or else the next one that may come.
   */
  ghost predicate Pass(buf: seq<Octet>, fields: Fields, low: nat, high: nat, a: nat, i: nat, rank: nat, reading: bool)
    requires i <= |buf| && low <= rank < high <= 7
  {
    && a <= i && Ordered(fields, low, high, a, i) && Filled(buf, fields, low, high, a, i)
    && (forall f :: low <= f < high && fields[f].Some? ==> f < rank || (f == rank && reading))
    && (reading ==> fields[rank].Some? && End(fields[rank].value) == i)
  }

  /** A delimiter, after which a later field may come. */
  lemma {:induction false} PassSkip(buf: seq<Octet>, fields: Fields, low: nat, high: nat, a: nat, i: nat, rank: nat,
                                    reading: bool, rank': nat)
    requires i < |buf| && low <= rank <= rank' < high <= 7 && Pass(buf, fields, low, high, a, i, rank, reading)
    requires IsDelimiter(buf[i]) && (reading ==> rank < rank')
    ensures Pass(buf, fields, low, high, a, i + 1, rank', false)
  {
    hide Covers;
  }

  /** A byte of the field that is being read. */
  lemma {:induction false} PassMore(buf: seq<Octet>, fields: Fields, low: nat, high: nat, a: nat, i: nat, rank: nat)
    requires i < |buf| && low <= rank < high <= 7 && Pass(buf, fields, low, high, a, i, rank, true)
    ensures var r := fields[rank].value;
            Pass(buf, fields[rank := Some(Range(r.off, r.len + 1))], low, high, a, i + 1, rank, true)
  {
    var r := fields[rank].value;
    FilledMore(buf, fields, fields[rank := Some(Range(r.off, r.len + 1))], low, high, a, i, rank);
    OrderedMore(fields, low, high, a, i, rank);
  }

  /** The first byte of a field. */
  lemma {:induction false} PassNew(buf: seq<Octet>, fields: Fields, low: nat, high: nat, a: nat, i: nat, rank: nat,
                                   reading: bool, rank': nat)
    requires i < |buf| && low <= rank <= rank' < high <= 7 && Pass(buf, fields, low, high, a, i, rank, reading)
    requires reading ==> rank < rank'
    ensures fields[rank'].None? && Pass(buf, fields[rank' := Some(Range(i, 1))], low, high, a, i + 1, rank', true)
  {
    FilledMore(buf, fields, fields[rank' := Some(Range(i, 1))], low, high, a, i, rank');
  }

  // ----- The states of the first pass -----

  /** Which field is being read, or may come next. */
  function Rank(s: UrlState): nat {
    match s
    case Schema => SCHEMA
    case SchemaSlash | SchemaSlashSlash | ServerStart | Server | ServerWithAt => HOST
    case Path => PATH
    case QueryStringStart | QueryString => QUERY
    case FragmentStart | Fragment => FRAGMENT
  }

  /** The states in which a byte is a delimiter and not in a field. */
  predicate Skips(s: UrlState) {
    s.SchemaSlash? || s.SchemaSlashSlash? || s.ServerStart? || s.QueryStringStart? || s.FragmentStart?
  }

  /** parse_url_char from a state, or from the beginning. */
  function UrlNext(s: Option<UrlState>, c: Octet): UrlResult {
    if s.Some? then ParseUrlChar(s.value, c)
    else if c == ' ' || c == CR || c == LF || c == '\t' || c == '\U{000C}' then BadUrl else ParseUrlStart(c)
  }

  function RankOf(s: Option<UrlState>): (r: nat)
    ensures r < 7
  {
    if s.None? then SCHEMA else Rank(s.value)
  }

  predicate Reads(s: Option<UrlState>) { s.Some? && !Skips(s.value) }

  /** The states follow the order of the fields, and only delimiters lead from one to the next. */
  lemma {:induction false} UrlOrder(s: Option<UrlState>, c: Octet)
    requires UrlNext(s, c).UrlOk?
    ensures var t := UrlNext(s, c).state;
            && RankOf(s) <= Rank(t) && (Skips(t) ==> IsDelimiter(c))
            && (Reads(s) && Skips(t) ==> RankOf(s) < Rank(t))
  {
    hide IsAlpha, IsUserinfoChar, IsUrlChar;
  }

  // ----- The states of the second pass, over the host -----

  datatype HostState =
    | UserinfoStart | Userinfo | HostStart | V6Start | InHost | V6 | V6End | V6ZoneStart | V6Zone | PortStart | InPort
    | HostDead

  /** http_parse_host_char */
  function HostNext(s: HostState, c: Octet): HostState {
    match s
    case Userinfo => OnUserinfo(c)
    case UserinfoStart => OnUserinfo(c)
    case HostStart => if c == '[' then V6Start else if IsHostChar(c) then InHost else HostDead
    case InHost => if IsHostChar(c) then InHost else if c == ':' then PortStart else HostDead
    case V6End => if c == ':' then PortStart else HostDead
    case V6 => if c == ']' then V6End else if InV6(c) then V6 else if c == '%' then V6ZoneStart else HostDead
    case V6Start => if InV6(c) then V6 else HostDead
    case V6Zone => if c == ']' then V6End else if InZone(c) then V6Zone else HostDead
    case V6ZoneStart => if InZone(c) then V6Zone else HostDead
    case PortStart => if IsNum(c) then InPort else HostDead
    case InPort => if IsNum(c) then InPort else HostDead
    case HostDead => HostDead
  }

  function OnUserinfo(c: Octet)
    : HostState { if c == '@' then HostStart else if IsUserinfoChar(c) then Userinfo else HostDead }

  predicate InV6(c: Octet) { IsHex(c) || c == ':' || c == '.' }

  predicate InZone(c: Octet) { IsAlphaNum(c) || c == '%' || c == '.' || c == '-' || c == '_' || c == '~' }

  function HostRank(s: HostState): (r: nat)
    ensures USERINFO <= r <= PORT
  {
    match s
    case UserinfoStart | Userinfo => USERINFO
    case V6End | PortStart | InPort => PORT
    case _ => HOST
  }

  predicate HostReads(s: HostState) {
    s.Userinfo? || s.InHost? || s.V6? || s.V6ZoneStart? || s.V6Zone? || s.InPort?
  }

  lemma {:induction false} HostOrder(s: HostState, c: Octet)
    requires !HostNext(s, c).HostDead?
    ensures var t := HostNext(s, c);
            && HostRank(s) <= HostRank(t) && (!HostReads(t) ==> IsDelimiter(c))
            && (HostReads(s) && !HostReads(t) ==> HostRank(s) < HostRank(t))
            && (t.InPort? ==> IsNum(c))
  {
    hide IsUserinfoChar, IsHostChar, InV6, InZone, IsNum;
  }

  /** The states in which the host may end. */
  predicate HostComplete(s: HostState) { s.InHost? || s.V6End? || s.InPort? }

  // ----- The port -----

  /** The value of decimal digits. */
  function DecimalValue(buf: seq<Octet>, a: nat, b: nat): nat
    requires a <= b <= |buf|
  {
    if a == b then 0 else 10 * DecimalValue(buf, a, b - 1) + if IsNum(buf[b - 1]) then Digit(buf[b - 1]) else 0
  }

  predicate AllDigits(buf: seq<Octet>, a: nat, b: nat)
    requires b <= |buf|
  {
    forall k :: a <= k < b ==> IsNum(buf[k])
  }

  /** More digits never make the value smaller. */
  lemma {:induction false} DecimalGrows(buf: seq<Octet>, a: nat, b: nat, c: nat)
    requires a <= b <= c <= |buf|
    ensures DecimalValue(buf, a, b) <= DecimalValue(buf, a, c)
  {
    if b < c { DecimalGrows(buf, a, b, c - 1); }
  }

  // ----- What http_parser_parse_url finds -----

  /** A URL: its fields, and the number of its port, or 0. */
  datatype ParsedFields = ParsedFields(fields: Fields, port: nat)

  /** One more byte, at k, in the field `rank`: `more` if the byte before was in that field too. */
  function AddByte(fields: Fields, k: nat, rank: nat, more: bool): Fields
    requires rank < 7
  {
    if more && fields[rank].Some? then fields[rank := Some(Range(fields[rank].value.off, fields[rank].value.len + 1))]
    else fields[rank := Some(Range(k, 1))]
  }

  datatype Scan = Scan(state: Option<UrlState>, fields: Fields, foundAt: bool)

  /** The first pass over i bytes, if none is refused. */
  function ScanUrl(buf: seq<Octet>, connect: bool, i: nat): Option<Scan>
    requires i <= |buf|
  {
    if i == 0 then Some(Scan(if connect then Some(ServerStart) else None, NO_FIELDS, false))
    else
      var before := ScanUrl(buf, connect, i - 1);
      if before.None? then None
      else
        var s := before.value.state;
        var r := UrlNext(s, buf[i - 1]);
        if r.BadUrl? then None
        else
          var t := r.state;
          Some(Scan(Some(t),
                    if Skips(t) then before.value.fields
                    else AddByte(before.value.fields, i - 1, Rank(t), Reads(s) && RankOf(s) == Rank(t)),
                    before.value.foundAt || t.ServerWithAt?))
  }

  datatype HostScan = HostScan(state: HostState, fields: Fields)

  /** The second pass over the host, from a to i. */
  function ScanHost(buf: seq<Octet>, start: HostScan, a: nat, i: nat): Option<HostScan>
    requires a <= i <= |buf|
  {
    if i == a then Some(start)
    else
      var before := ScanHost(buf, start, a, i - 1);
      if before.None? then None
      else
        var s := before.value.state;
        var t := HostNext(s, buf[i - 1]);
        if t.HostDead? then None
        else
          Some(HostScan(t, if !HostReads(t) then before.value.fields
                           else AddByte(before.value.fields, i - 1, HostRank(t),
                                        HostReads(s) && HostRank(s) == HostRank(t))))
  }

  /** http_parse_host: the fields with the host taken apart. */
  function SplitHost(buf: seq<Octet>, fields: Fields, foundAt: bool): Option<Fields> {
    if fields[HOST].None? || End(fields[HOST].value) > |buf| then None
    else
      var r := fields[HOST].value;
      var done := ScanHost(buf, HostScan(if foundAt then UserinfoStart else HostStart, fields[HOST := None]), r.off,
                           End(r));
      if done.None? || !HostComplete(done.value.state) then None else Some(done.value.fields)
  }

  function WithPort(buf: seq<Octet>, fields: Fields): Option<ParsedFields> {
    if fields[PORT].None? then Some(ParsedFields(fields, 0))
    else
      var r := fields[PORT].value;
      if End(r) > |buf| || DecimalValue(buf, r.off, End(r)) > 0xffff then None
      else Some(ParsedFields(fields, DecimalValue(buf, r.off, End(r))))
  }

  predicate OnlyHostAndPort(fields: Fields) {
    forall f :: 0 <= f < 7 ==> (fields[f].Some? <==> f == HOST || f == PORT)
  }

  /** http_parser_parse_url */
  function ParsedUrl(buf: seq<Octet>, connect: bool): Option<ParsedFields> {
    var first := ScanUrl(buf, connect, |buf|);
    if buf == [] || first.None? then None
    else
      var fields := first.value.fields;
      if fields[HOST].None? then
        if fields[SCHEMA].Some? || connect then None else WithPort(buf, fields)
      else
        var split := SplitHost(buf, fields, first.value.foundAt);
        if split.None? || (connect && !OnlyHostAndPort(split.value)) then None else WithPort(buf, split.value)
  }

  // ----- The fields tile the URL -----

  ghost predicate Tiles(buf: seq<Octet>, fields: Fields) {
    Ordered(fields, 0, 7, 0, |buf|) && Filled(buf, fields, 0, 7, 0, |buf|)
  }

  lemma {:induction false} AddBytePass(buf: seq<Octet>, fields: Fields, low: nat, high: nat, a: nat, i: nat, rank: nat,
                                       reading: bool, rank': nat)
    requires i < |buf| && low <= rank <= rank' < high <= 7 && Pass(buf, fields, low, high, a, i, rank, reading)
    ensures Pass(buf, AddByte(fields, i, rank', reading && rank == rank'), low, high, a, i + 1, rank', true)
  {
    hide Ordered, Filled;
    if reading && rank == rank' {
      PassMore(buf, fields, low, high, a, i, rank);
    } else {
      PassNew(buf, fields, low, high, a, i, rank, reading, rank');
    }
  }

  lemma {:induction false} ScanPasses(buf: seq<Octet>, connect: bool, i: nat)
    requires i <= |buf|
    ensures var r := ScanUrl(buf, connect, i);
            r.Some? ==>
              && Pass(buf, r.value.fields, 0, 7, 0, i, RankOf(r.value.state), Reads(r.value.state))
              && r.value.fields[USERINFO].None? && r.value.fields[PORT].None?
  {
    hide UrlNext, Pass, Skips;
    if i == 0 {
      PassStarts(buf, if connect then HOST else SCHEMA);
      StartsReading(connect);
    } else {
      ScanPasses(buf, connect, i - 1);
      var before := ScanUrl(buf, connect, i - 1);
      if before.Some? {
        var s := before.value.state;
        var r := UrlNext(s, buf[i - 1]);
        if r.UrlOk? {
          UrlOrder(s, buf[i - 1]);
          if Skips(r.state) {
            PassSkip(buf, before.value.fields, 0, 7, 0, i - 1, RankOf(s), Reads(s), Rank(r.state));
          } else {
            AddBytePass(buf, before.value.fields, 0, 7, 0, i - 1, RankOf(s), Reads(s), Rank(r.state));
          }
        }
      }
    }
  }

  lemma {:induction false} StartsReading(connect: bool)
    ensures !Reads(if connect then Some(ServerStart) else None)
  {
  }

  lemma {:induction false} PassStarts(buf: seq<Octet>, rank: nat)
    requires rank < 7
    ensures Pass(buf, NO_FIELDS, 0, 7, 0, 0, rank, false)
  {
  }

  /** The port, as far as it goes, has only digits. */
  predicate PortDigits(buf: seq<Octet>, fields: Fields) {
    fields[PORT].Some? ==>
      End(fields[PORT].value) <= |buf| && AllDigits(buf, fields[PORT].value.off, End(fields[PORT].value))
  }

  lemma {:induction false} AddByteDigits(buf: seq<Octet>, fields: Fields, k: nat, rank: nat, more: bool)
    requires rank < 7 && k < |buf| && PortDigits(buf, fields)
    requires rank == PORT ==> IsNum(buf[k]) && (more && fields[PORT].Some? ==> End(fields[PORT].value) == k)
    ensures PortDigits(buf, AddByte(fields, k, rank, more))
  {
    hide IsNum;
  }

  lemma {:induction false} HostPasses(buf: seq<Octet>, start: HostScan, a: nat, i: nat)
    requires a <= i <= |buf|
    requires Pass(buf, start.fields, USERINFO, PATH, a, a, HostRank(start.state), HostReads(start.state))
    requires PortDigits(buf, start.fields)
    ensures var r := ScanHost(buf, start, a, i);
            r.Some? ==>
              && Pass(buf, r.value.fields, USERINFO, PATH, a, i, HostRank(r.value.state), HostReads(r.value.state))
              && PortDigits(buf, r.value.fields)
              && forall f :: 0 <= f < 7 && !(USERINFO <= f < PATH) ==> r.value.fields[f] == start.fields[f]
  {
    hide HostNext, Pass, HostReads, PortDigits;
    if i > a {
      HostPasses(buf, start, a, i - 1);
      var before := ScanHost(buf, start, a, i - 1);
      if before.Some? && !HostNext(before.value.state, buf[i - 1]).HostDead? {
        var s, fields := before.value.state, before.value.fields;
        var t := HostNext(s, buf[i - 1]);
        HostOrder(s, buf[i - 1]);
        if HostReads(t) {
          AddBytePass(buf, fields, USERINFO, PATH, a, i - 1, HostRank(s), HostReads(s), HostRank(t));
          ReadingEnds(buf, fields, a, i - 1, s);
          PortRank(t);
          AddByteDigits(buf, fields, i - 1, HostRank(t), HostReads(s) && HostRank(s) == HostRank(t));
        } else {
          PassSkip(buf, fields, USERINFO, PATH, a, i - 1, HostRank(s), HostReads(s), HostRank(t));
        }
      }
    }
  }

  lemma {:induction false} PortRank(t: HostState)
    requires HostReads(t)
    ensures HostRank(t) == PORT <==> t.InPort?
  {
  }

  lemma {:induction false} ReadingEnds(buf: seq<Octet>, fields: Fields, a: nat, i: nat, s: HostState)
    requires i <= |buf| && Pass(buf, fields, USERINFO, PATH, a, i, HostRank(s), HostReads(s))
    ensures HostReads(s) ==> fields[HostRank(s)].Some? && End(fields[HostRank(s)].value) == i
  {
    hide Ordered, Filled;
  }

  /** Putting the parts of the host in the place of the host. */
  lemma {:induction false} SplitTiles(buf: seq<Octet>, fields: Fields, fields': Fields, rank: nat, reading: bool)
    requires Tiles(buf, fields) && fields[HOST].Some? && fields[USERINFO].None? && fields[PORT].None?
    requires USERINFO <= rank < PATH
    requires Pass(buf, fields', USERINFO, PATH, fields[HOST].value.off, End(fields[HOST].value), rank, reading)
    requires forall f :: 0 <= f < 7 && !(USERINFO <= f < PATH) ==> fields'[f] == fields[f]
    ensures Tiles(buf, fields')
  {
    var a, b := fields[HOST].value.off, End(fields[HOST].value);
    SplitOrdered(fields, fields', |buf|);
    forall k | 0 <= k < |buf|
      ensures IsDelimiter(buf[k]) || exists f :: 0 <= f < 7 && Covers(fields'[f], k)
    {
      if a <= k < b {
        if !IsDelimiter(buf[k]) {
          var f :| USERINFO <= f < PATH && Covers(fields'[f], k);
        }
      } else if !IsDelimiter(buf[k]) {
        var f :| 0 <= f < 7 && Covers(fields[f], k);
        assert Covers(fields'[f], k);
      }
    }
  }

  lemma {:induction false} SplitOrdered(fields: Fields, fields': Fields, n: nat)
    requires Ordered(fields, 0, 7, 0, n) && fields[HOST].Some?
    requires Ordered(fields', USERINFO, PATH, fields[HOST].value.off, End(fields[HOST].value))
    requires forall f :: 0 <= f < 7 && !(USERINFO <= f < PATH) ==> fields'[f] == fields[f]
    ensures Ordered(fields', 0, 7, 0, n)
  {
    var a, b := fields[HOST].value.off, End(fields[HOST].value);
    forall f | 0 <= f < 7 && fields'[f].Some?
      ensures 0 <= fields'[f].value.off && End(fields'[f].value) <= n
      ensures f < USERINFO ==> End(fields'[f].value) <= a
      ensures f >= PATH ==> b <= fields'[f].value.off
    {
    }
  }

  /**
   * When a URL is accepted, its fields are within it, disjoint and in order, every byte outside them is a delimiter,
   * and the port is the value of its digits.
   */
  lemma {:induction false} FieldsTile(buf: seq<Octet>, connect: bool)
    requires ParsedUrl(buf, connect).Some?
    ensures var u := ParsedUrl(buf, connect).value;
            && Tiles(buf, u.fields)
            && (u.fields[PORT].Some? ==>
                  var r := u.fields[PORT].value;
                  End(r) <= |buf| && AllDigits(buf, r.off, End(r)) &&
                  u.port == DecimalValue(buf, r.off, End(r)) <= 0xffff)
            && (u.fields[PORT].None? ==> u.port == 0)
            && (u.fields[SCHEMA].Some? ==> u.fields[HOST].Some?)
  {
    hide ScanUrl, ScanHost, Pass, Tiles;
    ScanPasses(buf, connect, |buf|);
    var first := ScanUrl(buf, connect, |buf|).value;
    PassTiles(buf, first.fields, RankOf(first.state), Reads(first.state));
    if first.fields[HOST].Some? {
      var r := first.fields[HOST].value;
      var start := HostScan(if first.foundAt then UserinfoStart else HostStart, first.fields[HOST := None]);
      HostStarts(buf, first.fields, first.foundAt);
      HostPasses(buf, start, r.off, End(r));
      var done := ScanHost(buf, start, r.off, End(r)).value;
      SplitTiles(buf, first.fields, done.fields, HostRank(done.state), HostReads(done.state));
      HostIsSet(buf, start, r.off, End(r));
    }
  }

  lemma {:induction false} PassTiles(buf: seq<Octet>, fields: Fields, rank: nat, reading: bool)
    requires rank < 7 && Pass(buf, fields, 0, 7, 0, |buf|, rank, reading)
    ensures Tiles(buf, fields)
    ensures fields[HOST].Some? ==> End(fields[HOST].value) <= |buf|
  {
  }

  lemma {:induction false} HostStarts(buf: seq<Octet>, fields: Fields, foundAt: bool)
    requires fields[HOST].Some? && fields[USERINFO].None? && fields[PORT].None? && End(fields[HOST].value) <= |buf|
    ensures var s := if foundAt then UserinfoStart else HostStart;
            Pass(buf, fields[HOST := None], USERINFO, PATH, fields[HOST].value.off, fields[HOST].value.off, HostRank(s),
                 HostReads(s))
    ensures PortDigits(buf, fields[HOST := None])
  {
  }

  /** In the states after the beginning of the host, the host is set. */
  lemma {:induction false} HostIsSet(buf: seq<Octet>, start: HostScan, a: nat, i: nat)
    requires a <= i <= |buf| && (start.state.UserinfoStart? || start.state.HostStart?)
    ensures var r := ScanHost(buf, start, a, i);
            && r.Some? && !r.value.state.UserinfoStart? && !r.value.state.Userinfo?
            && !r.value.state.HostStart? && !r.value.state.V6Start? ==>
              r.value.fields[HOST].Some?
  {
    hide IsUserinfoChar, IsHostChar, InV6, InZone, IsNum;
    if i > a { HostIsSet(buf, start, a, i - 1); }
  }

  // ----- As loops over the bytes -----

  /** The first loop: `oldField` is the field of the last byte that was in one. */
  method FindFields(buf: seq<Octet>, connect: bool) returns (r: Option<Scan>)
    ensures r == ScanUrl(buf, connect, |buf|)
  {
    hide UrlNext, Pass, Ordered, Filled, Skips;
    var s: Option<UrlState> := if connect then Some(ServerStart) else None;
    var fields := NO_FIELDS;
    var foundAt := false;
    var oldField: Option<nat> := None;
    StartsReading(connect);
    for i := 0 to |buf|
      invariant ScanUrl(buf, connect, i) == Some(Scan(s, fields, foundAt))
      invariant oldField.Some? ==> oldField.value < 7 && fields[oldField.value].Some?
      invariant if Reads(s) then oldField == Some(RankOf(s)) else oldField.Some? ==> oldField.value < RankOf(s)
    {
      var next := UrlNext(s, buf[i]);
      if next.BadUrl? {
        NoScan(buf, connect, i + 1, |buf|);
        return None;
      }
      var t := next.state;
      UrlOrder(s, buf[i]);
      foundAt := foundAt || t.ServerWithAt?;
      if !Skips(t) {
        var field := Rank(t);
        if oldField == Some(field) {
          fields := fields[field := Some(Range(fields[field].value.off, fields[field].value.len + 1))];
        } else {
          fields := fields[field := Some(Range(i, 1))];
          oldField := Some(field);
        }
      }
      s := Some(t);
    }
    r := Some(Scan(s, fields, foundAt));
  }

  lemma {:induction false} NoScan(buf: seq<Octet>, connect: bool, i: nat, n: nat)
    requires i <= n <= |buf| && ScanUrl(buf, connect, i).None?
    ensures ScanUrl(buf, connect, n).None?
  {
    hide UrlNext;
    if i < n { NoScan(buf, connect, i, n - 1); }
  }

  lemma {:induction false} NoHostScan(buf: seq<Octet>, start: HostScan, a: nat, i: nat, n: nat)
    requires a <= i <= n <= |buf| && ScanHost(buf, start, a, i).None?
    ensures ScanHost(buf, start, a, n).None?
  {
    hide HostNext;
    if i < n { NoHostScan(buf, start, a, i, n - 1); }
  }

  /** http_parse_host: take the host field apart. */
  method ParseHost(buf: seq<Octet>, fields0: Fields, foundAt: bool) returns (r: Option<Fields>)
    requires fields0[HOST].Some? && End(fields0[HOST].value) <= |buf|
    ensures r == SplitHost(buf, fields0, foundAt)
  {
    hide HostNext, HostReads;
    var a, b := fields0[HOST].value.off, End(fields0[HOST].value);
    var fields: Fields := fields0[HOST := None];
    var s := if foundAt then UserinfoStart else HostStart;
    ghost var start := HostScan(s, fields);
    for i := a to b
      invariant ScanHost(buf, start, a, i) == Some(HostScan(s, fields))
    {
      var t := HostNext(s, buf[i]);
      if t.HostDead? {
        NoHostScan(buf, start, a, i + 1, b);
        return None;
      }
      if HostReads(t) {
        fields := AddByte(fields, i, HostRank(t), HostReads(s) && HostRank(s) == HostRank(t));
      }
      s := t;
    }
    r := if HostComplete(s) then Some(fields) else None;
  }

  /** The value of the port, given up as soon as it is too large. */
  method ReadPort(buf: seq<Octet>, a: nat, b: nat) returns (port: Option<nat>)
    requires a <= b <= |buf| && AllDigits(buf, a, b)
    ensures port == var v := DecimalValue(buf, a, b); if v > 0xffff then None else Some(v)
  {
    var v: nat := 0;
    for p := a to b
      invariant v == DecimalValue(buf, a, p) <= 0xffff
    {
      v := 10 * v + Digit(buf[p]);
      if v > 0xffff {
        DecimalGrows(buf, a, p + 1, b);
        return None;
      }
    }
    port := Some(v);
  }

  /** http_parser_parse_url */
  method ParseUrl(buf: seq<Octet>, connect: bool) returns (u: Option<ParsedFields>)
    ensures u == ParsedUrl(buf, connect)
    ensures u.Some? ==> Tiles(buf, u.value.fields)
  {
    hide ScanUrl, ScanHost, Tiles, Pass;
    if ParsedUrl(buf, connect).Some? { FieldsTile(buf, connect); }
    if buf == [] { return None; }
    var scan := FindFields(buf, connect);
    if scan.None? { return None; }
    ScanPasses(buf, connect, |buf|);
    PassTiles(buf, scan.value.fields, RankOf(scan.value.state), Reads(scan.value.state));
    var fields := scan.value.fields;
    if fields[SCHEMA].Some? && fields[HOST].None? { return None; }
    if fields[HOST].Some? {
      SplitDigits(buf, fields, scan.value.foundAt);
      var split := ParseHost(buf, fields, scan.value.foundAt);
      if split.None? { return None; }
      fields := split.value;
    }
    if connect && !OnlyHostAndPort(fields) { return None; }
    if fields[PORT].None? { return Some(ParsedFields(fields, 0)); }
    var port := ReadPort(buf, fields[PORT].value.off, End(fields[PORT].value));
    u := if port.None? then None else Some(ParsedFields(fields, port.value));
  }

  lemma {:induction false} SplitDigits(buf: seq<Octet>, fields: Fields, foundAt: bool)
    requires fields[HOST].Some? && fields[USERINFO].None? && fields[PORT].None? && End(fields[HOST].value) <= |buf|
    ensures var r := SplitHost(buf, fields, foundAt); r.Some? ==> PortDigits(buf, r.value)
  {
    hide ScanHost, Pass, PortDigits;
    var start := HostScan(if foundAt then UserinfoStart else HostStart, fields[HOST := None]);
    HostStarts(buf, fields, foundAt);
    HostPasses(buf, start, fields[HOST].value.off, End(fields[HOST].value));
  }
}

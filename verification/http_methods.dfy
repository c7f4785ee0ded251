/** The parser reads exactly the names of methods, although it keeps only a method and an index and changes its mind. */
module HttpMethods {
  import opened HttpChars
  import opened HttpMachine
  import opened HttpRun
  import opened HttpSafety
  import opened HttpScan
  import opened HttpChunks

  /** The method that the parser expects after n characters of method v. */
  function Candidate(v: nat, n: nat): nat {
    match v
    case 4 | 12 | 28 => if n <= 1 then 3 else v
    case 29 => if n <= 1 then 3 else if n <= 2 then 4 else v
    case 13 => if n <= 1 then 3 else if n <= 4 then 12 else v
    case 22 => if n <= 1 then CONNECT else v
    case 8 => if n <= 2 then CONNECT else v
    case 11 | 23 | 24 => if n <= 1 then 10 else v
    case 21 => if n <= 2 then 10 else v
    case 30 => if n <= 3 then 10 else v
    case 14 | 33 => if n <= 1 then 26 else v
    case 17 => if n <= 2 then 20 else v
    case 31 => if n <= 1 then 9 else v
    case 18 | 27 => if n <= 2 then 15 else v
    case 32 => if n <= 3 then 15 else v
    case _ => v
  }

  lemma {:induction false} FirstCandidate(v: nat)
    requires v < 34
    ensures MethodName(v) != [] && MethodName(v)[0] <= '\U{00FF}' && MethodOfLetter(MethodName(v)[0]) == Candidate(v, 1)
  {
    hide MethodName, MethodOfLetter, Candidate;
    if v < 12 {
      FirstOfLow(v);
    } else if v < 24 {
      FirstOfMiddle(v);
    } else {
      FirstOfHigh(v);
    }
  }

  lemma {:induction false} FirstOfLow(v: nat)
    requires v < 12
    ensures MethodName(v) != [] && MethodName(v)[0] <= '\U{00FF}' && MethodOfLetter(MethodName(v)[0]) == Candidate(v, 1)
  {
  }

  lemma {:induction false} FirstOfMiddle(v: nat)
    requires 12 <= v < 24
    ensures MethodName(v) != [] && MethodName(v)[0] <= '\U{00FF}' && MethodOfLetter(MethodName(v)[0]) == Candidate(v, 1)
  {
  }

  lemma {:induction false} FirstOfHigh(v: nat)
    requires 24 <= v < 34
    ensures MethodName(v) != [] && MethodName(v)[0] <= '\U{00FF}' && MethodOfLetter(MethodName(v)[0]) == Candidate(v, 1)
  {
  }

  lemma {:induction false} UpperCase(v: nat, n: nat)
    requires v < 34 && n < |MethodName(v)|
    ensures 'A' <= MethodName(v)[n] <= 'Z' || MethodName(v)[n] == '-'
  {
  }

  /** The character after n leads the parser from one candidate to the next. */
  predicate Leads(v: nat, n: nat)
    requires v < 34 && 0 < n < |MethodName(v)|
  {
    var u, c := Candidate(v, n), MethodName(v)[n];
    u < 34 && c <= '\U{00FF}' &&
    if CharAt(MethodName(u), n) == c then Candidate(v, n + 1) == u else OtherMethod(u, n, c) == Candidate(v, n + 1)
  }

  /** Reading the next character of method v leads from candidate to candidate. */
  lemma {:induction false} NextCandidate(v: nat, n: nat)
    requires v < 34 && 0 < n < |MethodName(v)|
    ensures Leads(v, n)
  {
    hide MethodName, OtherMethod;
    if Candidate(v, n) == v {
      CandidateStays(v, n);
    } else if v == 4 || v == 12 || v == 13 || v == 28 || v == 29 {
      NextOfPost(v, n);
    } else if v == 8 || v == 22 {
      NextOfConnect(v, n);
    } else if v == 11 || v == 21 || v == 23 || v == 24 || v == 30 {
      NextOfMkcol(v, n);
    } else if v == 18 || v == 27 || v == 32 {
      NextOfUnlock(v, n);
    } else {
      NextOfOthers(v, n);
    }
  }

  lemma {:induction false} CandidateStays(v: nat, n: nat)
    requires v < 34 && 0 < n < |MethodName(v)| && Candidate(v, n) == v
    ensures Leads(v, n)
  {
    hide MethodName, OtherMethod;
    UpperCase(v, n);
  }

  lemma {:induction false} NextOfPost(v: nat, n: nat)
    requires (v == 4 || v == 12 || v == 13 || v == 28 || v == 29) && 0 < n < |MethodName(v)| && Candidate(v, n) != v
    ensures Leads(v, n)
  {
  }

  lemma {:induction false} NextOfConnect(v: nat, n: nat)
    requires (v == 8 || v == 22) && 0 < n < |MethodName(v)| && Candidate(v, n) != v
    ensures Leads(v, n)
  {
  }

  lemma {:induction false} NextOfMkcol(v: nat, n: nat)
    requires (v == 11 || v == 21 || v == 23 || v == 24 || v == 30) && 0 < n < |MethodName(v)| && Candidate(v, n) != v
    ensures Leads(v, n)
  {
  }

  lemma {:induction false} NextOfUnlock(v: nat, n: nat)
    requires (v == 18 || v == 27 || v == 32) && 0 < n < |MethodName(v)| && Candidate(v, n) != v
    ensures Leads(v, n)
  {
    hide MethodName;
    NextOfUnlockNames();
  }

  lemma {:induction false} NextOfUnlockNames()
    ensures MethodName(15) == "UNLOCK"
    ensures MethodName(18) == "UNBIND"
    ensures MethodName(27) == "UNSUBSCRIBE"
    ensures MethodName(32) == "UNLINK"
  {
  }

  lemma {:induction false} NextOfOthers(v: nat, n: nat)
    requires (v == 14 || v == 17 || v == 31 || v == 33) && 0 < n < |MethodName(v)| && Candidate(v, n) != v
    ensures Leads(v, n)
  {
    hide MethodName;
    NextOfOthersNames();
  }

  lemma {:induction false} NextOfOthersNames()
    ensures MethodName(9) == "LOCK"
    ensures MethodName(14) == "SEARCH"
    ensures MethodName(17) == "REBIND"
    ensures MethodName(20) == "REPORT"
    ensures MethodName(26) == "SUBSCRIBE"
    ensures MethodName(31) == "LINK"
    ensures MethodName(33) == "SOURCE"
  {
  }

  /** Method m begins with the first n characters of method u, and then has c. */
  predicate Turns(u: nat, n: nat, c: Octet, m: nat)
    requires u < 34 && m < 34
  {
    n < |MethodName(m)| && n <= |MethodName(u)| && MethodName(m)[..n + 1] == MethodName(u)[..n] + [c]
  }

  lemma {:induction false} TurnsBy(u: nat, n: nat, c: Octet, m: nat)
    requires u < 34 && m < 34 && n < |MethodName(m)| && n <= |MethodName(u)| && MethodName(m)[n] == c
    requires forall k :: 0 <= k < n ==> MethodName(m)[k] == MethodName(u)[k]
    ensures Turns(u, n, c, m)
  {
    hide MethodName;
  }

  lemma {:induction false} PostNames()
    ensures MethodName(3) == "POST"
    ensures MethodName(4) == "PUT"
    ensures MethodName(12) == "PROPFIND"
    ensures MethodName(13) == "PROPPATCH"
    ensures MethodName(28) == "PATCH"
    ensures MethodName(29) == "PURGE"
  {
  }

  lemma {:induction false} ConnectNames()
    ensures MethodName(5) == "CONNECT"
    ensures MethodName(8) == "COPY"
    ensures MethodName(22) == "CHECKOUT"
  {
  }

  lemma {:induction false} MkcolNames()
    ensures MethodName(10) == "MKCOL"
    ensures MethodName(11) == "MOVE"
    ensures MethodName(21) == "MKACTIVITY"
    ensures MethodName(23) == "MERGE"
    ensures MethodName(24) == "M-SEARCH"
    ensures MethodName(30) == "MKCALENDAR"
  {
  }

  lemma {:induction false} PostTurns(u: nat, n: nat, c: Octet)
    requires (u == 3 || u == 4 || u == 12) && OtherMethod(u, n, c) >= 0
    ensures Turns(u, n, c, OtherMethod(u, n, c))
  {
    hide MethodName, Turns;
    PostNames();
    TurnsBy(u, n, c, OtherMethod(u, n, c));
  }

  lemma {:induction false} ConnectTurns(u: nat, n: nat, c: Octet)
    requires (u == 5) && OtherMethod(u, n, c) >= 0
    ensures Turns(u, n, c, OtherMethod(u, n, c))
  {
    hide MethodName, Turns;
    ConnectNames();
    TurnsBy(u, n, c, OtherMethod(u, n, c));
  }

  lemma {:induction false} MkcolTurns(u: nat, n: nat, c: Octet)
    requires (u == 10) && OtherMethod(u, n, c) >= 0
    ensures Turns(u, n, c, OtherMethod(u, n, c))
  {
    hide MethodName, Turns;
    MkcolNames();
    TurnsBy(u, n, c, OtherMethod(u, n, c));
  }

  lemma {:induction false} UnlockTurns(u: nat, n: nat, c: Octet)
    requires (u == 15) && OtherMethod(u, n, c) >= 0
    ensures Turns(u, n, c, OtherMethod(u, n, c))
  {
    hide MethodName, Turns;
    NextOfUnlockNames();
    TurnsBy(u, n, c, OtherMethod(u, n, c));
  }

  lemma {:induction false} OthersTurn(u: nat, n: nat, c: Octet)
    requires (u == 9 || u == 20 || u == 26) && OtherMethod(u, n, c) >= 0
    ensures Turns(u, n, c, OtherMethod(u, n, c))
  {
    hide MethodName, Turns;
    NextOfOthersNames();
    TurnsBy(u, n, c, OtherMethod(u, n, c));
  }

  /** Every change of mind is to a method that begins with what has been read. */
  lemma {:induction false} OtherMethodBegins(u: nat, n: nat, c: Octet)
    requires u < 34
    ensures var m := OtherMethod(u, n, c); m >= 0 ==> Turns(u, n, c, m)
  {
    hide MethodName, Turns;
    if OtherMethod(u, n, c) >= 0 {
      if u == 3 || u == 4 || u == 12 {
        PostTurns(u, n, c);
      } else if u == 5 {
        ConnectTurns(u, n, c);
      } else if u == 10 {
        MkcolTurns(u, n, c);
      } else if u == 15 {
        UnlockTurns(u, n, c);
      } else {
        OthersTurn(u, n, c);
      }
    }
  }

  // ----- Runs -----

  /** The parser after n characters, holding method v. */
  function InMethod(p: Parser, v: nat, n: nat): Parser {
    Fresh(p).(state := Req(Method), verb := v, index := n, nread := p.nread + n)
  }

  /** The parser after a method and the space that follows. */
  function AfterMethod(p: Parser, v: nat, n: nat): Parser {
    Fresh(p).(state := Req(SpacesBeforeUrl), verb := v, index := n + 1, nread := p.nread + n + 1)
  }

  predicate AtRequest(p: Parser) { p.errno == Ok && p.state == Req(StartReq) }

  lemma {:induction false} RequestStep(s: Settings, p: Parser, r: ReqState, c: Octet)
    requires p.errno == Ok && p.state == Req(r) && p.nread + 1 <= s.maxHeaderSize
    ensures Step(s, p, c) == RequestLine(p.(nread := p.nread + 1), r, c)
  {
    hide RequestLine;
  }

  /** A step without actions, where no data callback is open. */
  lemma {:induction false} Quiet(s: Settings, m: Machine, data: seq<Octet>, n: nat, p: Parser, log: seq<Event>)
    requires n < |data| && At(s, m, data, n, p, log) && StartOpen(p.state).None?
    requires Step(s, p, data[n]).actions.Done? && !Step(s, p, data[n]).stop
    ensures var q := Step(s, p, data[n]).parser;
            if q.errno != Ok then Fails(s, m, data) else At(s, m, data, n + 1, q, log)
  {
    hide Step, Run, Fails, StartOpen;
    AtNext(s, m, data, n, p, log);
    NoActions(log, data[n]);
  }

  /** The first character of a method. */
  lemma {:induction false} MethodStarts(s: Settings, m: Machine, data: seq<Octet>, o: nat, p: Parser, log: seq<Event>)
    requires o < |data| && At(s, m, data, o, p, log) && AtRequest(p) && p.nread + 1 <= s.maxHeaderSize
    requires data[o] != CR && data[o] != LF
    ensures var v := MethodOfLetter(data[o]);
            if v < 0 then Fails(s, m, data) else At(s, m, data, o + 1, InMethod(p, v, 1), log + [Note(MessageBegin)])
  {
    hide Run, Fails, Report, MethodOfLetter;
    AtNext(s, m, data, o, p, log);
    RequestStep(s, p, StartReq, data[o]);
    ReportNote(log, MessageBegin, data[o]);
  }

  /** A further character of a method, or the space after it. */
  lemma {:induction false} MethodGoesOn(s: Settings, m: Machine, data: seq<Octet>, e: nat, p: Parser, log: seq<Event>,
                                        v: nat, n: nat)
    requires e < |data| && 0 < n && v < 34 && n <= |MethodName(v)| && p.errno == Ok
    requires p.nread + n + 1 <= s.maxHeaderSize
    requires At(s, m, data, e, InMethod(p, v, n), log)
    ensures var c := data[e];
            if c == ' ' then
              if n == |MethodName(v)| then At(s, m, data, e + 1, AfterMethod(p, v, n), log) else Fails(s, m, data)
            else if n < |MethodName(v)| && MethodName(v)[n] == c then At(s, m, data, e + 1, InMethod(p, v, n + 1), log)
            else if OtherMethod(v, n, c) >= 0 && ('A' <= c <= 'Z' || c == '-') then
              At(s, m, data, e + 1, InMethod(p, OtherMethod(v, n, c), n + 1), log)
            else Fails(s, m, data)
  {
    hide Run, Fails, MethodName, OtherMethod, At;
    var q := InMethod(p, v, n);
    MethodLengths(v);
    RequestStep(s, q, Method, data[e]);
    if n < |MethodName(v)| { UpperCase(v, n); }
    Quiet(s, m, data, e, q, log);
  }

  /** The name of method v is read by changing from candidate to candidate. */
  lemma {:induction false} MethodRead(s: Settings, m: Machine, data: seq<Octet>, o: nat, p: Parser, log: seq<Event>,
                                      v: nat, k: nat)
    requires o < |data| && At(s, m, data, o, p, log) && AtRequest(p) && v < 34 && 0 < k <= |MethodName(v)|
    requires o + k <= |data| && data[o..o + k] == MethodName(v)[..k] && p.nread + k <= s.maxHeaderSize
    ensures At(s, m, data, o + k, InMethod(p, Candidate(v, k), k), log + [Note(MessageBegin)])
    decreases k
  {
    hide At, Fails, MethodName, OtherMethod, MethodOfLetter, Candidate;
    FirstCandidate(v);
    assert data[o] == data[o..o + k][0] == MethodName(v)[0];
    if k == 1 {
      UpperCase(v, 0);
      MethodStarts(s, m, data, o, p, log);
      assert MethodName(v)[..1][0] == MethodName(v)[0];
    } else {
      PrefixLess(data[o..o + k], MethodName(v), k);
      assert data[o..o + k][..k - 1] == data[o..o + (k - 1)] && data[o..o + k][k - 1] == data[o + k - 1];
      MethodRead(s, m, data, o, p, log, v, k - 1);
      UpperCase(v, k - 1);
      NextCandidate(v, k - 1);
      var u := Candidate(v, k - 1);
      OtherMethodBegins(u, k - 1, data[o + k - 1]);
      CandidateLong(v, k - 1);
      MethodGoesOn(s, m, data, o + k - 1, p, log + [Note(MessageBegin)], u, k - 1);
    }
  }

  lemma {:induction false} PrefixLess(w: seq<Octet>, name: string, k: nat)
    requires 0 < k <= |name| && w == name[..k]
    ensures w[..k - 1] == name[..k - 1] && w[k - 1] == name[k - 1]
  {
    assert w[..k - 1] == name[..k][..k - 1];
  }

  /** A candidate begins with what has been read. */
  lemma {:induction false} CandidateLong(v: nat, n: nat)
    requires v < 34 && 0 < n <= |MethodName(v)|
    ensures var u := Candidate(v, n); u < 34 && n <= |MethodName(u)|
  {
    hide MethodName;
    if Candidate(v, n) != v { OtherLong(v, n); }
  }

  lemma {:induction false} OtherLong(v: nat, n: nat)
    requires v < 34 && 0 < n <= |MethodName(v)| && Candidate(v, n) != v
    ensures var u := Candidate(v, n); u < 34 && n <= 4 && n <= |MethodName(u)|
  {
  }

  /** After k characters the run has failed, or what was read begins the name of the method that the parser holds. */
  ghost predicate Holds(s: Settings, m: Machine, data: seq<Octet>, o: nat, p: Parser, log: seq<Event>, v: nat, k: nat)
    requires o + k <= |data|
  {
    && v < 34 && k <= |MethodName(v)| && MethodName(v)[..k] == data[o..o + k]
    && At(s, m, data, o + k, InMethod(p, v, k), log + [Note(MessageBegin)])
  }

  ghost predicate Held(s: Settings, m: Machine, data: seq<Octet>, o: nat, p: Parser, log: seq<Event>, k: nat)
    requires o + k <= |data|
  {
    exists v :: Holds(s, m, data, o, p, log, v, k)
  }

  lemma {:induction false} HeldName(s: Settings, m: Machine, data: seq<Octet>, o: nat, p: Parser, log: seq<Event>,
                                    k: nat)
    requires o < |data| && At(s, m, data, o, p, log) && AtRequest(p) && 0 < k && o + k <= |data|
    requires p.nread + k <= s.maxHeaderSize
    requires data[o] != CR && data[o] != LF && ' ' !in data[o..o + k]
    ensures Fails(s, m, data) || Held(s, m, data, o, p, log, k)
    decreases k
  {
    hide At, Fails, MethodName, OtherMethod, MethodOfLetter;
    if k == 1 {
      MethodStarts(s, m, data, o, p, log);
      var v := MethodOfLetter(data[o]);
      if v >= 0 {
        FirstLetter(data[o]);
        assert MethodName(v)[..1] == [data[o]] == data[o..o + 1];
        assert Holds(s, m, data, o, p, log, v, 1);
      }
    } else {
      assert data[o..o + k] == data[o..o + (k - 1)] + [data[o + k - 1]];
      HeldName(s, m, data, o, p, log, k - 1);
      if !Fails(s, m, data) {
        var v :| Holds(s, m, data, o, p, log, v, k - 1);
        NextHeld(s, m, data, o, p, log, v, k - 1);
      }
    }
  }

  lemma {:induction false} NextHeld(s: Settings, m: Machine, data: seq<Octet>, o: nat, p: Parser, log: seq<Event>,
                                    v: nat, k: nat)
    requires 0 < k && o + k < |data| && p.errno == Ok && p.nread + k + 1 <= s.maxHeaderSize && data[o + k] != ' '
    requires Holds(s, m, data, o, p, log, v, k)
    ensures Fails(s, m, data) || Held(s, m, data, o, p, log, k + 1)
  {
    hide At, Fails, MethodName, OtherMethod;
    var c := data[o + k];
    MethodGoesOn(s, m, data, o + k, p, log + [Note(MessageBegin)], v, k);
    OtherMethodBegins(v, k, c);
    assert data[o..o + k + 1] == data[o..o + k] + [c];
    if !Fails(s, m, data) {
      var u := if k < |MethodName(v)| && MethodName(v)[k] == c then v else OtherMethod(v, k, c);
      if u == v { assert k < |MethodName(v)| && MethodName(v)[..k + 1] == MethodName(v)[..k] + [MethodName(v)[k]]; }
      assert Holds(s, m, data, o, p, log, u, k + 1);
    }
  }

  lemma {:induction false} FirstLetter(c: Octet)
    ensures var v := MethodOfLetter(c); v >= 0 ==> MethodName(v) != [] && MethodName(v)[0] == c
  {
  }

  lemma {:induction false} LastCandidate(v: nat)
    requires v < 34
    ensures MethodName(v) != [] && Candidate(v, |MethodName(v)|) == v
  {
  }

  /** The word is the name of method v. */
  predicate NamesMethod(w: seq<Octet>, v: nat) { v < 34 && w == MethodName(v) }

  predicate IsMethod(w: seq<Octet>) { exists v :: 0 <= v < 34 && NamesMethod(w, v) }

  lemma {:induction false} MethodAccepted(s: Settings, m: Machine, data: seq<Octet>, o: nat, p: Parser, log: seq<Event>,
                                          n: nat, v: nat)
    requires o + n < |data| && At(s, m, data, o, p, log) && AtRequest(p) && p.nread + n + 1 <= s.maxHeaderSize
    requires NamesMethod(data[o..o + n], v) && data[o + n] == ' '
    ensures At(s, m, data, o + n + 1, AfterMethod(p, v, n), log + [Note(MessageBegin)])
  {
    hide At, Fails, MethodName, Candidate, OtherMethod;
    LastCandidate(v);
    assert MethodName(v)[..n] == MethodName(v);
    MethodRead(s, m, data, o, p, log, v, n);
    MethodGoesOn(s, m, data, o + n, p, log + [Note(MessageBegin)], v, n);
  }

  /**
   * A word at the start of a request, and the space after it: the parser accepts it exactly if it is the name of a
   * method, and then that is the method that it reports.
   */
  lemma {:induction false} MethodExact(s: Settings, m: Machine, data: seq<Octet>, o: nat, p: Parser, log: seq<Event>,
                                       n: nat)
    requires o + n + 1 == |data| && At(s, m, data, o, p, log) && AtRequest(p) && 0 < n
    requires p.nread + n + 1 <= s.maxHeaderSize
    requires data[o] != CR && data[o] != LF && ' ' !in data[o..o + n] && data[o + n] == ' '
    ensures Fails(s, m, data) <==> !IsMethod(data[o..o + n])
    ensures var w := data[o..o + n];
            forall v :: NamesMethod(w, v) ==> At(s, m, data, |data|, AfterMethod(p, v, n), log + [Note(MessageBegin)])
  {
    hide At, Fails, MethodName, OtherMethod, AtRequest, AfterMethod, InMethod;
    var w := data[o..o + n];
    forall v | NamesMethod(w, v)
      ensures At(s, m, data, |data|, AfterMethod(p, v, n), log + [Note(MessageBegin)]) && !Fails(s, m, data)
    {
      MethodAccepted(s, m, data, o, p, log, n, v);
      AtIsNoFailure(s, m, data, AfterMethod(p, v, n), log + [Note(MessageBegin)]);
    }
    HeldName(s, m, data, o, p, log, n);
    if !Fails(s, m, data) {
      assert Held(s, m, data, o, p, log, n);
      var v :| Holds(s, m, data, o, p, log, v, n);
      HeldToTheEnd(s, m, data, o, p, log, n, v);
    }
  }

  lemma {:induction false} HeldToTheEnd(s: Settings, m: Machine, data: seq<Octet>, o: nat, p: Parser, log: seq<Event>,
                                        n: nat, v: nat)
    requires o + n < |data| && AtRequest(p) && 0 < n && p.nread + n + 1 <= s.maxHeaderSize && data[o + n] == ' '
    requires Holds(s, m, data, o, p, log, v, n)
    ensures Fails(s, m, data) || NamesMethod(data[o..o + n], v)
  {
    hide At, Fails, MethodName, OtherMethod;
    MethodGoesOn(s, m, data, o + n, p, log + [Note(MessageBegin)], v, n);
    if n == |MethodName(v)| { assert MethodName(v)[..n] == MethodName(v); }
  }

  lemma {:induction false} AtIsNoFailure(s: Settings, m: Machine, data: seq<Octet>, p: Parser, log: seq<Event>)
    requires At(s, m, data, |data|, p, log)
    ensures !Fails(s, m, data)
  {
    hide Run;
  }
}

/** Which tokens decode_array_index_from_pointer takes for array indices, against section 4 of RFC 6901. */
module JsonIndex {
  import opened JsonPointer
  import opened Options

  /** The token at the beginning of a pointer. */
  function Token(p: string): (t: string)
    ensures |t| <= |p|
  {
    if p != "" && p[0] != '/' then [p[0]] + Token(p[1..]) else ""
  }

  /** Every character counts by its distance from the digit zero. */
  predicate Counts(t: string) { forall i :: 0 <= i < |t| ==> t[i] >= '0' }

  function Number(t: string): nat
    requires Counts(t)
  {
    if t == "" then 0 else 10 * Number(t[..|t| - 1]) + (t[|t| - 1] as int - '0' as int)
  }

  /** Nothing, or a digit and then anything from the digit zero on, without a leading zero. */
  predicate Accepted(t: string) {
    t == "" || (t[0] <= '9' && Counts(t) && (t[0] == '0' ==> |t| == 1))
  }

  predicate AllDigits(t: string) { forall i :: 0 <= i < |t| ==> '0' <= t[i] <= '9' }

  lemma {:induction false} TokenSplits(p: string)
    ensures |Token(p)| <= |p| && p[..|Token(p)|] == Token(p) && p[|Token(p)|..] == SkipToken(p)
    ensures forall i :: 0 <= i < |Token(p)| ==> Token(p)[i] != '/'
  {
    if p != "" && p[0] != '/' {
      TokenSplits(p[1..]);
      assert p == [p[0]] + p[1..];
    }
  }

  /** A remainder may be taken at every digit or once at the end. */
  lemma {:induction false} WrapLater(n: nat, d: nat)
    ensures Wrap(10 * Wrap(n) + d) == Wrap(10 * n + d)
  {
    var q, r := n / SIZE_MAX_PLUS_1, Wrap(n);
    assert n == q * SIZE_MAX_PLUS_1 + r;
    assert 10 * n + d == (10 * r + d) + 10 * q * SIZE_MAX_PLUS_1;
    WrapTimes(10 * r + d, 10 * q);
  }

  lemma {:induction false} WrapTimes(n: nat, k: nat)
    ensures Wrap(n + k * SIZE_MAX_PLUS_1) == Wrap(n)
    decreases k
  {
    if k > 0 { WrapTimes(n, k - 1); }
  }

  /** What the loop makes of the token t, of which the first i characters are done. */
  lemma {:induction false} LoopReads(t: string, rest: string, i: nat)
    requires i <= |t| && Counts(t) && Tail(rest)
    ensures IndexLoop(t[i..] + rest, true, Wrap(Number(t[..i]))) == (Wrap(Number(t)), rest)
    decreases |t| - i
  {
    hide Wrap;
    if i == |t| {
      assert t[i..] + rest == rest && t[..i] == t;
    } else {
      var p := t[i..] + rest;
      assert p[1..] == t[i + 1..] + rest;
      assert t[..i + 1][..i] == t[..i];
      WrapLater(Number(t[..i]), t[i] as int - '0' as int);
      LoopReads(t, rest, i + 1);
    }
  }

  /** The loop stops at the first character below the digit zero. */
  lemma {:induction false} LoopStops(t: string, rest: string, index: nat)
    requires !Counts(t) && (forall i :: 0 <= i < |t| ==> t[i] != '/') && Tail(rest)
    ensures !Tail(IndexLoop(t + rest, true, index).1)
    decreases |t|
  {
    hide Wrap;
    if t[0] >= '0' {
      assert (t + rest)[1..] == t[1..] + rest;
      assert !Counts(t[1..]);
      LoopStops(t[1..], rest, Wrap(10 * index + (t[0] as int - '0' as int)));
    }
  }

  /**
   * An index is read exactly from a token that is empty or begins with a digit, goes on with characters that do not
   * come before the digit zero, and has no leading zero; it is the number that they make, modulo 2^64.
   */
  lemma {:induction false} IndexReadIff(p: string)
    ensures DecodeIndex(p) == if Accepted(Token(p)) then Some(Wrap(Number(Token(p)))) else None
  {
    hide Wrap, IndexLoop;
    TokenSplits(p);
    var t, rest := Token(p), SkipToken(p);
    assert p == t + rest;
    if t == "" || t[0] > '9' {
      NoLoop(p, p == "" || p[0] <= '9');
      if t == "" { NoNumber(); }
    } else if Counts(t) {
      assert t[0..] == t && t[..0] == "";
      NoNumber();
      LoopReads(t, rest, 0);
      assert Tail(rest);
    } else {
      LoopStops(t, rest, 0);
    }
  }

  lemma {:induction false} NoNumber()
    ensures Number("") == 0 && Wrap(0) == 0
  {
  }

  lemma {:induction false} NoLoop(p: string, firstBelow: bool)
    requires Token(p) == "" || !firstBelow
    ensures IndexLoop(p, firstBelow, 0) == (0, p)
  {
  }

  // ----- Section 4 of RFC 6901 -----

  lemma {:induction false} DigitsAreDecimal(t: string) returns (n: nat)
    requires t != "" && AllDigits(t) && (t[0] == '0' ==> |t| == 1)
    ensures Decimal(n) == t && Counts(t) && Number(t) == n && (n == 0 <==> t[0] == '0')
    decreases |t|
  {
    var k := |t| - 1;
    var d := t[k] as int - '0' as int;
    assert t == t[..k] + [t[k]] && DigitChar(d) == t[k];
    if k == 0 {
      n := d;
      assert t[..k] == "" && Number(t[..k]) == 0;
    } else {
      var m := DigitsAreDecimal(t[..k]);
      n := 10 * m + d;
    }
  }

  lemma {:induction false} DecimalIsDigits(n: nat)
    ensures AllDigits(Decimal(n)) && (Decimal(n)[0] == '0' ==> |Decimal(n)| == 1)
  {
    if n >= 10 { DecimalIsDigits(n / 10); DecimalHead(n / 10); }
  }

  /** On tokens of digits the source agrees with the RFC: an index is written in decimal, without leading zeros. */
  lemma {:induction false} DigitsReadIff(p: string)
    requires Token(p) != "" && AllDigits(Token(p))
    ensures DecodeIndex(p).Some? <==> exists n :: Token(p) == Decimal(n)
    ensures forall n :: Token(p) == Decimal(n) ==> DecodeIndex(p) == Some(Wrap(n))
  {
    hide Wrap, DecodeIndex, Decimal, Number;
    IndexReadIff(p);
    var t := Token(p);
    if Accepted(t) { var n := DigitsAreDecimal(t); }
    forall n | t == Decimal(n)
      ensures DecodeIndex(p) == Some(Wrap(n))
    {
      DecimalIsDigits(n);
      var m := DigitsAreDecimal(t);
      DecimalNumber(n);
    }
  }

  lemma {:induction false} DecimalNumber(n: nat)
    ensures Counts(Decimal(n)) && Number(Decimal(n)) == n
  {
    if n >= 10 {
      DecimalNumber(n / 10);
      var s := Decimal(n);
      assert s[..|s| - 1] == Decimal(n / 10);
    } else {
      assert Decimal(n)[..0] == "";
    }
  }

  lemma {:induction false} NumberLonger(t: string, c: char)
    requires Counts(t) && c >= '0'
    ensures Counts(t + [c]) && Number(t + [c]) == 10 * Number(t) + (c as int - '0' as int)
  {
    assert (t + [c])[..|t|] == t;
  }

  lemma {:induction false} PlainToken(c: char, t: string)
    requires c != '/' && Token(t) == t
    ensures Token([c] + t) == [c] + t
  {
    assert ([c] + t)[1..] == t;
  }

  /** Besides, it takes the empty token for zero, and letters after a digit for digits: this is taken for 59. */
  lemma {:induction false} LetterCounterexample()
    ensures DecodeIndex("1a") == Some(59) && DecodeIndex("") == Some(0)
  {
    hide DecodeIndex, Number, Token;
    assert Token("") == "" && Number("") == 0 && Wrap(0) == 0 by { NoToken(); }
    IndexReadIff("");
    assert "" + ['1'] == "1" && "1" + ['a'] == "1a" && ['a'] + "" == "a" && ['1'] + "a" == "1a";
    PlainToken('a', "");
    PlainToken('1', "a");
    NumberLonger("", '1');
    NumberLonger("1", 'a');
    IndexReadIff("1a");
  }

  lemma {:induction false} NoToken()
    ensures Token("") == "" && Number("") == 0
  {
  }
}

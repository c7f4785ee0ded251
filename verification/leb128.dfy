/** The variable-length numbers of DWARF: read_uleb128 and read_sleb128 on 64-bit words. */
module Leb128 {
  import opened Bits
  import opened Options

  // ----- What the bytes mean (DWARF version 5, section 7.6) -----

  /** The unsigned number that begins at `pos`, and where it ends; None if the data ends first. */
  function UnsignedAt(data: seq<Byte>, pos: nat): (r: Option<(nat, nat)>)
    ensures r.Some? ==> pos < r.value.1 <= |data|
    decreases |data| - pos
  {
    if pos >= |data| then None
    else if data[pos] < 128 then Some((data[pos] as nat, pos + 1))
    else
      var rest := UnsignedAt(data, pos + 1);
      if rest.None? then None else Some((data[pos] - 128 + 128 * rest.value.0, rest.value.1))
  }

  /** The signed number: bit 6 of the last byte is the sign. */
  function SignedAt(data: seq<Byte>, pos: nat): (r: Option<(int, nat)>)
    ensures r.Some? ==> pos < r.value.1 <= |data|
    decreases |data| - pos
  {
    if pos >= |data| then None
    else if data[pos] < 128 then Some((data[pos] as int - (if data[pos] < 64 then 0 else 128), pos + 1))
    else
      var rest := SignedAt(data, pos + 1);
      if rest.None? then None else Some((data[pos] - 128 + 128 * rest.value.0, rest.value.1))
  }

  function EncodeUnsigned(n: nat): seq<Byte> {
    if n < 128 then [n] else [128 + n % 128] + EncodeUnsigned(n / 128)
  }

  /** n / 128 rounds towards minus infinity. */
  function EncodeSigned(n: int): seq<Byte>
    decreases if n < 0 then -n else n
  {
    if -64 <= n < 64 then [if n < 0 then n + 128 else n] else [128 + n % 128] + EncodeSigned(n / 128)
  }

  predicate Here(data: seq<Byte>, pos: nat, t: seq<Byte>) { pos + |t| <= |data| && data[pos..pos + |t|] == t }

  lemma {:induction false} HereRest(data: seq<Byte>, pos: nat, b: Byte, t: seq<Byte>)
    requires Here(data, pos, [b] + t)
    ensures pos < |data| && data[pos] == b && Here(data, pos + 1, t)
  {
    assert data[pos..pos + 1 + |t|][0] == b;
    assert data[pos + 1..pos + 1 + |t|] == data[pos..pos + 1 + |t|][1..];
  }

  lemma {:induction false} UnsignedRoundTrip(data: seq<Byte>, pos: nat, n: nat)
    requires Here(data, pos, EncodeUnsigned(n))
    ensures UnsignedAt(data, pos) == Some((n, pos + |EncodeUnsigned(n)|))
    decreases n
  {
    if n < 128 {
      assert [n] == [n] + [];
      HereRest(data, pos, n, []);
    } else {
      HereRest(data, pos, 128 + n % 128, EncodeUnsigned(n / 128));
      UnsignedRoundTrip(data, pos + 1, n / 128);
    }
  }

  lemma {:induction false} SignedRoundTrip(data: seq<Byte>, pos: nat, n: int)
    requires Here(data, pos, EncodeSigned(n))
    ensures SignedAt(data, pos) == Some((n, pos + |EncodeSigned(n)|))
    decreases if n < 0 then -n else n
  {
    if -64 <= n < 64 {
      var b := if n < 0 then n + 128 else n;
      assert [b] == [b] + [];
      HereRest(data, pos, b, []);
    } else {
      HereRest(data, pos, 128 + n % 128, EncodeSigned(n / 128));
      SignedRoundTrip(data, pos + 1, n / 128);
    }
  }

  /** How many bytes a number takes: at most ten for 70 bits. */
  lemma {:induction false} EncodedLength(n: nat, k: nat)
    requires n < Pow2(7 * k) && k > 0
    ensures |EncodeUnsigned(n)| <= k
    decreases k
  {
    Pow2Seven(k - 1);
    if n >= 128 && k > 1 { EncodedLength(n / 128, k - 1); }
  }

  lemma {:induction false} Pow2Seven(k: nat)
    ensures Pow2(7 * (k + 1)) == 128 * Pow2(7 * k) && Pow2(0) == 1
  {
    var e := 7 * k;
    assert Pow2(e + 7) == 2 * Pow2(e + 6) == 4 * Pow2(e + 5) == 8 * Pow2(e + 4);
    assert Pow2(e + 4) == 2 * Pow2(e + 3) == 4 * Pow2(e + 2) == 8 * Pow2(e + 1) == 16 * Pow2(e);
  }

  // ----- Words -----

  /** Bits that are cut off. */
  lemma {:induction false} LowBelow(a: nat, x: nat, s: nat, n: nat)
    requires n <= s
    ensures Low(a + Shl(x, s), n) == Low(a, n)
  {
    if n > 0 {
      LowBelow(a / 2, x, s - 1, n - 1);
      HalfSum(a, Shl(x, s - 1));
    }
  }

  /** `ret |= (uint64_t) x << s` */
  function OrShifted(ret: nat, x: nat, s: nat): nat { Or(ret, Low(Shl(x, s), 64)) }

  /** Seven more bits of a number of which `sum` has been read: exactly those that a word can hold. */
  lemma {:induction false} SevenMore(sum: nat, x: nat, s: nat)
    requires sum < Pow2(s) && x < 128
    ensures s < 64 ==> OrShifted(Low(sum, 64), x, s) == Low(sum + Shl(x, s), 64)
    ensures s >= 64 ==> Low(sum, 64) == Low(sum + Shl(x, s), 64)
    ensures sum + Shl(x, s) < Pow2(s + 7)
  {
    hide Low, Or, Shl, Pow2;
    Pow2SevenIs();
    ShlBound(x, s, 7);
    if s < 64 {
      Pow2Mono(s, 64);
      LowSmall(sum, 64);
      LowAbove(sum, x, s, 64 - s);
      ShlZero(x, s);
      LowAbove(0, x, s, 64 - s);
      OrDisjoint(sum, Low(x, 64 - s), s);
    } else {
      LowBelow(sum, x, s, 64);
    }
  }

  lemma {:induction false} Pow2SevenIs()
    ensures Pow2(7) == 128
  {
    Pow2Seven(0);
  }

  lemma {:induction false} ShlZero(x: nat, s: nat)
    ensures 0 + Shl(x, s) == Shl(x, s) && Pow2(s) > 0
  {
  }

  lemma {:induction false} ShlRest(x: nat, v: nat, s: nat)
    ensures Shl(x + 128 * v, s) == Shl(x, s) + Shl(v, s + 7)
  {
    hide Shl;
    ShlPlus(x, 128 * v, s);
    ShlSeven(v, s);
  }

  lemma {:induction false} ShlSeven(v: nat, s: nat)
    ensures Shl(128 * v, s) == Shl(v, s + 7)
    decreases s
  {
    if s == 0 {
      assert Shl(v, 7) == 2 * Shl(v, 6) == 4 * Shl(v, 5) == 8 * Shl(v, 4);
      assert Shl(v, 4) == 2 * Shl(v, 3) == 4 * Shl(v, 2) == 8 * Shl(v, 1) == 16 * v;
    } else {
      ShlSeven(v, s - 1);
    }
  }

  // ----- The readers -----

  class DwarfBuf {
    const data: seq<Byte>
    var pos: nat
    var underflow: bool  // whether an underflow has been reported
    var overflow: bool   // whether a number that does not fit has been reported

    constructor (bytes: seq<Byte>)
      ensures data == bytes && pos == 0 && !underflow && !overflow
    {
      data := bytes;
      pos := 0;
      underflow := false;
      overflow := false;
    }

    /**
     * The loop that both readers have: the low 64 bits of the number, the shift that was reached and the last byte; an
     * overflow is reported when there are more than ten bytes.
     */
    method ReadGroups() returns (ok: bool, val: nat, shift: nat, b: Byte)
      requires pos <= |data|
      modifies this
      ensures var r := UnsignedAt(data, old(pos));
              if r.None? then !ok && underflow && pos == |data|
              else
                && ok && pos == r.value.1 && underflow == old(underflow) && val == Low(r.value.0, 64)
                && shift == 7 * (pos - old(pos)) && b == data[pos - 1] && r.value.0 < Pow2(shift)
                && (overflow <==> old(overflow) || pos - old(pos) > 10)
    {
      hide Low, Pow2, Shl, Or;
      val, shift, b := 0, 0, 0;
      ghost var sum: nat := 0;
      LowSmall(0, 64);
      Pow2Mono(0, 64);
      PowZero();
      assert Joined(UnsignedAt(data, pos), 0, 0, UnsignedAt(data, pos)) by { JoinedStart(UnsignedAt(data, pos)); }
      while true
        invariant old(pos) <= pos <= |data| && shift == 7 * (pos - old(pos)) && underflow == old(underflow)
        invariant sum < Pow2(shift) && val == Low(sum, 64)
        invariant Joined(UnsignedAt(data, old(pos)), sum, shift, UnsignedAt(data, pos))
        invariant overflow <==> old(overflow) || pos - old(pos) > 10
        decreases |data| - pos
      {
        if pos >= |data| {
          underflow := true;
          return false, 0, shift, b;
        }
        b := data[pos];
        ghost var x := b % 128;
        SevenMore(sum, x, shift);
        JoinedStep(UnsignedAt(data, old(pos)), sum, shift, data, pos);
        pos := pos + 1;
        if shift < 64 {
          val := OrShifted(val, b % 128, shift);
        } else {
          overflow := true;
        }
        sum := sum + Shl(x, shift);
        shift := shift + 7;
        if b < 128 {
          return true, val, shift, b;
        }
      }
    }

    /** read_uleb128 */
    method ReadUleb128() returns (ret: nat)
      requires pos <= |data|
      modifies this
      ensures var r := UnsignedAt(data, old(pos));
              if r.None? then ret == 0 && underflow
              else ret == Low(r.value.0, 64) && pos == r.value.1 && (overflow <==> old(overflow) || pos - old(pos) > 10)
      ensures forall n: nat :: n < Pow2(64) && Here(data, old(pos), EncodeUnsigned(n)) ==>
                ret == n && pos == old(pos) + |EncodeUnsigned(n)| && overflow == old(overflow) &&
                underflow == old(underflow)
    {
      hide Low, Pow2, Here, EncodeUnsigned, UnsignedAt;
      var ok, val, shift, b := ReadGroups();
      forall n: nat | n < Pow2(64) && Here(data, old(pos), EncodeUnsigned(n))
        ensures UnsignedAt(data, old(pos)) == Some((n, old(pos) + |EncodeUnsigned(n)|)) && |EncodeUnsigned(n)| <= 10
        ensures Low(n, 64) == n
      {
        UnsignedRoundTrip(data, old(pos), n);
        Pow2Mono(64, 70);
        EncodedLength(n, 10);
        LowSmall(n, 64);
      }
      ret := if ok then val else 0;
    }

    /** read_sleb128 */
    method ReadSleb128() returns (ret: int)
      requires pos <= |data|
      modifies this
      ensures var r := SignedAt(data, old(pos));
              if r.None? then ret == 0 && underflow
              else
                && pos == r.value.1 && (overflow <==> old(overflow) || pos - old(pos) > 10)
                && (InInt64(r.value.0) ==> ret == r.value.0)
    {
      hide Low, Pow2, Shl, Or, UnsignedAt, SignedAt;
      var ok, val, shift, b := ReadGroups();
      SignedIs(data, old(pos));
      if !ok { return 0; }
      var word := val;
      if b >= 64 && shift < 64 {
        word := OrShifted(val, Pow2(64) - 1, shift);  // (uint64_t) -1 << shift
      }
      ret := if word < Pow2(63) then word else word - Pow2(64);
      var s := SignedAt(data, old(pos)).value.0;
      if InInt64(s) { SignedWord(s, UnsignedAt(data, old(pos)).value.0, shift, b >= 64); }
    }
  }

  lemma {:induction false} PowZero()
    ensures Pow2(0) == 1
  {
  }

  /** The number that began before is the sum so far and the rest, shifted. */
  predicate Joined(whole: Option<(nat, nat)>, sum: nat, shift: nat, rest: Option<(nat, nat)>) {
    if rest.None? then whole.None? else whole == Some((sum + Shl(rest.value.0, shift), rest.value.1))
  }

  lemma {:induction false} JoinedStep(whole: Option<(nat, nat)>, sum: nat, shift: nat, data: seq<Byte>, pos: nat)
    requires pos < |data| && Joined(whole, sum, shift, UnsignedAt(data, pos))
    ensures var x := data[pos] % 128;
            if data[pos] < 128 then whole == Some((sum + Shl(x, shift), pos + 1))
            else Joined(whole, sum + Shl(x, shift), shift + 7, UnsignedAt(data, pos + 1))
  {
    hide Shl;
    var rest := UnsignedAt(data, pos + 1);
    if data[pos] >= 128 && rest.Some? { ShlRest(data[pos] % 128, rest.value.0, shift); }
  }

  /** The signed number differs from the unsigned one when the sign is set. */
  lemma {:induction false} SignedIs(data: seq<Byte>, pos: nat)
    ensures var u, s := UnsignedAt(data, pos), SignedAt(data, pos);
            && (u.Some? <==> s.Some?)
            && (u.Some? ==>
                  && u.value.1 == s.value.1
                  && s.value.0 == u.value.0 - (if data[u.value.1 - 1] >= 64 then Pow2(7 * (u.value.1 - pos)) else 0)
                  && u.value.0 < Pow2(7 * (u.value.1 - pos)))
    decreases |data| - pos
  {
    if pos < |data| {
      Pow2SevenIs();
      if data[pos] >= 128 {
        SignedIs(data, pos + 1);
        var u := UnsignedAt(data, pos + 1);
        if u.Some? { Pow2Seven(u.value.1 - (pos + 1)); }
      }
    }
  }

  lemma {:induction false} SignedWord(s: int, u: nat, shift: nat, negative: bool)
    requires s == u - (if negative then Pow2(shift) else 0) && u < Pow2(shift)
    requires InInt64(s)
    ensures var val := Low(u, 64);
            var word := if negative && shift < 64 then OrShifted(val, Pow2(64) - 1, shift) else val;
            s == if word < Pow2(63) then word else word - Pow2(64)
  {
    hide Low, Or, Shl, Pow2;
    Pow2Mono(63, 64);
    HalfWord();
    if !negative {
      LowSmall(u, 64);
    } else if shift < 64 {
      Pow2Mono(shift, 64);
      LowSmall(u, 64);
      ShlZero(Pow2(64) - 1, shift);
      LowAbove(0, Pow2(64) - 1, shift, 64 - shift);
      LowOnes(64, 64 - shift);
      ShlOnes(64 - shift, shift);
      OrDisjoint(u, Pow2(64 - shift) - 1, shift);
    } else {
      var a: nat := s + Pow2(64);
      Pow2Mono(64, shift);
      ShlOnes(shift - 64, 64);
      LowBelow(a, Pow2(shift - 64) - 1, 64, 64);
      LowSmall(a, 64);
    }
  }

  /** A value of int64_t. */
  predicate InInt64(s: int) { 0 <= s + Pow2(63) && s < Pow2(63) }

  lemma {:induction false} HalfWord()
    ensures Pow2(64) == 2 * Pow2(63)
  {
  }

  lemma {:induction false} LowOnes(n: nat, k: nat)
    requires k <= n
    ensures Low(Pow2(n) - 1, k) == Pow2(k) - 1
  {
    if k > 0 {
      LowOnes(n - 1, k - 1);
      var x := Pow2(n) - 1;
      assert x % 2 == 1 && x / 2 == Pow2(n - 1) - 1;
    }
  }

  lemma {:induction false} ShlOnes(k: nat, n: nat)
    ensures Shl(Pow2(k) - 1, n) == Pow2(n + k) - Pow2(n)
  {
    if n > 0 { ShlOnes(k, n - 1); }
  }

  lemma {:induction false} JoinedStart(whole: Option<(nat, nat)>)
    ensures Joined(whole, 0, 0, whole)
  {
  }
}

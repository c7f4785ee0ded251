/** Strings of bits in memory: numbers are written from their least significant bit, codes from their most significant
    (section 3.1.1 of RFC 1951). */
module BitStrings {
  import opened Bits

  /** The bits from position p on are these. */
  predicate BitsAre(mem: seq<Byte>, p: nat, bits: seq<nat>) {
    p + |bits| <= 8 * |mem| && forall k :: 0 <= k < |bits| ==> BitAt(mem, p + k) == bits[k]
  }

  /** The n bits of a number, the least significant first. */
  function NumberBits(v: nat, n: nat): (r: seq<nat>)
    ensures |r| == n
  {
    if n == 0 then [] else [v % 2] + NumberBits(v / 2, n - 1)
  }

  /** The n bits of a code, the most significant first. */
  function CodeBits(c: nat, n: nat): (r: seq<nat>)
    ensures |r| == n
  {
    if n == 0 then [] else CodeBits(c / 2, n - 1) + [c % 2]
  }

  lemma {:induction false} Split(mem: seq<Byte>, p: nat, a: seq<nat>, b: seq<nat>)
    requires BitsAre(mem, p, a + b)
    ensures BitsAre(mem, p, a) && BitsAre(mem, p + |a|, b)
  {
    hide BitAt;
    forall k | 0 <= k < |a|
      ensures BitAt(mem, p + k) == a[k]
    {
      assert BitAt(mem, p + k) == (a + b)[k];
    }
    forall k | 0 <= k < |b|
      ensures BitAt(mem, p + |a| + k) == b[k]
    {
      assert BitAt(mem, p + (|a| + k)) == (a + b)[|a| + k];
    }
  }

  lemma {:induction false} Join(mem: seq<Byte>, p: nat, a: seq<nat>, b: seq<nat>)
    requires BitsAre(mem, p, a) && BitsAre(mem, p + |a|, b)
    ensures BitsAre(mem, p, a + b)
  {
    hide BitAt;
    forall k | 0 <= k < |a| + |b|
      ensures BitAt(mem, p + k) == (a + b)[k]
    {
      if k >= |a| { assert BitAt(mem, p + |a| + (k - |a|)) == b[k - |a|]; }
    }
  }

  lemma {:induction false} NumberIsRead(mem: seq<Byte>, p: nat, v: nat, n: nat)
    requires BitsAre(mem, p, NumberBits(v, n)) && v < Pow2(n)
    ensures p + n <= 8 * |mem| && Read(mem, p, n) == v
    decreases n
  {
    hide BitAt;
    if n > 0 {
      var rest := NumberBits(v / 2, n - 1);
      Split(mem, p, [v % 2], rest);
      assert BitAt(mem, p + 0) == [v % 2][0];
      NumberIsRead(mem, p + 1, v / 2, n - 1);
    }
  }

  lemma {:induction false} CodeIsRead(mem: seq<Byte>, p: nat, c: nat, n: nat)
    requires BitsAre(mem, p, CodeBits(c, n)) && c < Pow2(n)
    ensures p + n <= 8 * |mem| && ReadMsb(mem, p, n) == c
    decreases n
  {
    hide BitAt;
    if n > 0 {
      var front := CodeBits(c / 2, n - 1);
      Split(mem, p, front, [c % 2]);
      assert BitAt(mem, p + (n - 1) + 0) == [c % 2][0];
      CodeIsRead(mem, p, c / 2, n - 1);
    }
  }

  /** Whole bytes, each from its least significant bit. */
  function ByteBits(bytes: seq<Byte>): (r: seq<nat>)
    ensures |r| == 8 * |bytes|
  {
    if bytes == [] then [] else NumberBits(bytes[0], 8) + ByteBits(bytes[1..])
  }

  lemma {:induction false} BytesAreRead(mem: seq<Byte>, i: nat, bytes: seq<Byte>)
    requires BitsAre(mem, 8 * i, ByteBits(bytes))
    ensures i + |bytes| <= |mem| && mem[i..i + |bytes|] == bytes
    decreases |bytes|
  {
    hide BitsAre, Read, NumberBits;
    if bytes == [] {
      NothingThere(mem, i);
    } else {
      Split(mem, 8 * i, NumberBits(bytes[0], 8), ByteBits(bytes[1..]));
      BytesAreRead(mem, i + 1, bytes[1..]);
      assert Pow2(8) == 256 by { EightBits(); }
      NumberIsRead(mem, 8 * i, bytes[0], 8);
      ReadByte(mem, i);
      FirstOfSlice(mem, i, |bytes|);
      assert bytes == [bytes[0]] + bytes[1..];
    }
  }

  lemma {:induction false} FirstOfSlice(mem: seq<Byte>, i: nat, n: nat)
    requires 0 < n && i + n <= |mem|
    ensures mem[i..i + n] == [mem[i]] + mem[i + 1..i + n]
  {
  }

  lemma {:induction false} NothingThere(mem: seq<Byte>, i: nat)
    requires BitsAre(mem, 8 * i, ByteBits([]))
    ensures i <= |mem|
  {
  }

  lemma {:induction false} EightBits()
    ensures Pow2(8) == 256
  {
    assert Pow2(6) == 64;
  }
}

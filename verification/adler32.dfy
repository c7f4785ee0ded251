/** The checksum test of elf_zlib_verify_checksum against Adler-32 (RFC 1950, section 2.2). */
module Adler32 {
  import opened Bits
  import opened Deflate
  import opened InflateFits
  import opened Inflate

  const BASE: nat := 65521

  /** The two sums over the first n bytes, reduced after every byte. */
  function Sums(data: seq<Byte>, n: nat): (nat, nat)
    requires n <= |data|
  {
    if n == 0 then (1, 0)
    else
      var (a, b) := Sums(data, n - 1);
      var a' := (a + data[n - 1]) % BASE;
      (a', (b + a') % BASE)
  }

  function Checksum(data: seq<Byte>): nat {
    var (a, b) := Sums(data, |data|);
    0x1_0000 * b + a
  }

  /** The number of bytes between reductions. */
  const RUN: nat := 5552

  /** Addition of 32-bit unsigned values. */
  function Add32(x: nat, y: nat): nat { (x + y) % 0x1_0000_0000 }

  /** 1 + 2 + ... + n */
  function Triangle(n: nat): nat { if n == 0 then 0 else Triangle(n - 1) + n }

  lemma {:induction false} TriangleMono(m: nat, n: nat)
    requires m <= n
    ensures Triangle(m) <= Triangle(n)
  {
    if m < n { TriangleMono(m, n - 1); }
  }

  lemma {:induction false} TriangleClosed(n: nat)
    ensures 2 * Triangle(n) == n * (n + 1)
  {
    if n > 0 { TriangleClosed(n - 1); }
  }

  /** s1 and s2 are unreduced sums over the first p bytes, the last `run` of them since a reduction. */
  ghost predicate Unreduced(data: seq<Byte>, p: nat, run: nat, s1: nat, s2: nat) {
    && p <= |data|
    && s1 % BASE == Sums(data, p).0 && s2 % BASE == Sums(data, p).1
    && s1 <= 65520 + 255 * run
    && s2 <= 65520 + 65520 * run + 255 * Triangle(run)
  }

  lemma {:induction false} UnreducedStep(data: seq<Byte>, p: nat, run: nat, s1: nat, s2: nat)
    requires Unreduced(data, p, run, s1, s2) && p < |data| && run < RUN
    ensures var t1 := Add32(s1, data[p]); Unreduced(data, p + 1, run + 1, t1, Add32(s2, t1))
  {
    hide Sums, Triangle;
    TriangleBound(run);
    NoOverflow(run, Triangle(run), s1, s2, data[p]);
    SumsStep(data, p, s1, s2);
  }

  /** The bounds of Unreduced survive one more byte, and keep both sums below 2^32. */
  lemma {:induction false} NoOverflow(run: nat, t: nat, s1: nat, s2: nat, x: nat)
    requires run < RUN && t + run + 1 <= 15415128 && x < 0x100
    requires s1 <= 65520 + 255 * run && s2 <= 65520 + 65520 * run + 255 * t
    ensures Add32(s1, x) == s1 + x <= 65520 + 255 * (run + 1)
    ensures Add32(s2, s1 + x) == s2 + (s1 + x) <= 65520 + 65520 * (run + 1) + 255 * (t + run + 1)
  {
  }

  /** Postponing the remainders does not change them. */
  lemma {:induction false} SumsStep(data: seq<Byte>, p: nat, s1: nat, s2: nat)
    requires p < |data| && s1 % BASE == Sums(data, p).0 && s2 % BASE == Sums(data, p).1
    ensures var t1: nat := s1 + data[p];
            t1 % BASE == Sums(data, p + 1).0 && (s2 + t1) % BASE == Sums(data, p + 1).1
  {
    var (a, b) := Sums(data, p);
    var x: nat := data[p];
    var t1 := s1 + x;
    assert t1 % BASE == (a + x) % BASE by { ModPlus(s1, x); }
    assert (s2 + t1) % BASE == (b + t1) % BASE by { ModPlus(s2, t1); }
    assert (t1 + b) % BASE == (t1 % BASE + b) % BASE by { ModPlus(t1, b); }
  }

  lemma {:induction false} ModPlus(x: nat, y: nat)
    ensures (x + y) % BASE == (x % BASE + y) % BASE
  {
  }

  lemma {:induction false} TriangleBound(n: nat)
    requires n < RUN
    ensures Triangle(n + 1) == Triangle(n) + n + 1 <= 15415128
  {
    TriangleMono(n + 1, RUN);
    TriangleClosed(RUN);
  }

  lemma {:induction false} UnreducedStart(data: seq<Byte>)
    ensures Unreduced(data, 0, 0, 1, 0)
  {
  }

  lemma {:induction false} UnreducedEnd(data: seq<Byte>, p: nat, run: nat, s1: nat, s2: nat)
    requires Unreduced(data, p, run, s1, s2)
    ensures Unreduced(data, p, 0, s1 % BASE, s2 % BASE)
  {
  }

  /** One group of sixteen bytes. */
  method AddSixteen(data: seq<Byte>, p0: nat, ghost run: nat, s10: nat, s20: nat) returns (p: nat, s1: nat, s2: nat)
    requires Unreduced(data, p0, run, s10, s20) && p0 + 16 <= |data| && run + 16 <= RUN
    ensures p == p0 + 16 && Unreduced(data, p, run + 16, s1, s2)
  {
    p, s1, s2 := p0, s10, s20;
    for k := 0 to 16
      invariant p == p0 + k && Unreduced(data, p, run + k, s1, s2)
    {
      UnreducedStep(data, p, run + k, s1, s2);
      s1 := Add32(s1, data[p]);
      s2 := Add32(s2, s1);
      p := p + 1;
    }
  }

  /** As many groups of sixteen bytes as 32-bit sums allow without a reduction. */
  method AddRun(data: seq<Byte>, p0: nat, s10: nat, s20: nat) returns (p: nat, s1: nat, s2: nat)
    requires Unreduced(data, p0, 0, s10, s20) && p0 + RUN <= |data|
    ensures p == p0 + RUN && Unreduced(data, p, RUN, s1, s2)
  {
    p, s1, s2 := p0, s10, s20;
    var i := 0;
    while i < RUN
      invariant 0 <= i <= RUN && i % 16 == 0 && p == p0 + i
      invariant Unreduced(data, p, i, s1, s2)
    {
      p, s1, s2 := AddSixteen(data, p, i, s1, s2);
      i := i + 16;
    }
  }

  /** The two sums over data, with the remainders postponed. */
  method Compute(data: seq<Byte>) returns (s1: nat, s2: nat)
    ensures (s1, s2) == Sums(data, |data|)
  {
    hide Triangle, Sums;
    s1, s2 := 1, 0;
    var p: nat := 0;
    var hsz: nat := |data|;
    UnreducedStart(data);
    while hsz >= RUN
      invariant p + hsz == |data| && Unreduced(data, p, 0, s1, s2)
    {
      p, s1, s2 := AddRun(data, p, s1, s2);
      hsz := hsz - RUN;
      UnreducedEnd(data, p, RUN, s1, s2);
      s1 := s1 % BASE;
      s2 := s2 % BASE;
    }
    ghost var run := 0;
    while hsz >= 16
      invariant p + hsz == |data| && run + hsz < RUN && Unreduced(data, p, run, s1, s2)
    {
      p, s1, s2 := AddSixteen(data, p, run, s1, s2);
      hsz := hsz - 16;
      run := run + 16;
    }
    while hsz > 0
      invariant p + hsz == |data| && run + hsz < RUN && Unreduced(data, p, run, s1, s2)
    {
      UnreducedStep(data, p, run, s1, s2);
      s1 := Add32(s1, data[p]);
      s2 := Add32(s2, s1);
      p, hsz, run := p + 1, hsz - 1, run + 1;
    }
    s1 := s1 % BASE;
    s2 := s2 % BASE;
  }

  /** elf_zlib_verify_checksum: does the checksum of data equal the four big-endian bytes? */
  method VerifyChecksum(checkbytes: seq<Byte>, data: seq<Byte>) returns (ok: bool)
    requires |checkbytes| == 4
    ensures ok <==> Checksum(data) == BigEndian(checkbytes)
  {
    var cksum := 0;
    for i := 0 to 4
      invariant cksum == BigEndian(checkbytes[..i])
    {
      assert checkbytes[..i + 1][..i] == checkbytes[..i];
      cksum := 256 * cksum + checkbytes[i] as nat;
    }
    assert checkbytes[..4] == checkbytes;
    var s1, s2 := Compute(data);
    ok := Add32(0x1_0000 * s2, s1) == cksum;
  }

  function BigEndian(bytes: seq<Byte>): nat {
    if bytes == [] then 0 else 256 * BigEndian(bytes[..|bytes| - 1]) + bytes[|bytes| - 1]
  }

  /**
   * elf_zlib_inflate_and_verify. It succeeds only with the checksum of the output at the end of the input, and on a
   * zlib stream exactly with the output of the reference decoder, within the limits of the inflater, and its checksum.
   */
  method InflateAndVerify(mem: seq<Byte>, start: nat, sin: nat, out: array<Byte>) returns (ok: bool)
    requires sin >= 4 && start + sin + 3 <= |mem|
    modifies out
    ensures ok ==> Checksum(out[..]) == BigEndian(mem[start + sin - 4..start + sin])
    ensures var r := Zlib(mem, start, start + sin, DropsAByte);
            r.Some? ==>
              && (ok <==> && out.Length == |r.value| && StreamFits(mem, start, start + sin, out.Length)
                          && Checksum(r.value) == BigEndian(mem[start + sin - 4..start + sin]))
              && (ok ==> out[..] == r.value)
    ensures ZlibOffBoundary(mem, start, start + sin) ==>
              Zlib(mem, start, start + sin, DropsAByte) == Zlib(mem, start, start + sin, Standard)
  {
    hide ZlibOffBoundary, Zlib, Checksum, BigEndian, StreamFits;
    ok := Inflate.Inflate(mem, start, sin, out);
    if ok {
      ok := VerifyChecksum(mem[start + sin - 4..start + sin], out[..]);
    }
  }
}

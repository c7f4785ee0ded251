/** elf_zlib_inflate: the bit buffer, the match copier and the inflation loops. */
module Inflate {
  import opened Bits
  import opened CanonicalCode
  import opened Deflate
  import opened InflateFits
  import opened FixedTables
  import opened HuffmanRoom
  import opened HuffmanComplete
  import opened HuffmanBuild
  import opened HuffmanTable
  import opened Options

  /** The input cursor: val holds the next `bits` bits of the stream and pin the byte after them.
      Positions index an aligned memory, so that a pointer is aligned when its index is. */
  class Input {
    const mem: seq<Byte>
    const end: nat
    var pin: nat
    var val: nat
    var bits: nat

    /** The alignment loops may read up to three bytes past the end of the input. */
    ghost predicate Valid()
      reads this
    {
      && end + 3 <= |mem| && pin <= end + 3
      && bits <= 46 && bits <= 8 * pin
      && val == Read(mem, 8 * pin - bits, bits)
    }

    /** The pointer is aligned, and what has been buffered beyond a refill lies before the end. */
    ghost predicate Aligned()
      reads this
    {
      Valid() && pin % 4 == 0 && (bits >= 32 ==> pin <= end)
    }

    /** The position of the next unread bit. */
    ghost function Pos(): nat
      reads this
      requires bits <= 8 * pin
    {
      8 * pin - bits
    }

    constructor (mem: seq<Byte>, start: nat, end: nat)
      requires start <= end && end + 3 <= |mem|
      ensures Valid() && this.mem == mem && this.end == end && pin == start && Pos() == 8 * start
    {
      this.mem, this.end, pin, val, bits := mem, end, start, 0, 0;
    }

    /** elf_zlib_fetch: make at least 15 bits available, if four more bytes are left. */
    method Fetch() returns (ok: bool)
      requires Valid()
      modifies this
      ensures Valid() && Pos() == old(Pos()) && pin >= old(pin)
      ensures ok <==> bits >= 15
      ensures ok <==> old(bits) >= 15 || old(pin) + 4 <= end
      ensures old(Aligned()) ==> Aligned() && (ok <==> RefillsAt(end, Pos()))
    {
      hide Read, Or, Shl, LittleEndian, RefillsAt;
      if Aligned() { AlignedRefill(pin, bits, end); }
      if bits >= 15 {
        return true;
      }
      if end < pin + 4 {
        return false;
      }
      var next := LittleEndian(mem, pin, 4);
      Refill(mem, pin, bits, 4);
      val := Or(val, Shl(next, bits));
      bits := bits + 32;
      pin := pin + 4;
      return true;
    }

    /** `val & ((1 << n) - 1)`, then `val >>= n` and `bits -= n`. */
    method Take(n: nat) returns (v: nat)
      requires Valid() && n <= bits
      modifies this
      ensures Valid() && Pos() == old(Pos()) + n && pin == old(pin) && bits == old(bits) - n
      ensures v == Read(mem, old(Pos()), n)
      ensures old(Aligned()) ==> Aligned()
    {
      hide Read, And, Low, Shr, Pow2;
      AndMask(val, n);
      ReadSplit(mem, 8 * pin - bits, n, bits);
      v := And(val, Pow2(n) - 1);
      val := Shr(val, n);
      bits := bits - n;
    }

    /** Drop all buffered bits and continue at a byte. */
    method Restart(pin: nat)
      requires end + 3 <= |mem| && pin <= end + 3
      modifies this
      ensures Valid() && Pos() == 8 * pin && this.pin == pin && bits == 0
    {
      this.pin, val, bits := pin, 0, 0;
    }

    /** Buffer single bytes until pin is a multiple of four. */
    method Align()
      requires Valid() && bits == 0 && pin <= end
      modifies this
      ensures Aligned() && Pos() == old(Pos())
    {
      hide Read, Or, Shl, LittleEndian;
      ghost var aligned := (pin + 3) / 4 * 4;
      while pin % 4 != 0
        invariant Valid() && Pos() == old(Pos())
        invariant old(pin) <= pin <= aligned && bits == 8 * (pin - old(pin))
        decreases aligned - pin
      {
        ByteIsLittleEndian(mem, pin);
        Refill(mem, pin, bits, 1);
        val := Or(val, Shl(mem[pin], bits));
        bits := bits + 8;
        pin := pin + 1;
      }
    }

    /** Decode one symbol with a table. */
    method Decode(table: seq<nat>, ghost lens: seq<nat>, ghost lim: nat) returns (s: nat)
      requires Valid() && bits >= 15 && InBounds(table) && lim <= |mem|
      modifies this
      ensures Valid() && old(Pos()) < Pos() && pin == old(pin) && s <= 0x1ff
      ensures old(bits) <= bits + Lookup(table, old(val)).1
      ensures old(Aligned()) ==> Aligned()
      ensures Serves(table, lens) && Symbol(lens, mem, lim, old(Pos())).Some? ==>
                s == Symbol(lens, mem, lim, old(Pos())).value && Pos() == old(Pos()) + lens[s]
    {
      hide Read, Lookup, Symbol, Serves;
      var (sym, used) := Lookup(table, val);
      if Serves(table, lens) && Symbol(lens, mem, lim, Pos()).Some? {
        LookupIsSymbol(table, lens, mem, Pos(), Symbol(lens, mem, lim, Pos()).value, bits);
      }
      s := sym;
      var _ := Take(used);
    }
  }

  lemma {:induction false} AlignedRefill(pin: nat, bits: nat, end: nat)
    requires pin % 4 == 0 && bits <= 46 && bits <= 8 * pin && (bits >= 32 ==> pin <= end)
    ensures RefillsAt(end, 8 * pin - bits) <==> bits >= 15 || pin + 4 <= end
  {
    var k := pin / 4;
    assert (32 * k - bits + 31) / 32 == if bits < 32 then k else k - 1;
  }

  /** Refill the buffer and decode one symbol of a code that needs no secondary table. */
  method DecodePrimary(input: Input, table: seq<nat>, ghost lens: seq<nat>, ghost lim: nat) returns (ok: bool, s: nat)
    requires input.Aligned() && InBounds(table) && lim <= |input.mem|
    modifies input
    ensures input.Aligned() && old(input.Pos()) <= input.Pos() && (ok ==> input.bits >= 7)
    ensures var r := Symbol(lens, input.mem, lim, old(input.Pos()));
            Serves(table, lens) && r.Some? ==>
              && (ok ==> s == r.value && input.Pos() == old(input.Pos()) + lens[s])
              && (RefillsAt(input.end, old(input.Pos())) && lens[r.value] <= 7 ==> ok)
  {
    hide Read, Symbol, Serves, RefillsAt;
    ok := input.Fetch();
    if !ok {
      return false, 0;
    }
    if Serves(table, lens) && Symbol(lens, input.mem, lim, input.Pos()).Some? {
      LookupIsSymbol(table, lens, input.mem, input.Pos(), Symbol(lens, input.mem, lim, input.Pos()).value, input.bits);
    }
    Low8(input.val);
    if IsPointer(table[Low(input.val, 8)]) {
      return false, 0;
    }
    assert Lookup(table, input.val).1 <= 8;
    s := input.Decode(table, lens, lim);
    ok := true;
  }

  /** The table decodes this prefix code. */
  ghost predicate Serves(table: seq<nat>, lens: seq<nat>) {
    InBounds(table) && Kraft(lens) && Decodes(table, lens)
  }

  /** Putting n whole bytes above the buffered bits. */
  lemma {:induction false} Refill(mem: seq<Byte>, pin: nat, bits: nat, n: nat)
    requires bits <= 8 * pin && pin + n <= |mem|
    ensures Or(Read(mem, 8 * pin - bits, bits), Shl(LittleEndian(mem, pin, n), bits))
            == Read(mem, 8 * pin - bits, bits + 8 * n)
  {
    ReadBytes(mem, pin, n);
    ReadAppend(mem, 8 * pin - bits, bits, 8 * n);
    OrDisjoint(Read(mem, 8 * pin - bits, bits), LittleEndian(mem, pin, n), bits);
  }

  lemma {:induction false} ByteIsLittleEndian(mem: seq<Byte>, i: nat)
    requires i < |mem|
    ensures LittleEndian(mem, i, 1) == mem[i]
  {
    assert LittleEndian(mem, i + 1, 0) == 0;
  }

  /** A buffer of at least 15 bits that begins with the code of s makes the table find s. */
  lemma {:induction false} LookupIsSymbol(table: seq<nat>, lens: seq<nat>, mem: seq<Byte>, p: nat, s: nat, bits: nat)
    requires Serves(table, lens) && CodeAt(lens, mem, p, s) && 15 <= bits && p + bits <= 8 * |mem|
    ensures Lookup(table, Read(mem, p, bits)) == (s, lens[s])
  {
    ReadSplit(mem, p, lens[s], bits);
    ReadIsReversedMsb(mem, p, lens[s]);
  }

  // ----- Copying a back reference -----

  lemma {:induction false} LzCopyFirst(out: seq<Byte>, dist: nat, n: nat)
    requires 1 <= dist <= |out|
    ensures LzCopy(out, dist, n) == if n == 0 then out else LzCopy(out + [out[|out| - dist]], dist, n - 1)
  {
  }

  lemma {:induction false} LzCopyTwice(out: seq<Byte>, dist: nat, a: nat, b: nat)
    requires 1 <= dist <= |out|
    ensures LzCopy(out, dist, a + b) == LzCopy(LzCopy(out, dist, a), dist, b)
    decreases a
  {
    hide LzCopy;
    LzCopyFirst(out, dist, a);
    LzCopyFirst(out, dist, a + b);
    if a > 0 { LzCopyTwice(out + [out[|out| - dist]], dist, a - 1, b); }
  }

  /** A copy no longer than its distance does not read what it writes. */
  lemma {:induction false} LzCopyBlock(out: seq<Byte>, dist: nat, n: nat)
    requires 1 <= dist <= |out| && n <= dist
    ensures LzCopy(out, dist, n) == out + out[|out| - dist..|out| - dist + n]
  {
    if n > 0 {
      LzCopyBlock(out, dist, n - 1);
      LzCopyTwice(out, dist, n - 1, 1);
      var o := LzCopy(out, dist, n - 1);
      assert LzCopy(o, dist, 1) == LzCopy(o + [o[|o| - dist]], dist, 0);
    }
  }

  /** A copy at distance one repeats the last byte. */
  lemma {:induction false} LzCopyRun(out: seq<Byte>, n: nat)
    requires |out| >= 1
    ensures LzCopy(out, 1, n) == out + seq(n, _ => out[|out| - 1])
    decreases n
  {
    if n > 0 {
      var b := out[|out| - 1];
      LzCopyRun(out + [b], n - 1);
      assert [b] + seq(n - 1, _ => b) == seq(n, _ => b);
      assert out + [b] + seq(n - 1, _ => b) == out + ([b] + seq(n - 1, _ => b));
    } else {
      assert out + [] == out;
    }
  }

  /** memcpy inside the output buffer; the two areas must not overlap. */
  method MemCopy(out: array<Byte>, dst: nat, src: nat, n: nat)
    requires src + n <= dst && dst + n <= out.Length
    modifies out
    ensures out[..dst] == old(out[..dst])
    ensures out[..dst + n][dst..] == old(out[..dst])[src..src + n]
  {
    forall k | 0 <= k < n {
      out[dst + k] := out[src + k];
    }
  }

  /** memset inside the output buffer. */
  method MemSet(out: array<Byte>, dst: nat, b: Byte, n: nat)
    requires dst + n <= out.Length
    modifies out
    ensures out[..dst] == old(out[..dst]) && out[dst..dst + n] == seq(n, _ => b)
  {
    forall k | 0 <= k < n {
      out[dst + k] := b;
    }
  }

  /** Copy len bytes from dist bytes back: by memset, one memcpy, or memcpy in chunks of dist bytes. */
  method CopyMatch(out: array<Byte>, pout0: nat, dist: nat, len0: nat) returns (ok: bool, pout: nat)
    requires pout0 <= out.Length && 1 <= dist
    modifies out
    ensures pout <= out.Length
    ensures ok ==> dist <= pout0 && out[..pout] == LzCopy(old(out[..pout0]), dist, len0)
    ensures ok <==> MatchFits(pout0, dist, len0, out.Length)
  {
    hide LzCopy;
    pout := pout0;
    ghost var before := out[..pout0];
    if dist == 1 {
      if pout == 0 || Unsigned(out.Length - pout) < len0 {
        return false, pout;
      }
      MemSet(out, pout, out[pout - 1], len0);
      pout := pout + len0;
      LzCopyRun(before, len0);
      assert out[..pout] == before + out[pout0..pout];
      return true, pout;
    }
    if Unsigned(pout) < dist || Unsigned(out.Length - pout) < len0 {
      return false, pout;
    }
    if dist >= len0 {
      MemCopy(out, pout, pout - dist, len0);
      LzCopyBlock(before, dist, len0);
      Glue(before, out[..pout + len0], dist, len0);
      pout := pout + len0;
    } else {
      pout := CopyChunks(out, pout, dist, len0);
    }
    return true, pout;
  }

  method CopyChunks(out: array<Byte>, pout0: nat, dist: nat, len0: nat) returns (pout: nat)
    requires 1 <= dist <= pout0 && pout0 + len0 <= out.Length
    modifies out
    ensures pout == pout0 + len0 && out[..pout] == LzCopy(old(out[..pout0]), dist, len0)
  {
    hide LzCopy;
    pout := pout0;
    var len := len0;
    ghost var first := out[..pout0];
    ChunkStart(first, dist);
    while len > 0
      invariant 0 <= len <= len0 && pout == pout0 + len0 - len
      invariant out[..pout] == LzCopy(first, dist, len0 - len)
    {
      var copy := if len < dist then len else dist;
      ghost var before := out[..pout];
      MemCopy(out, pout, pout - dist, copy);
      ChunkStep(first, dist, len0 - len, copy, before, out[..pout + copy]);
      len := len - copy;
      pout := pout + copy;
    }
  }

  /** A prefix and a copy of an earlier stretch make up the extended output. */
  lemma {:induction false} Glue(before: seq<Byte>, after: seq<Byte>, dist: nat, n: nat)
    requires n <= dist <= |before| && |after| == |before| + n
    requires after[..|before|] == before && after[|before|..] == before[|before| - dist..|before| - dist + n]
    ensures after == before + before[|before| - dist..|before| - dist + n]
  {
    assert after == after[..|before|] + after[|before|..];
  }

  lemma {:induction false} ChunkStart(out: seq<Byte>, dist: nat)
    requires 1 <= dist <= |out|
    ensures LzCopy(out, dist, 0) == out
  {
  }

  /** The output with one more chunk is the copy with as many bytes more. */
  lemma {:induction false} ChunkStep(out: seq<Byte>, dist: nat, done: nat, n: nat, before: seq<Byte>, after: seq<Byte>)
    requires 1 <= dist <= |out| && n <= dist && before == LzCopy(out, dist, done) && |after| == |before| + n
    requires after[..|before|] == before && after[|before|..] == before[|before| - dist..|before| - dist + n]
    ensures after == LzCopy(out, dist, done + n)
  {
    hide LzCopy;
    LzCopyBlock(before, dist, n);
    LzCopyTwice(out, dist, done, n);
    Glue(before, after, dist, n);
  }

  /** What a back reference writes: each byte repeats the one dist before it, older output is kept. */
  lemma {:induction false} LzCopyAt(out: seq<Byte>, dist: nat, len: nat, k: nat)
    requires 1 <= dist <= |out| && k < len
    ensures var r := LzCopy(out, dist, len);
            r[..|out|] == out && r[|out| + k] == r[|out| + k - dist]
    decreases len
  {
    if k > 0 {
      LzCopyAt(out + [out[|out| - dist]], dist, len - 1, k - 1);
    } else {
      var o := out + [out[|out| - dist]];
      var r := LzCopy(o, dist, len - 1);
      assert r[..|o|] == o;
      assert r[|out|] == r[..|o|][|out|];
    }
  }

  // ----- Lengths and distances -----

  /** The source's arithmetic for the length table of RFC 1951, section 3.2.5. */
  function LengthExtraBits(lit: nat): nat
    requires lit >= 265
  {
    Shr(lit - 265, 2) + 1
  }

  function LengthBase(lit: nat): nat
    requires lit >= 265
  {
    Shl(And(lit - 265, 3), LengthExtraBits(lit)) + 11 + Shl(Pow2(LengthExtraBits(lit) - 1) - 1, 3)
  }

  function DistanceExtraBits(d: nat): nat
    requires d >= 4
  {
    Shr(d - 4, 1) + 1
  }

  function DistanceBase(d: nat): nat
    requires d >= 4
  {
    Shl(And(d - 4, 1), DistanceExtraBits(d)) + 5 + Shl(Pow2(DistanceExtraBits(d) - 1) - 1, 2)
  }

  lemma {:induction false} ShlIsTimes(v: nat, k: nat)
    ensures Shl(v, k) == v * Pow2(k)
  {
    if k > 0 {
      ShlIsTimes(v, k - 1);
      assert v * (2 * Pow2(k - 1)) == 2 * (v * Pow2(k - 1));
    }
  }

  lemma {:induction false} LengthClosed(lit: nat)
    requires lit >= 265
    ensures var e := (lit - 265) / 4 + 1;
            LengthExtraBits(lit) == e &&
            LengthBase(lit) == (lit - 265) % 4 * Pow2(e) + 8 * Pow2(e - 1) + 3
  {
    var k := lit - 265;
    AndMask(k, 2);
    Low2(k);
    ShlIsTimes(k % 4, k / 4 + 1);
    Shift3(Pow2(k / 4) - 1, 0);
  }

  lemma {:induction false} LengthTable(lit: nat)
    requires 257 <= lit <= 285
    ensures LengthEntry(lit) ==
            if lit < 265 then (lit - 254, 0)
            else if lit == 285 then (258, 0)
            else (LengthBase(lit), LengthExtraBits(lit))
    ensures 265 <= lit <= 284 ==> LengthExtraBits(lit) <= 5
  {
    hide LengthExtraBits, LengthBase, Pow2;
    if 265 <= lit <= 284 {
      LengthClosed(lit);
      Powers();
    }
  }

  lemma {:induction false} DistanceClosed(d: nat)
    requires d >= 4
    ensures var e := (d - 4) / 2 + 1;
            DistanceExtraBits(d) == e &&
            DistanceBase(d) == d % 2 * Pow2(e) + 4 * Pow2(e - 1) + 1
  {
    var k := d - 4;
    assert Shr(k, 1) == Shr(k / 2, 0);
    assert Low(k, 1) == k % 2 + 2 * Low(k / 2, 0);
    AndMask(k, 1);
    ShlIsTimes(k % 2, k / 2 + 1);
    ShlIsTimes(Pow2(k / 2) - 1, 2);
  }

  lemma {:induction false} DistanceTable(d: nat)
    requires d <= 29
    ensures DistanceEntry(d) == if d < 4 then (d + 1, 0) else (DistanceBase(d), DistanceExtraBits(d))
    ensures d >= 4 ==> DistanceBase(d) >= 1 && DistanceExtraBits(d) <= 13
  {
    hide DistanceExtraBits, DistanceBase, Pow2;
    if d >= 4 {
      DistanceClosed(d);
      Powers();
    }
  }

  lemma {:induction false} Low2(k: nat)
    ensures Low(k, 2) == k % 4 && Shr(k, 2) == k / 4
  {
    LowShr(k, 2);
    assert Shr(k, 2) == Shr(k / 2, 1);
    assert Shr(k / 2, 1) == Shr(k / 4, 0);
    assert Shl(k / 4, 2) == 2 * Shl(k / 4, 1);
    assert Shl(k / 4, 1) == 2 * Shl(k / 4, 0);
  }

  /** The length for a symbol above 256, with its extra bits. */
  method ReadLength(input: Input, lit: nat, ghost lim: nat) returns (ok: bool, len: nat)
    requires input.Aligned() && lit > 256 && lim <= |input.mem| && input.bits <= 46
    modifies input
    ensures input.Aligned() && input.Pos() >= old(input.Pos())
    ensures ok && Length(lit, input.mem, lim, old(input.Pos())).Some? ==>
              Length(lit, input.mem, lim, old(input.Pos())).value == (len, input.Pos())
    ensures Length(lit, input.mem, lim, old(input.Pos())).Some? && RefillsAt(input.end, old(input.Pos())) ==> ok
  {
    hide Read, LengthEntry, LengthBase, LengthExtraBits, RefillsAt;
    if lit <= 285 {
      LengthTable(lit);
    }
    if lit < 265 {
      return true, lit - 257 + 3;
    } else if lit == 285 {
      return true, 258;
    } else if lit > 285 {
      return false, 0;
    }
    ok := input.Fetch();
    if !ok {
      return false, 0;
    }
    var extra := input.Take(LengthExtraBits(lit));
    len := LengthBase(lit) + extra;
  }

  /** A distance that the reference decodes: its symbol, its extra bits, and the two refills. */
  lemma {:induction false} DistanceParts(dist: seq<nat>, mem: seq<Byte>, lim: nat, p: nat, end: nat)
    requires lim <= |mem| && Distance(dist, mem, lim, p).Some?
    ensures Symbol(dist, mem, lim, p).Some?
    ensures var d := Symbol(dist, mem, lim, p).value;
            var q := p + dist[d];
            && d <= 29 && q + DistanceEntry(d).1 <= 8 * lim
            && Distance(dist, mem, lim, p).value
               == (DistanceEntry(d).0 + Read(mem, q, DistanceEntry(d).1), q + DistanceEntry(d).1)
            && (RefillsTo(end, q + DistanceEntry(d).1) ==> RefillsAt(end, p) && RefillsAt(end, q))
  {
    hide RefillsAt, RefillsTo, Symbol, Read, DistanceEntry;
    var d := Symbol(dist, mem, lim, p).value;
    var q: nat := p + dist[d];
    var n: nat := DistanceEntry(d).1;
    if RefillsTo(end, q + n) {
      RefillsBefore(end, p, q + n);
      RefillsBefore(end, q, q + n);
    }
  }

  /** The distance: a symbol of the distance code with its extra bits. */
  method ReadDistance(input: Input, tdist: seq<nat>, ghost dist: seq<nat>, ghost lim: nat) returns (ok: bool, d: nat)
    requires input.Aligned() && InBounds(tdist) && lim <= |input.mem|
    modifies input
    ensures input.Aligned() && input.Pos() >= old(input.Pos())
    ensures ok ==> d >= 1
    ensures ok && Serves(tdist, dist) && Distance(dist, input.mem, lim, old(input.Pos())).Some? ==>
              Distance(dist, input.mem, lim, old(input.Pos())).value == (d, input.Pos())
    ensures var r := Distance(dist, input.mem, lim, old(input.Pos()));
            Serves(tdist, dist) && r.Some? && RefillsTo(input.end, r.value.1) ==> ok
  {
    hide Distance, RefillsAt, RefillsTo, Read, Lookup, Symbol, Serves, InBounds;
    hide DistanceEntry, DistanceBase, DistanceExtraBits, Pow2;
    d := 0;
    ghost var r := Distance(dist, input.mem, lim, input.Pos());
    if r.Some? { DistanceParts(dist, input.mem, lim, input.Pos(), input.end); }
    ok := input.Fetch();
    if !ok {
      return;
    }
    d := input.Decode(tdist, dist, lim);
    if d > 29 {
      return false, d;
    }
    DistanceTable(d);
    if d < 4 {
      ReadNone(input.mem, input.Pos());
      d := d + 1;
    } else {
      ok := input.Fetch();
      if !ok {
        return;
      }
      var extra := input.Take(DistanceExtraBits(d));
      d := DistanceBase(d) + extra;
    }
  }

  // ----- The main loop -----

  /** Decode the rest of a match, from the extra bits of its length on, and copy it. */
  method InflateMatch(input: Input, s: nat, tdist: seq<nat>, ghost dist: seq<nat>, ghost lim: nat,
                      out: array<Byte>, pout0: nat) returns (ok: bool, pout: nat)
    requires input.Aligned() && s > 256 && InBounds(tdist) && lim <= |input.mem| && pout0 <= out.Length
    modifies input, out
    ensures input.Aligned() && pout <= out.Length && input.Pos() >= old(input.Pos())
    ensures var m := BackReference(s, dist, input.mem, lim, old(input.Pos()));
            Serves(tdist, dist) && m.Some? && m.value.dist <= pout0 ==>
              var refills := RefillsAt(input.end, old(input.Pos())) && RefillsTo(input.end, m.value.p);
              var fits := MatchFits(pout0, m.value.dist, m.value.len, out.Length);
              && (refills && fits ==> ok)
              && (ok ==> fits && input.Pos() == m.value.p
                         && out[..pout] == LzCopy(old(out[..pout0]), m.value.dist, m.value.len))
  {
    hide Read, Serves, Length, Distance, LzCopy, InBounds, BackReference, RefillsAt, RefillsTo, MatchFits;
    pout := pout0;
    if BackReference(s, dist, input.mem, lim, input.Pos()).Some? {
      ReferenceParts(s, dist, input.mem, lim, input.Pos());
    }
    var len, d;
    ok, len := ReadLength(input, s, lim);
    if !ok {
      return;
    }
    ok, d := ReadDistance(input, tdist, dist, lim);
    if !ok {
      return;
    }
    ok, pout := CopyMatch(out, pout, d, len);
  }

  /** Decode one symbol of a block and act on it. */
  method InflateSymbol(input: Input, tlit: seq<nat>, tdist: seq<nat>, ghost lit: seq<nat>, ghost dist: seq<nat>,
                       ghost lim: nat, out: array<Byte>, pout0: nat) returns (ok: bool, done: bool, pout: nat)
    requires input.Aligned() && InBounds(tlit) && InBounds(tdist) && lim + 4 == input.end && pout0 <= out.Length
    modifies input, out
    ensures input.Aligned() && pout <= out.Length
    ensures ok ==> input.Pos() > old(input.Pos())
    ensures Serves(tlit, lit) && Serves(tdist, dist)
            && Codes(lit, dist, input.mem, lim, old(input.Pos()), old(out[..pout0])).Some? ==>
              SymbolDone(lit, dist, input.mem, lim, old(input.Pos()), old(out[..pout0]), out.Length,
                         ok, done, input.Pos(), out[..pout])
  {
    hide Read, Lookup, Symbol, Serves, LzCopy, Pow2, InBounds, Codes, MatchFits, RefillsAt, RefillsTo;
    hide BackReference, SymbolDone;
    done, pout := false, pout0;
    ghost var p, out0, size := input.Pos(), out[..pout], out.Length;
    ghost var some := Serves(tlit, lit) && Serves(tdist, dist) && Codes(lit, dist, input.mem, lim, p, out0).Some?;
    ok := input.Fetch();
    if some { SymbolStarts(lit, dist, input.mem, lim, p, out0, size); }
    if !ok {
      return;
    }
    var s := input.Decode(tlit, lit, lim);
    if s < 256 {
      if some { LiteralDone(lit, dist, input.mem, lim, p, out0, size, s); }
      if pout == out.Length {
        return false, done, pout;
      }
      out[pout] := s;
      pout := pout + 1;
      assert out[..pout] == out0 + [s];
    } else if s == 256 {
      if some { EndDone(lit, dist, input.mem, lim, p, out0, size); }
      done := true;
    } else {
      ok, pout := InflateMatch(input, s, tdist, dist, lim, out, pout);
      if some { MatchDone(lit, dist, input.mem, lim, p, out0, size, s, ok, input.Pos(), out[..pout]); }
    }
  }

  /** One symbol from position p and output out0 has led to position q and output out, or has been refused. */
  ghost predicate SymbolDone(lit: seq<nat>, dist: seq<nat>, mem: seq<Byte>, lim: nat, p: nat, out0: seq<Byte>,
                             size: nat, ok: bool, done: bool, q: nat, out: seq<Byte>)
    requires lim <= |mem| && |out0| <= size && |out| <= size && Codes(lit, dist, mem, lim, p, out0).Some?
  {
    var r := Codes(lit, dist, mem, lim, p, out0);
    var last := RefillsTo(lim + 4, LastRefill(lit, dist, mem, lim, p, out0));
    && (ok && done ==> r.value == Progress(q, out) && last && OutputFits(lit, dist, mem, lim, p, out0, size))
    && (ok && !done ==>
          && Codes(lit, dist, mem, lim, q, out) == r
          && LastRefill(lit, dist, mem, lim, q, out) == LastRefill(lit, dist, mem, lim, p, out0)
          && (OutputFits(lit, dist, mem, lim, p, out0, size) <==> OutputFits(lit, dist, mem, lim, q, out, size)))
    && (!ok ==> !last || !OutputFits(lit, dist, mem, lim, p, out0, size))
  }

  /** There is a symbol, and without the refill for it the block is refused. */
  lemma {:induction false} SymbolStarts(lit: seq<nat>, dist: seq<nat>, mem: seq<Byte>, lim: nat, p: nat,
                                        out0: seq<Byte>, size: nat)
    requires lim <= |mem| && |out0| <= size && Codes(lit, dist, mem, lim, p, out0).Some?
    ensures Symbol(lit, mem, lim, p).Some?
    ensures !RefillsAt(lim + 4, p) ==> SymbolDone(lit, dist, mem, lim, p, out0, size, false, false, p, out0)
  {
    hide Symbol, BackReference, LzCopy, Codes, OutputFits, LastRefill, RefillsAt, RefillsTo;
    CodesStep(lit, dist, mem, lim, p, out0);
    var last := LastRefill(lit, dist, mem, lim, p, out0);
    if RefillsTo(lim + 4, last) { RefillsBefore(lim + 4, p, last); }
  }

  lemma {:induction false} LiteralDone(lit: seq<nat>, dist: seq<nat>, mem: seq<Byte>, lim: nat, p: nat,
                                       out0: seq<Byte>, size: nat, s: nat)
    requires lim <= |mem| && |out0| <= size && Codes(lit, dist, mem, lim, p, out0).Some?
    requires Symbol(lit, mem, lim, p) == Some(s) && s < 256
    ensures if |out0| == size then SymbolDone(lit, dist, mem, lim, p, out0, size, false, false, p + lit[s], out0)
            else SymbolDone(lit, dist, mem, lim, p, out0, size, true, false, p + lit[s], out0 + [s])
  {
    hide Symbol, BackReference, LzCopy, Codes, OutputFits, LastRefill, RefillsTo, MatchFits;
    CodesStep(lit, dist, mem, lim, p, out0);
    FitStep(lit, dist, mem, lim, p, out0, size);
  }

  lemma {:induction false} EndDone(lit: seq<nat>, dist: seq<nat>, mem: seq<Byte>, lim: nat, p: nat,
                                   out0: seq<Byte>, size: nat)
    requires lim <= |mem| && |out0| <= size && Codes(lit, dist, mem, lim, p, out0).Some?
    requires Symbol(lit, mem, lim, p) == Some(256) && RefillsAt(lim + 4, p)
    ensures SymbolDone(lit, dist, mem, lim, p, out0, size, true, true, p + lit[256], out0)
  {
    hide Symbol, BackReference, LzCopy, Codes, OutputFits, LastRefill, RefillsAt, RefillsTo, MatchFits;
    CodesStep(lit, dist, mem, lim, p, out0);
    FitStep(lit, dist, mem, lim, p, out0, size);
    RefillsIff(lim + 4, p);
  }

  lemma {:induction false} MatchDone(lit: seq<nat>, dist: seq<nat>, mem: seq<Byte>, lim: nat, p: nat,
                                     out0: seq<Byte>, size: nat, s: nat, ok: bool, q: nat, out: seq<Byte>)
    requires lim <= |mem| && |out0| <= size && |out| <= size && Codes(lit, dist, mem, lim, p, out0).Some?
    requires Symbol(lit, mem, lim, p) == Some(s) && s > 256
    requires var m := BackReference(s, dist, mem, lim, p + lit[s]);
             m.Some? && m.value.dist <= |out0| ==>
               var refills := RefillsAt(lim + 4, p + lit[s]) && RefillsTo(lim + 4, m.value.p);
               var fits := MatchFits(|out0|, m.value.dist, m.value.len, size);
               && (refills && fits ==> ok)
               && (ok ==> fits && q == m.value.p && out == LzCopy(out0, m.value.dist, m.value.len))
    ensures SymbolDone(lit, dist, mem, lim, p, out0, size, ok, false, q, out)
  {
    hide Symbol, BackReference, LzCopy, Codes, OutputFits, LastRefill, RefillsAt, RefillsTo, MatchFits;
    CodesStep(lit, dist, mem, lim, p, out0);
    FitStep(lit, dist, mem, lim, p, out0, size);
    if RefillsTo(lim + 4, LastRefill(lit, dist, mem, lim, p, out0)) {
      RefillsStep(lit, dist, mem, lim, p, out0, lim + 4);
    }
  }

  /** The symbols of a block have been decoded, exactly if they are within the limits. */
  ghost predicate CodesDone(lit: seq<nat>, dist: seq<nat>, mem: seq<Byte>, end: nat, p: nat, out0: seq<Byte>,
                            size: nat, ok: bool, q: nat, out: seq<Byte>)
    requires 4 <= end <= |mem| && |out0| <= size
  {
    hide Codes;
    var r := Codes(lit, dist, mem, end - 4, p, out0);
    r.Some? ==>
      (ok <==> CodedFits(lit, dist, mem, end, p, out0, size)) && (ok ==> r.value == Progress(q, out))
  }

  /** Inflate values until the end of the block. */
  method InflateCodes(input: Input, tlit: seq<nat>, tdist: seq<nat>, ghost lit: seq<nat>, ghost dist: seq<nat>,
                      ghost lim: nat, out: array<Byte>, pout0: nat) returns (ok: bool, pout: nat)
    requires input.Aligned() && InBounds(tlit) && InBounds(tdist) && lim + 4 == input.end && pout0 <= out.Length
    modifies input, out
    ensures input.Aligned() && pout <= out.Length && (ok ==> input.Pos() >= old(input.Pos()))
    ensures Serves(tlit, lit) && Serves(tdist, dist) ==>
              CodesDone(lit, dist, input.mem, input.end, old(input.Pos()), old(out[..pout0]), out.Length,
                        ok, input.Pos(), out[..pout])
  {
    hide Read, Serves, Codes, OutputFits, LastRefill, RefillsTo;
    pout := pout0;
    ghost var p, before := input.Pos(), out[..pout];
    ghost var some := Serves(tlit, lit) && Serves(tdist, dist) && Codes(lit, dist, input.mem, lim, p, before).Some?;
    var done := false;
    while !done
      invariant input.Aligned() && pout <= out.Length && input.Pos() >= old(input.Pos())
      invariant some ==> SymbolDone(lit, dist, input.mem, lim, p, before, out.Length,
                                    true, done, input.Pos(), out[..pout])
      decreases !done, 8 * |input.mem| - input.Pos()
    {
      ok, done, pout := InflateSymbol(input, tlit, tdist, lit, dist, lim, out, pout);
      if !ok {
        return;
      }
    }
    ok := true;
  }

  // ----- Stored blocks -----

  /** memcpy of input to the output buffer. */
  method CopyIn(out: array<Byte>, dst: nat, bytes: seq<Byte>)
    requires dst + |bytes| <= out.Length
    modifies out
    ensures out[..dst + |bytes|] == old(out[..dst]) + bytes
  {
    forall k | 0 <= k < |bytes| {
      out[dst + k] := bytes[k];
    }
  }

  /** Copy an uncompressed block whose 3-bit header has just been read. */
  method InflateStored(input: Input, ghost lim: nat, out: array<Byte>, pout0: nat) returns (ok: bool, pout: nat)
    requires input.Aligned() && input.bits >= 1 && lim <= |input.mem| && pout0 <= out.Length
    modifies input, out
    ensures input.Valid() && pout <= out.Length && (ok ==> input.Aligned() && input.Pos() >= old(input.Pos()))
    ensures var r := Stored(input.mem, lim, old(input.Pos()), old(out[..pout0]), DropsAByte);
            r.Some? && lim <= input.end ==>
              && (ok <==> StoredFits(input.mem, input.end, old(input.Pos()), pout0, out.Length))
              && (ok ==> r.value == Progress(input.Pos(), out[..pout]))
    ensures ok ==> Stored(input.mem, input.end, old(input.Pos()), old(out[..pout0]), DropsAByte).Some?
  {
    hide Read, Pow2, LittleEndian;
    pout := pout0;
    ghost var p := input.Pos();
    var pin, bits := input.pin, input.bits;
    while bits > 8
      invariant 1 <= bits <= 8 * pin && 8 * pin - bits == p && pin <= input.pin
    {
      pin := pin - 1;
      bits := bits - 8;
    }
    assert pin == DropsAByte.DataByte(p);
    input.Restart(pin);
    if input.end < pin + 4 {
      return false, pout;
    }
    var len := LittleEndian(input.mem, pin, 2);
    var lenc := LittleEndian(input.mem, pin + 2, 2);
    pin := pin + 4;
    if len + lenc != 0xffff || len > Unsigned(input.end - pin) || len > Unsigned(out.Length - pout) {
      return false, pout;
    }
    CopyIn(out, pout, input.mem[pin..pin + len]);
    pout := pout + len;
    input.Restart(pin + len);
    input.Align();
    ok := true;
  }

  // ----- Dynamic blocks -----

  /** Read the lengths of the code length code, refilling the buffer after every five of them. */
  method ReadLengthCode(input: Input, n: nat) returns (ok: bool, code: seq<nat>)
    requires input.Aligned() && n <= 19
    modifies input
    ensures input.Aligned() && |code| == 19
    ensures ok ==> input.Pos() == old(input.Pos()) + 3 * n && input.Pos() <= 8 * |input.mem|
    ensures ok ==> code == LengthCode(input.mem, old(input.Pos()), 0, n, Repeat(0, 19))
    ensures RefillsTo(input.end, old(input.Pos()) + 3 * n) ==> ok
  {
    hide RefillsAt, RefillsTo, Read, LengthCode, Repeat, Order, Pow2;
    code := Repeat(0, 19);
    ghost var p := input.Pos();
    LengthCodeNone(input.mem, p, code);
    var k := 0;
    while k < n
      invariant 0 <= k <= n && |code| == 19
      invariant input.Aligned() && input.Pos() == p + 3 * k
      invariant 0 < k < 5 ==> input.bits >= 15 - 3 * k
      invariant 5 < k < 10 ==> input.bits >= 30 - 3 * k
      invariant 10 < k < 15 ==> input.bits >= 45 - 3 * k
      invariant 15 < k < 20 ==> input.bits >= 60 - 3 * k
      invariant p + 3 * k <= 8 * |input.mem| && code == LengthCode(input.mem, p, 0, k, Repeat(0, 19))
    {
      if k == 0 || k == 5 || k == 10 || k == 15 {
        if RefillsTo(input.end, p + 3 * n) { RefillsBefore(input.end, p + 3 * k, p + 3 * n); }
        ok := input.Fetch();
        if !ok {
          return;
        }
      }
      var v := input.Take(3);
      LengthCodeLast(input.mem, p, 0, k, Repeat(0, 19));
      code := code[Order(k) := v];
      k := k + 1;
    }
    ok := true;
  }

  lemma {:induction false} LengthCodeNone(mem: seq<Byte>, p: nat, acc: seq<nat>)
    requires p <= 8 * |mem| && |acc| == 19
    ensures LengthCode(mem, p, 0, 0, acc) == acc
  {
  }

  lemma {:induction false} LengthCodeLast(mem: seq<Byte>, p: nat, k: nat, n: nat, acc: seq<nat>)
    requires k <= n < 19 && p + 3 * (n + 1) <= 8 * |mem| && |acc| == 19
    ensures LengthCode(mem, p, k, n + 1, acc) == LengthCode(mem, p, k, n, acc)[Order(n) := Read(mem, p + 3 * n, 3)]
    decreases n - k
  {
    hide Read, Order, Pow2;
    if k < n { LengthCodeLast(mem, p, k + 1, n, acc[Order(k) := Read(mem, p + 3 * k, 3)]); }
  }

  // One item of the compressed code lengths.

  lemma {:induction false} LengthItem(code: seq<nat>, mem: seq<Byte>, lim: nat, p: nat, n: nat, acc: seq<nat>)
    requires lim <= |mem| && |acc| < n && CodeLengths(code, mem, lim, p, n, acc).Some?
    ensures Symbol(code, mem, lim, p).Some?
    ensures var s := Symbol(code, mem, lim, p).value;
            && s <= 18
            && (s < 16 ==>
                  CodeLengths(code, mem, lim, p, n, acc) == CodeLengths(code, mem, lim, p + code[s], n, acc + [s]))
  {
    hide Read, Symbol, Repeat, Number;
  }

  /** The lengths after an item that repeats one, and the position after it. */
  function Repeated(v: nat, mem: seq<Byte>, p: nat, n: nat, lens: seq<nat>): Option<(seq<nat>, nat)>
    requires p + 7 <= 8 * |mem|
  {
    if v > 18 || (v == 16 && lens == []) then None
    else
      var c := if v == 16 then 3 + Read(mem, p, 2) else if v == 17 then 3 + Read(mem, p, 3) else 11 + Read(mem, p, 7);
      if |lens| + c > n then None
      else Some((lens + Repeat(if v == 16 then lens[|lens| - 1] else 0, c),
                 p + if v == 16 then 2 else if v == 17 then 3 else 7))
  }

  lemma {:induction false} RepeatItem(code: seq<nat>, mem: seq<Byte>, lim: nat, p: nat, n: nat, acc: seq<nat>, v: nat)
    requires lim <= |mem| && |acc| < n && CodeLengths(code, mem, lim, p, n, acc).Some? && v >= 16
    requires Symbol(code, mem, lim, p) == Some(v) && p + code[v] + 7 <= 8 * |mem|
    ensures var r := Repeated(v, mem, p + code[v], n, acc);
            && r.Some? && p <= r.value.1
            && CodeLengths(code, mem, lim, p, n, acc) == CodeLengths(code, mem, lim, r.value.1, n, r.value.0)
  {
    hide Read, Symbol, Repeat;
  }

  /** A code whose lengths have three bits. */
  ghost predicate AllShort(code: seq<nat>) { forall s :: 0 <= s < |code| ==> code[s] <= 7 }

  lemma {:induction false} ShortAt(code: seq<nat>, s: nat)
    requires AllShort(code) && s < |code|
    ensures code[s] <= 7
  {
  }

  lemma {:induction false} LengthCodeShort(mem: seq<Byte>, p: nat, k: nat, n: nat, acc: seq<nat>)
    requires k <= n <= 19 && p + 3 * n <= 8 * |mem| && |acc| == 19 && AllShort(acc)
    ensures AllShort(LengthCode(mem, p, k, n, acc))
    decreases n - k
  {
    hide Read, Order;
    if k < n {
      Powers();
      LengthCodeShort(mem, p, k + 1, n, acc[Order(k) := Read(mem, p + 3 * k, 3)]);
    }
  }

  /** Short codes need no secondary tables. */
  lemma {:induction false} ShortHasRoom(code: seq<nat>)
    requires AllShort(code)
    ensures Room(code)
  {
  }

  /** Read how often a length is repeated, and repeat it. */
  method ReadRepeat(input: Input, v: nat, n: nat, lens0: seq<nat>) returns (ok: bool, lens: seq<nat>)
    requires input.Aligned() && v >= 16 && input.bits >= 7 && |lens0| <= n
    modifies input
    ensures input.Aligned() && input.Pos() >= old(input.Pos()) && |lens| <= n
    ensures ok ==> v <= 18 && |lens0| < |lens|
    ensures old(input.Pos()) + 7 <= 8 * |input.mem|
    ensures ok <==> Repeated(v, input.mem, old(input.Pos()), n, lens0).Some?
    ensures ok ==> Repeated(v, input.mem, old(input.Pos()), n, lens0) == Some((lens, input.Pos()))
  {
    hide Read, Repeat, Pow2;
    lens := lens0;
    var c, x := 0, 0;
    if v == 16 {
      if lens == [] {
        return false, lens;
      }
      c := input.Take(2);
      c := 3 + c;
      x := lens[|lens| - 1];
    } else if v == 17 {
      c := input.Take(3);
      c := 3 + c;
    } else if v == 18 {
      c := input.Take(7);
      c := 11 + c;
    } else {
      return false, lens;
    }
    if n - |lens| < c {
      return false, lens;
    }
    lens := lens + Repeat(x, c);
    ok := true;
  }

  /** Read one item of the compressed code lengths and append what it stands for. */
  method ReadCodeLength(input: Input, table: seq<nat>, ghost code: seq<nat>, ghost lim: nat, n: nat, lens0: seq<nat>)
    returns (ok: bool, lens: seq<nat>)
    requires input.Aligned() && InBounds(table) && lim <= |input.mem| && |lens0| < n
    modifies input
    ensures input.Aligned()
    ensures ok ==> |lens0| < |lens| <= n && input.Pos() >= old(input.Pos())
    ensures var r := CodeLengths(code, input.mem, lim, old(input.Pos()), n, lens0);
            Serves(table, code) && r.Some? ==>
              && (ok ==> r == CodeLengths(code, input.mem, lim, input.Pos(), n, lens))
              && (AllShort(code) && RefillsTo(input.end, r.value.1) ==> ok)
  {
    hide Read, Lookup, Symbol, Serves, Repeat, Pow2, InBounds, CodeLengths, RefillsAt, RefillsTo, AllShort;
    hide Repeated;
    lens := lens0;
    ghost var p := input.Pos();
    ghost var r := CodeLengths(code, input.mem, lim, p, n, lens0);
    if r.Some? {
      LengthItem(code, input.mem, lim, p, n, lens0);
      if AllShort(code) { ShortAt(code, Symbol(code, input.mem, lim, input.Pos()).value); }
      if RefillsTo(input.end, r.value.1) { RefillsBefore(input.end, input.Pos(), r.value.1); }
    }
    var v;
    ok, v := DecodePrimary(input, table, code, lim);
    if !ok {
      return;
    }
    if v < 16 {
      return true, lens + [v];
    }
    if r.Some? && Serves(table, code) { RepeatItem(code, input.mem, lim, p, n, lens, v); }
    ok, lens := ReadRepeat(input, v, n, lens);
  }

  /** Read the compressed code lengths of both codes. */
  method ReadCodeLengths(input: Input, table: seq<nat>, ghost code: seq<nat>, ghost lim: nat, n: nat)
    returns (ok: bool, lens: seq<nat>)
    requires input.Aligned() && InBounds(table) && lim <= |input.mem|
    modifies input
    ensures input.Aligned() && (ok ==> |lens| == n && input.Pos() >= old(input.Pos()))
    ensures var r := CodeLengths(code, input.mem, lim, old(input.Pos()), n, []);
            Serves(table, code) && r.Some? ==>
              && (ok ==> r.value == (lens, input.Pos()))
              && (AllShort(code) && RefillsTo(input.end, r.value.1) ==> ok)
  {
    hide Read, Serves, RefillsTo, AllShort;
    ghost var total := CodeLengths(code, input.mem, lim, input.Pos(), n, []);
    lens := [];
    while |lens| < n
      invariant input.Aligned() && |lens| <= n && input.Pos() >= old(input.Pos())
      invariant Serves(table, code) && total.Some? ==>
                  total == CodeLengths(code, input.mem, lim, input.Pos(), n, lens)
      decreases n - |lens|
    {
      ok, lens := ReadCodeLength(input, table, code, lim, n, lens);
      if !ok {
        return;
      }
    }
    ok := true;
  }

  lemma {:induction false} HeaderNumbers(mem: seq<Byte>, lim: nat, p: nat)
    requires lim <= |mem| && DynamicHeader(mem, lim, p).Some?
    ensures p + 14 <= 8 * lim
    ensures DynamicHeader(mem, lim, p) == CodedLengths(mem, lim, p + 14, Read(mem, p, 5) + 257,
                                                       Read(mem, p + 5, 5) + 1, Read(mem, p + 10, 4) + 4)
  {
    hide Read, CodedLengths;
  }

  /** What code lengths that the reference decodes come from, and the refills for them. */
  lemma {:induction false} LengthsParts(mem: seq<Byte>, lim: nat, p: nat, nlit: nat, ndist: nat, nclen: nat, end: nat)
    requires lim <= |mem| && CodedLengths(mem, lim, p, nlit, ndist, nclen).Some?
    ensures nlit <= 286 && nclen <= 19 && p + 3 * nclen <= 8 * lim
    ensures var h := CodedLengths(mem, lim, p, nlit, ndist, nclen).value;
            var code := LengthCode(mem, p, 0, nclen, Repeat(0, 19));
            && Kraft(code) && AllShort(code) && Room(code)
            && CodeLengths(code, mem, lim, p + 3 * nclen, nlit + ndist, []) == Some((h.lit + h.dist, h.p))
            && (RefillsTo(end, h.p) ==> RefillsTo(end, p) && RefillsTo(end, p + 3 * nclen))
  {
    hide Read, LengthCode, CodeLengths, Repeat, Kraft, Room, RefillsAt, RefillsTo, AllShort;
    var h := CodedLengths(mem, lim, p, nlit, ndist, nclen).value;
    var code := LengthCode(mem, p, 0, nclen, Repeat(0, 19));
    NoneShort();
    LengthCodeShort(mem, p, 0, nclen, Repeat(0, 19));
    ShortHasRoom(code);
    var lens := CodeLengths(code, mem, lim, p + 3 * nclen, nlit + ndist, []).value;
    assert lens.0 == lens.0[..nlit] + lens.0[nlit..];
    if RefillsTo(end, h.p) {
      RefillsBefore(end, p, h.p);
      RefillsBefore(end, p + 3 * nclen, h.p);
    }
  }

  lemma {:induction false} NoneShort()
    ensures AllShort(Repeat(0, 19))
  {
  }

  lemma {:induction false} FourBits(mem: seq<Byte>, p: nat)
    ensures p + 4 <= 8 * |mem| ==> Read(mem, p, 4) < 16
  {
    Powers();
  }

  /** Read the lengths of the two codes of a dynamic block, with the table for the code that they are coded with. */
  method ReadLengths(input: Input, ghost lim: nat, table: array<nat>, nlit: nat, ndist: nat, nclen: nat)
    returns (ok: bool, lens: seq<nat>)
    requires input.Aligned() && lim <= |input.mem| && table.Length == TABLE_SIZE && nclen <= 19
    modifies input, table
    ensures input.Aligned() && (ok ==> |lens| == nlit + ndist && input.Pos() >= old(input.Pos()))
    ensures var h := CodedLengths(input.mem, lim, old(input.Pos()), nlit, ndist, nclen);
            h.Some? ==>
              && (ok ==> lens == h.value.lit + h.value.dist && input.Pos() == h.value.p)
              && (RefillsTo(input.end, h.value.p) ==> ok)
  {
    hide Read, Decodes, InBounds, LengthCode, CodeLengths, Repeat, Kraft, Pow2, Room, Complete, CodedLengths;
    hide RefillsAt, RefillsTo, AllShort;
    lens := [];
    ghost var p := input.Pos();
    if CodedLengths(input.mem, lim, p, nlit, ndist, nclen).Some? {
      LengthsParts(input.mem, lim, p, nlit, ndist, nclen, input.end);
    }
    var code;
    ok, code := ReadLengthCode(input, nclen);
    if !ok {
      return;
    }
    ok := BuildTable(code, table);
    if !ok {
      return;
    }
    ok, lens := ReadCodeLengths(input, table[..], code, lim, nlit + ndist);
  }

  /** Read the header of a dynamic block: the lengths of both codes, and how many are in the first. */
  method ReadHeader(input: Input, ghost lim: nat, table: array<nat>) returns (ok: bool, nlit: nat, lens: seq<nat>)
    requires input.Aligned() && lim <= |input.mem| && table.Length == TABLE_SIZE
    modifies input, table
    ensures input.Aligned() && (ok ==> 257 <= nlit < |lens| <= 286 + 30 && input.Pos() >= old(input.Pos()))
    ensures var h := DynamicHeader(input.mem, lim, old(input.Pos()));
            h.Some? ==>
              && (ok ==> |h.value.dist| <= 30 && nlit == |h.value.lit| && lens == h.value.lit + h.value.dist
                         && input.Pos() == h.value.p)
              && (|h.value.dist| <= 30 && RefillsTo(input.end, h.value.p) ==> ok)
  {
    hide Read, Kraft, Pow2, CodedLengths, DynamicHeader, RefillsAt, RefillsTo;
    nlit, lens := 0, [];
    ghost var p := input.Pos();
    ghost var h := DynamicHeader(input.mem, lim, p);
    if h.Some? {
      HeaderNumbers(input.mem, lim, p);
      if RefillsTo(input.end, h.value.p) { RefillsBefore(input.end, p, h.value.p); }
    }
    ok := input.Fetch();
    if !ok {
      return;
    }
    nlit := input.Take(5);
    nlit := nlit + 257;
    var ndist := input.Take(5);
    ndist := ndist + 1;
    var nclen := input.Take(4);
    nclen := nclen + 4;
    FourBits(input.mem, p + 10);
    if nlit > 286 || ndist > 30 {
      return false, nlit, lens;
    }
    ok, lens := ReadLengths(input, lim, table, nlit, ndist, nclen);
  }

  /** Read the header of a dynamic block and build its two tables. */
  method ReadDynamicHeader(input: Input, ghost lim: nat, litTable: array<nat>, distTable: array<nat>) returns (ok: bool)
    requires input.Aligned() && lim <= |input.mem|
    requires litTable.Length == distTable.Length == TABLE_SIZE && litTable != distTable
    modifies input, litTable, distTable
    ensures input.Aligned() && (ok ==> input.Pos() >= old(input.Pos()))
    ensures InBounds(litTable[..]) && InBounds(distTable[..])
    ensures var h := DynamicHeader(input.mem, lim, old(input.Pos()));
            h.Some? ==>
              && (ok ==> Serves(litTable[..], h.value.lit) && Serves(distTable[..], h.value.dist)
                         && input.Pos() == h.value.p && HeaderFits(h.value))
              && (HeaderFits(h.value) && h.value.lit[256] > 0 && RefillsTo(input.end, h.value.p) ==> ok)
  {
    hide Decodes, InBounds, Kraft, Room, Complete, DynamicHeader, RefillsTo;
    FullTableInBounds(litTable[..]);
    FullTableInBounds(distTable[..]);
    ghost var h := DynamicHeader(input.mem, lim, input.Pos());
    var nlit, lens;
    ok, nlit, lens := ReadHeader(input, lim, litTable);
    FullTableInBounds(litTable[..]);
    if !ok {
      return;
    }
    if h.Some? {
      assert lens[..nlit] == h.value.lit && lens[nlit..] == h.value.dist;
      assert lens[256] == h.value.lit[256];
    }
    if lens[256] == 0 {
      return false;
    }
    ok := BuildTable(lens[..nlit], litTable);
    if !ok {
      return;
    }
    ok := BuildTable(lens[nlit..], distTable);
  }

  // ----- Blocks and streams -----

  /**
   * Among the blocks from position p on, as the reference decodes them, there is a stored one in which the source does
   * not find a length and its complement, or not that many bytes.
   */
  ghost predicate StoredRefused(mem: seq<Byte>, lim: nat, end: nat, p: nat, out: seq<Byte>)
    requires lim <= end <= |mem|
    decreases 8 * lim - p
  {
    p + 3 <= 8 * lim &&
    var kind := Read(mem, p + 1, 2);
    var b := Block(kind, mem, lim, p + 3, out, DropsAByte);
    || (kind == 0 && Stored(mem, end, p + 3, out, DropsAByte).None?)
    || (b.Some? && BitAt(mem, p) == 0 && StoredRefused(mem, lim, end, b.value.p, b.value.out))
  }

  /** A dynamic block within the limits has an end-of-block symbol, and its header ends in time for refills. */
  lemma {:induction false} HeaderBefore(h: Header, mem: seq<Byte>, end: nat, out: seq<Byte>, size: nat)
    requires 4 <= end <= |mem| && |out| <= size && Codes(h.lit, h.dist, mem, end - 4, h.p, out).Some?
    ensures |h.lit| > 256 && h.lit[256] > 0
    ensures CodedFits(h.lit, h.dist, mem, end, h.p, out, size) ==> RefillsTo(end, h.p)
  {
    hide Codes, OutputFits, LastRefill, RefillsAt, RefillsTo;
    CodesEnd(h.lit, h.dist, mem, end - 4, h.p, out);
    if CodedFits(h.lit, h.dist, mem, end, h.p, out, size) {
      RefillsBefore(end, h.p, LastRefill(h.lit, h.dist, mem, end - 4, h.p, out));
    }
  }

  /** A block has been decoded, exactly if it is within the limits. */
  ghost predicate BlockDone(kind: nat, mem: seq<Byte>, end: nat, p: nat, out0: seq<Byte>, size: nat,
                            ok: bool, q: nat, out: seq<Byte>)
    requires 4 <= end <= |mem| && |out0| <= size
  {
    hide Block, BlockFits;
    var r := Block(kind, mem, end - 4, p, out0, DropsAByte);
    r.Some? ==> (ok <==> BlockFits(kind, mem, end, p, out0, size)) && (ok ==> r.value == Progress(q, out))
  }

  /** Inflate one block whose 3-bit header has just been read. */
  method InflateBlock(input: Input, kind: nat, ghost lim: nat, litTable: array<nat>, distTable: array<nat>,
                      out: array<Byte>, pout0: nat) returns (ok: bool, pout: nat)
    requires input.Aligned() && input.bits >= 1 && lim + 4 == input.end && pout0 <= out.Length
    requires litTable.Length == distTable.Length == TABLE_SIZE
    requires litTable != distTable && litTable as object != out && distTable as object != out
    modifies input, litTable, distTable, out
    ensures input.Valid() && pout <= out.Length && (ok ==> input.Aligned() && input.Pos() >= old(input.Pos()))
    ensures BlockDone(kind, input.mem, input.end, old(input.Pos()), old(out[..pout0]), out.Length,
                      ok, input.Pos(), out[..pout])
    ensures ok && kind == 0 ==> Stored(input.mem, input.end, old(input.Pos()), old(out[..pout0]), DropsAByte).Some?
  {
    hide Read, Codes, Stored, DynamicHeader, InBounds, Decodes, Kraft, FixedLit, FixedDist, LitTable, DistTable;
    hide CodedFits, HeaderFits, RefillsTo, StoredFits;
    pout := pout0;
    if kind == 3 {
      ok := false;
    } else if kind == 0 {
      ok, pout := InflateStored(input, lim, out, pout);
    } else if kind == 1 {
      FixedTablesDecode();
      ok, pout := InflateCodes(input, LitTable(), DistTable(), FixedLit(), FixedDist(), lim, out, pout);
    } else {
      ghost var h := DynamicHeader(input.mem, lim, input.Pos());
      ghost var before := out[..pout];
      if h.Some? && Codes(h.value.lit, h.value.dist, input.mem, lim, h.value.p, before).Some? {
        HeaderBefore(h.value, input.mem, input.end, before, out.Length);
      }
      ok := ReadDynamicHeader(input, lim, litTable, distTable);
      if !ok {
        return;
      }
      assert out[..pout] == before;
      ghost var lit, dist := if h.Some? then h.value.lit else [], if h.Some? then h.value.dist else [];
      ok, pout := InflateCodes(input, litTable[..], distTable[..], lit, dist, lim, out, pout);
    }
  }

  /** Some blocks have been decoded, and those that are left decide whether all are within the limits. */
  ghost predicate BlocksSoFar(mem: seq<Byte>, end: nat, p0: nat, out0: seq<Byte>, size: nat, last: bool,
                              p: nat, out: seq<Byte>)
    requires 4 <= end <= |mem| && |out0| <= size && |out| <= size
  {
    hide Blocks, BlocksFit;
    var r := Blocks(mem, end - 4, p0, out0, DropsAByte);
    r.Some? ==>
      && r == (if last then Some(Progress(p, out)) else Blocks(mem, end - 4, p, out, DropsAByte))
      && (BlocksFit(mem, end, p0, out0, size) <==> last || BlocksFit(mem, end, p, out, size))
  }

  /** Blocks have been decoded, exactly if they are within the limits. */
  ghost predicate BlocksDone(mem: seq<Byte>, end: nat, p0: nat, out0: seq<Byte>, size: nat,
                             ok: bool, p: nat, out: seq<Byte>)
    requires 4 <= end <= |mem| && |out0| <= size
  {
    hide Blocks, BlocksFit;
    var r := Blocks(mem, end - 4, p0, out0, DropsAByte);
    r.Some? ==> (ok <==> BlocksFit(mem, end, p0, out0, size)) && (ok ==> r.value == Progress(p, out))
  }

  /** One more block, whose header has been read. */
  lemma {:induction false} SoFarStep(mem: seq<Byte>, end: nat, p0: nat, out0: seq<Byte>, size: nat,
                                     p: nat, before: seq<Byte>, ok: bool, q: nat, out: seq<Byte>)
    requires 4 <= end <= |mem| && |out0| <= size && |before| <= size && |out| <= size && p + 3 <= 8 * |mem|
    requires BlocksSoFar(mem, end, p0, out0, size, false, p, before)
    requires BlockDone(Read(mem, p + 1, 2), mem, end, p + 3, before, size, ok, q, out)
    ensures if ok then BlocksSoFar(mem, end, p0, out0, size, Read(mem, p, 1) == 1, q, out)
            else BlocksDone(mem, end, p0, out0, size, false, q, out)
  {
    hide Read, Block, Blocks, BlockFits, BlocksFit;
    if Blocks(mem, end - 4, p, before, DropsAByte).Some? {
      BlocksStep(mem, end - 4, p, before, DropsAByte);
      BlocksFitStep(mem, end, p, before, size);
    }
  }

  /** Without the refill for a block's header, the blocks are not within the limits. */
  lemma {:induction false} NoRefill(mem: seq<Byte>, end: nat, p0: nat, out0: seq<Byte>, size: nat,
                                    p: nat, out: seq<Byte>)
    requires 4 <= end <= |mem| && |out0| <= size && |out| <= size && !RefillsAt(end, p)
    requires BlocksSoFar(mem, end, p0, out0, size, false, p, out)
    ensures BlocksDone(mem, end, p0, out0, size, false, p, out)
  {
    hide Read, Block, Blocks, BlockFits, BlocksFit, RefillsAt;
    if Blocks(mem, end - 4, p, out, DropsAByte).Some? {
      BlocksFitStep(mem, end, p, out, size);
      var kind := Read(mem, p + 1, 2);
      if BlockFits(kind, mem, end, p + 3, out, size) { HeaderRefills(kind, mem, end, p, out, size); }
    }
  }

  lemma {:induction false} NothingYet(mem: seq<Byte>, end: nat, p: nat, out: seq<Byte>, size: nat)
    requires 4 <= end <= |mem| && |out| <= size
    ensures BlocksSoFar(mem, end, p, out, size, false, p, out)
  {
    hide Blocks, BlocksFit;
  }

  lemma {:induction false} NothingLeft(mem: seq<Byte>, end: nat, p0: nat, out0: seq<Byte>, size: nat,
                                       p: nat, out: seq<Byte>)
    requires 4 <= end <= |mem| && |out0| <= size && |out| <= size
    requires BlocksSoFar(mem, end, p0, out0, size, true, p, out)
    ensures BlocksDone(mem, end, p0, out0, size, true, p, out)
  {
    hide Blocks, BlocksFit;
  }

  /** Inflate blocks until one is marked last. */
  method InflateBlocks(input: Input, ghost lim: nat, litTable: array<nat>, distTable: array<nat>,
                       out: array<Byte>, pout0: nat) returns (ok: bool, pout: nat)
    requires input.Aligned() && lim + 4 == input.end && pout0 <= out.Length
    requires litTable.Length == distTable.Length == TABLE_SIZE
    requires litTable != distTable && litTable as object != out && distTable as object != out
    modifies input, litTable, distTable, out
    ensures input.Valid() && pout <= out.Length && (ok ==> input.Aligned() && input.Pos() >= old(input.Pos()))
    ensures BlocksDone(input.mem, input.end, old(input.Pos()), old(out[..pout0]), out.Length,
                       ok, input.Pos(), out[..pout])
    ensures ok ==> !StoredRefused(input.mem, lim, input.end, old(input.Pos()), old(out[..pout0]))
  {
    hide Read, Block, Blocks, Stored, StoredRefused, BlockDone, BlocksSoFar, BlocksDone, RefillsAt;
    pout := pout0;
    ghost var p0, out0, size := input.Pos(), out[..pout], out.Length;
    ghost var refused := StoredRefused(input.mem, lim, input.end, p0, out0);
    NothingYet(input.mem, input.end, p0, out0, size);
    var last := false;
    while !last
      invariant input.Aligned() && pout <= out.Length && input.Pos() >= old(input.Pos())
      invariant BlocksSoFar(input.mem, input.end, p0, out0, size, last, input.Pos(), out[..pout])
      invariant refused ==> !last && StoredRefused(input.mem, lim, input.end, input.Pos(), out[..pout])
      decreases !last, 8 * |input.mem| - input.Pos()
    {
      ghost var p, before := input.Pos(), out[..pout];
      ok := input.Fetch();
      if !ok {
        NoRefill(input.mem, input.end, p0, out0, size, p, before);
        return;
      }
      var bit := input.Take(1);
      var kind := input.Take(2);
      assert out[..pout] == before;
      last := bit == 1;
      ok, pout := InflateBlock(input, kind, lim, litTable, distTable, out, pout);
      SoFarStep(input.mem, input.end, p0, out0, size, p, before, ok, input.Pos(), out[..pout]);
      if !ok {
        return;
      }
      if refused { RefusedStep(input.mem, input.end, p, before, size, input.Pos(), out[..pout]); }
    }
    NothingLeft(input.mem, input.end, p0, out0, size, input.Pos(), out[..pout]);
    ok := true;
  }

  /** A block that has been decoded is not the one that is refused. */
  lemma {:induction false} RefusedStep(mem: seq<Byte>, end: nat, p: nat, before: seq<Byte>, size: nat,
                                       q: nat, out: seq<Byte>)
    requires 4 <= end <= |mem| && |before| <= size && p + 3 <= 8 * |mem|
    requires BlockDone(Read(mem, p + 1, 2), mem, end, p + 3, before, size, true, q, out)
    requires Read(mem, p + 1, 2) == 0 ==> Stored(mem, end, p + 3, before, DropsAByte).Some?
    requires StoredRefused(mem, end - 4, end, p, before)
    ensures Read(mem, p, 1) == 0 && StoredRefused(mem, end - 4, end, q, out)
  {
    hide Block, Stored;
    assert Read(mem, p, 1) == BitAt(mem, p) + 2 * Read(mem, p + 1, 0);
  }

  /** The checks on the two bytes of a zlib header. */
  method CheckHeader(cmf: Byte, flg: Byte) returns (ok: bool)
    ensures ok <==> ZlibHeader(cmf, flg)
  {
    HeaderMasks(cmf, flg);
    if And(cmf, 0xf) != 8 || Shr(cmf, 4) > 7 || And(flg, 0x20) != 0 {
      return false;
    }
    ok := Or(Shl(cmf, 8), flg) % 31 == 0;
  }

  lemma {:induction false} HeaderMasks(cmf: nat, flg: nat)
    requires flg < 0x100
    ensures And(cmf, 0xf) == cmf % 16 && Shr(cmf, 4) == cmf / 16
    ensures And(flg, 0x20) != 0 <==> flg / 32 % 2 == 1
    ensures Or(Shl(cmf, 8), flg) == 256 * cmf + flg
  {
    hide Or, Shl;
    assert And(cmf, 0xf) == cmf % 16 && Shr(cmf, 4) == cmf / 16 by { LowNibble(cmf); }
    assert And(flg, 0x20) != 0 <==> flg / 32 % 2 == 1 by { BitFive(flg); }
    OrCommutes(Shl(cmf, 8), flg);
    OrDisjoint(flg, cmf, 8);
    ShlByte(cmf);
  }

  lemma {:induction false} LowNibble(v: nat)
    ensures And(v, 0xf) == v % 16 && Shr(v, 4) == v / 16
  {
    hide And, Low;
    assert Shr(v, 4) == Shr(v / 2, 3);
    Shift3(v / 2, 0);
    var w := v / 16;
    assert Shl(w, 4) == 16 * w by { Shift3(w, 1); assert Shl(w, 1) == 2 * Shl(w, 0); }
    LowShr(v, 4);
    AndMask(v, 4);
  }

  lemma {:induction false} BitFive(v: nat)
    ensures And(v, 0x20) != 0 <==> v / 32 % 2 == 1
  {
    AndBit(v, 5);
    assert Shr(v, 5) == Shr(v / 2, 4);
    assert Shr(v / 2, 4) == Shr(v / 4, 3);
    Shift3(v / 4, 0);
  }

  lemma {:induction false} OrCommutes(a: nat, b: nat)
    ensures Or(a, b) == Or(b, a)
    decreases a + b
  {
    if a > 0 && b > 0 { OrCommutes(a / 2, b / 2); }
  }

  /** elf_zlib_inflate. A zlib stream, with the source's rule for where stored data begins, is inflated to the output
      that the reference decoder gives, exactly if the output buffer has its size and the stream is within the limits of
      the source; and where that rule refuses a block it never succeeds. */
  method Inflate(mem: seq<Byte>, start: nat, sin: nat, out: array<Byte>) returns (ok: bool)
    requires start + sin + 3 <= |mem|
    modifies out
    ensures var r := Zlib(mem, start, start + sin, DropsAByte);
            r.Some? ==>
              && (ok <==> out.Length == |r.value| && StreamFits(mem, start, start + sin, out.Length))
              && (ok ==> out[..] == r.value)
    ensures ZlibOffBoundary(mem, start, start + sin) ==>
              Zlib(mem, start, start + sin, DropsAByte) == Zlib(mem, start, start + sin, Standard)
    ensures ok && sin > 4 ==> !StoredRefused(mem, start + sin - 4, start + sin, 8 * (start + 2), [])
  {
    hide Read, Blocks, ZlibHeader, ZlibOffBoundary, StoredRefused, BlocksFit;
    if ZlibOffBoundary(mem, start, start + sin) {
      ZlibAgrees(mem, start, start + sin);
    }
    var end := start + sin;
    var pin: nat, pout: nat := start, 0;
    var litTable, distTable := new nat[TABLE_SIZE], new nat[TABLE_SIZE];
    ghost var r := Zlib(mem, start, end, DropsAByte);
    while end > pin + 4
      invariant pout <= out.Length && start <= pin
      invariant r.Some? ==> (pin == start && pout == 0) || (end <= pin + 4 && out[..pout] == r.value)
      invariant r.Some? ==> (pin == start && pout == 0) || StreamFits(mem, start, end, out.Length)
      invariant (pin == start && pout == 0) || (sin > 4 && !StoredRefused(mem, end - 4, end, 8 * (start + 2), []))
      invariant fresh(litTable) && fresh(distTable) && litTable != distTable
      invariant litTable.Length == distTable.Length == TABLE_SIZE
      decreases end - pin
    {
      ok := CheckHeader(mem[pin], mem[pin + 1]);
      if !ok {
        return;
      }
      var input := new Input(mem, pin + 2, end);
      input.Align();
      ghost var before := out[..pout];
      ok, pout := InflateBlocks(input, end - 4, litTable, distTable, out, pout);
      if !ok {
        return;
      }
      pin := input.pin;
    }
    assert out[..out.Length] == out[..];
    ok := pout == out.Length;
  }
}

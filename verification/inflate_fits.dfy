/** When elf_zlib_inflate succeeds: its limits on the input, on the output and on dynamic blocks. */
module InflateFits {
  import opened Bits
  import opened Deflate
  import opened HuffmanRoom
  import opened HuffmanComplete
  import opened Options

  // ----- Refilling the bit buffer -----

  /** A refill at bit position p finds 15 bits in the buffer, or four more bytes at the next aligned address. */
  predicate RefillsAt(end: nat, p: nat) {
    var pin := (p + 31) / 32 * 4;
    8 * pin - p >= 15 || pin + 4 <= end
  }

  /** Position p is not behind the checksum, nor in the last six bits before it if the last byte before it is at an
      address divisible by four. */
  predicate RefillsTo(end: nat, p: nat) { p + 32 <= 8 * end && (end % 4 == 3 ==> p + 39 <= 8 * end) }

  /** Four bytes of checksum are enough for the refills of the data before them, with one exception. */
  lemma {:induction false} RefillsIff(end: nat, p: nat)
    requires p + 32 <= 8 * end
    ensures RefillsAt(end, p) <==> RefillsTo(end, p)
  {
    var k, j := end / 4, end % 4;
    assert 8 * end == 32 * k + 8 * j;
    var i := (p + 31) / 32;
    assert 32 * i <= p + 31 < 32 * i + 32;
    if j == 3 {
      assert p <= 32 * k - 8;
      assert i <= k;
    } else {
      assert p + 31 < 32 * k + 32;
      assert i <= k;
    }
  }

  lemma {:induction false} RefillsBefore(end: nat, p: nat, q: nat)
    requires p <= q && RefillsTo(end, q)
    ensures RefillsAt(end, p) && RefillsTo(end, p)
  {
    RefillsIff(end, p);
  }

  // ----- Room for the output -----

  /** Conversion of a pointer difference to `unsigned int`. */
  function Unsigned(n: nat): nat { n % 0x1_0000_0000 }

  /** The tests on a match, after n of size bytes of output. */
  predicate MatchFits(n: nat, dist: nat, len: nat, size: nat): (r: bool)
    requires n <= size
    ensures r ==> n + len <= size
  {
    (if dist == 1 then n > 0 else dist <= Unsigned(n)) && len <= Unsigned(size - n)
  }

  /** The first symbol of a block. */
  lemma {:induction false} CodesStep(lit: seq<nat>, dist: seq<nat>, mem: seq<Byte>, lim: nat, p: nat, out: seq<Byte>)
    requires lim <= |mem| && Codes(lit, dist, mem, lim, p, out).Some?
    ensures var r := Codes(lit, dist, mem, lim, p, out);
            && Symbol(lit, mem, lim, p).Some?
            && var s := Symbol(lit, mem, lim, p).value;
            var p1 := p + lit[s];
            && p < p1 <= 8 * lim
            && (s < 256 ==> r == Codes(lit, dist, mem, lim, p1, out + [s]))
            && (s == 256 ==> r == Some(Progress(p1, out)))
            && (s > 256 ==>
                  && BackReference(s, dist, mem, lim, p1).Some?
                  && var m := BackReference(s, dist, mem, lim, p1).value;
                  m.dist <= |out| && r == Codes(lit, dist, mem, lim, m.p, LzCopy(out, m.dist, m.len)))
  {
    hide LzCopy, BackReference, Symbol;
  }

  /** The symbols of a block do not write more than size bytes, as far as the tests on matches can tell. */
  ghost predicate OutputFits(lit: seq<nat>, dist: seq<nat>, mem: seq<Byte>, lim: nat, p: nat, out: seq<Byte>, size: nat)
    requires lim <= |mem| && |out| <= size
    decreases 8 * lim - p
  {
    hide Symbol, BackReference, LzCopy, MatchFits;
    var s := Symbol(lit, mem, lim, p);
    if s.None? || s.value == 256 then true
    else if s.value < 256 then |out| < size && OutputFits(lit, dist, mem, lim, p + lit[s.value], out + [s.value], size)
    else
      var m := BackReference(s.value, dist, mem, lim, p + lit[s.value]);
      m.Some? && m.value.dist <= |out| ==>
        && MatchFits(|out|, m.value.dist, m.value.len, size)
        && OutputFits(lit, dist, mem, lim, m.value.p, LzCopy(out, m.value.dist, m.value.len), size)
  }

  /** The tests on the length of a stored block. */
  predicate StoredFits(mem: seq<Byte>, end: nat, p: nat, n: nat, size: nat)
    requires end <= |mem| && n <= size && DropsAByte.DataByte(p) + 4 <= end
  {
    var i := DropsAByte.DataByte(p);
    var len := LittleEndian(mem, i, 2);
    len <= Unsigned(end - i - 4) && len <= Unsigned(size - n)
  }

  // ----- Blocks -----

  /** A code that occurs has an end-of-block symbol, with which it ends. */
  lemma {:induction false} CodesEnd(lit: seq<nat>, dist: seq<nat>, mem: seq<Byte>, lim: nat, p: nat, out: seq<Byte>)
    requires lim <= |mem| && Codes(lit, dist, mem, lim, p, out).Some?
    ensures var r := Codes(lit, dist, mem, lim, p, out).value;
            |lit| > 256 && lit[256] > 0 && p + lit[256] <= r.p <= 8 * lim && |out| <= |r.out|
    decreases 8 * lim - p
  {
    hide LzCopy, BackReference, Symbol, Codes;
    CodesStep(lit, dist, mem, lim, p, out);
    var s := Symbol(lit, mem, lim, p).value;
    var p1 := p + lit[s];
    if s < 256 {
      CodesEnd(lit, dist, mem, lim, p1, out + [s]);
    } else if s > 256 {
      var m := BackReference(s, dist, mem, lim, p1).value;
      CodesEnd(lit, dist, mem, lim, m.p, LzCopy(out, m.dist, m.len));
    }
  }

  /** The position of the end-of-block code. */
  ghost function LastRefill(lit: seq<nat>, dist: seq<nat>, mem: seq<Byte>, lim: nat, p: nat, out: seq<Byte>): (q: nat)
    requires lim <= |mem| && Codes(lit, dist, mem, lim, p, out).Some?
    ensures p <= q < Codes(lit, dist, mem, lim, p, out).value.p <= 8 * lim
  {
    CodesEnd(lit, dist, mem, lim, p, out);
    Codes(lit, dist, mem, lim, p, out).value.p - lit[256]
  }

  /** What the first symbol does to the room and to the last refill. */
  lemma {:induction false} FitStep(lit: seq<nat>, dist: seq<nat>, mem: seq<Byte>, lim: nat, p: nat, out: seq<Byte>,
                                   size: nat)
    requires lim <= |mem| && |out| <= size && Codes(lit, dist, mem, lim, p, out).Some?
    ensures Symbol(lit, mem, lim, p).Some?
    ensures var s := Symbol(lit, mem, lim, p).value;
            var p1 := p + lit[s];
            var f := OutputFits(lit, dist, mem, lim, p, out, size);
            var q := LastRefill(lit, dist, mem, lim, p, out);
            && (s < 256 ==>
                  && Codes(lit, dist, mem, lim, p1, out + [s]).Some?
                  && q == LastRefill(lit, dist, mem, lim, p1, out + [s])
                  && (f <==> |out| < size && OutputFits(lit, dist, mem, lim, p1, out + [s], size)))
            && (s == 256 ==> f && q == p)
            && (s > 256 ==>
                  && BackReference(s, dist, mem, lim, p1).Some?
                  && var m := BackReference(s, dist, mem, lim, p1).value;
                  && m.dist <= |out|
                  && var next := LzCopy(out, m.dist, m.len);
                  && Codes(lit, dist, mem, lim, m.p, next).Some?
                  && q == LastRefill(lit, dist, mem, lim, m.p, next)
                  && (f <==> MatchFits(|out|, m.dist, m.len, size)
                             && OutputFits(lit, dist, mem, lim, m.p, next, size)))
  {
    hide LzCopy, BackReference, Symbol, Codes, MatchFits;
    CodesStep(lit, dist, mem, lim, p, out);
  }

  /** If the end-of-block code is begun in time, then so is every refill for the first symbol. */
  lemma {:induction false} RefillsStep(lit: seq<nat>, dist: seq<nat>, mem: seq<Byte>, lim: nat, p: nat, out: seq<Byte>,
                                       end: nat)
    requires lim <= |mem| && Codes(lit, dist, mem, lim, p, out).Some?
    requires RefillsTo(end, LastRefill(lit, dist, mem, lim, p, out))
    ensures RefillsAt(end, p) && Symbol(lit, mem, lim, p).Some?
    ensures var s := Symbol(lit, mem, lim, p).value;
            var p1 := p + lit[s];
            s > 256 ==>
              && RefillsAt(end, p1) && BackReference(s, dist, mem, lim, p1).Some?
              && RefillsTo(end, BackReference(s, dist, mem, lim, p1).value.p)
  {
    hide LzCopy, BackReference, Symbol, Codes, LastRefill, RefillsAt, RefillsTo;
    CodesStep(lit, dist, mem, lim, p, out);
    FitStep(lit, dist, mem, lim, p, out, |out|);
    var q := LastRefill(lit, dist, mem, lim, p, out);
    RefillsBefore(end, p, q);
    var s := Symbol(lit, mem, lim, p).value;
    var p1 := p + lit[s];
    if s > 256 {
      RefillsBefore(end, p1, q);
      RefillsBefore(end, BackReference(s, dist, mem, lim, p1).value.p, q);
    }
  }

  lemma {:induction false} ReferenceParts(s: nat, dist: seq<nat>, mem: seq<Byte>, lim: nat, p: nat)
    requires lim <= |mem| && s >= 257 && BackReference(s, dist, mem, lim, p).Some?
    ensures Length(s, mem, lim, p).Some?
    ensures var l := Length(s, mem, lim, p).value;
            && Distance(dist, mem, lim, l.1).Some?
            && var d := Distance(dist, mem, lim, l.1).value;
            BackReference(s, dist, mem, lim, p) == Some(Match(l.0, d.0, d.1))
  {
    hide Length, Distance;
  }

  /** The symbols fit, and the end-of-block code is not begun too late for a refill. */
  ghost predicate CodedFits(lit: seq<nat>, dist: seq<nat>, mem: seq<Byte>, end: nat, p: nat, out: seq<Byte>, size: nat)
    requires 4 <= end <= |mem| && |out| <= size && Codes(lit, dist, mem, end - 4, p, out).Some?
  {
    OutputFits(lit, dist, mem, end - 4, p, out, size) && RefillsTo(end, LastRefill(lit, dist, mem, end - 4, p, out))
  }

  /** The limits on the codes of a dynamic block: at most 30 distances, and room in both tables. */
  ghost predicate HeaderFits(h: Header) { |h.dist| <= 30 && Room(h.lit) && Room(h.dist) }

  ghost predicate BlockFits(kind: nat, mem: seq<Byte>, end: nat, p: nat, out: seq<Byte>, size: nat)
    requires 4 <= end <= |mem| && |out| <= size && Block(kind, mem, end - 4, p, out, DropsAByte).Some?
  {
    if kind == 0 then StoredFits(mem, end, p, |out|, size)
    else
      var h := BlockCodes(kind, mem, end - 4, p).value;
      (kind == 2 ==> HeaderFits(h)) && CodedFits(h.lit, h.dist, mem, end, h.p, out, size)
  }

  /** All blocks from position p on are within the limits; the last four of the first end bytes are the checksum. */
  ghost predicate BlocksFit(mem: seq<Byte>, end: nat, p: nat, out: seq<Byte>, size: nat)
    requires 4 <= end <= |mem| && |out| <= size
    decreases 8 * end - p
  {
    hide Block, BlockFits, BitAt;
    p + 35 <= 8 * end ==>
      var kind := Read(mem, p + 1, 2);
      var b := Block(kind, mem, end - 4, p + 3, out, DropsAByte);
      b.Some? ==>
        && BlockFits(kind, mem, end, p + 3, out, size)
        && (BitAt(mem, p) == 1 || (|b.value.out| <= size && BlocksFit(mem, end, b.value.p, b.value.out, size)))
  }

  /** The first block. */
  lemma {:induction false} BlocksStep(mem: seq<Byte>, lim: nat, p: nat, out: seq<Byte>, align: Alignment)
    requires lim <= |mem| && Blocks(mem, lim, p, out, align).Some?
    ensures p + 3 <= 8 * lim
    ensures var r := Blocks(mem, lim, p, out, align);
            var b := Block(Read(mem, p + 1, 2), mem, lim, p + 3, out, align);
            b.Some? && r == if Read(mem, p, 1) == 1 then b else Blocks(mem, lim, b.value.p, b.value.out, align)
  {
    assert Read(mem, p, 1) == BitAt(mem, p) + 2 * Read(mem, p + 1, 0);
  }

  lemma {:induction false} BlocksFitStep(mem: seq<Byte>, end: nat, p: nat, out: seq<Byte>, size: nat)
    requires 4 <= end <= |mem| && |out| <= size && Blocks(mem, end - 4, p, out, DropsAByte).Some?
    ensures p + 35 <= 8 * end
    ensures var kind := Read(mem, p + 1, 2);
            && Block(kind, mem, end - 4, p + 3, out, DropsAByte).Some?
            && var b := Block(kind, mem, end - 4, p + 3, out, DropsAByte).value;
            BlocksFit(mem, end, p, out, size) <==>
              && BlockFits(kind, mem, end, p + 3, out, size)
              && (Read(mem, p, 1) == 1 || (|b.out| <= size && BlocksFit(mem, end, b.p, b.out, size)))
  {
    hide Block, BlockFits;
    assert Read(mem, p, 1) == BitAt(mem, p) + 2 * Read(mem, p + 1, 0);
  }

  /** A block within the limits is begun in time for the refill for its header, three bits before. */
  lemma {:induction false} HeaderRefills(kind: nat, mem: seq<Byte>, end: nat, p: nat, out: seq<Byte>, size: nat)
    requires 4 <= end <= |mem| && |out| <= size && Block(kind, mem, end - 4, p + 3, out, DropsAByte).Some?
    requires BlockFits(kind, mem, end, p + 3, out, size)
    ensures RefillsAt(end, p)
  {
    hide RefillsAt, Codes, Room, OutputFits, LastRefill, BlockCodes, LittleEndian;
    if kind == 0 {
      RefillsIff(end, p);
    } else {
      var h := BlockCodes(kind, mem, end - 4, p + 3).value;
      RefillsBefore(end, p, LastRefill(h.lit, h.dist, mem, end - 4, h.p, out));
    }
  }

  /** The one zlib stream that fills mem[start..end] is within the limits, for an output buffer of this size. */
  ghost predicate StreamFits(mem: seq<Byte>, start: nat, end: nat, size: nat)
    requires end <= |mem|
  {
    end >= 4 && BlocksFit(mem, end, 8 * (start + 2), [], size)
  }

  // ----- The limits on buffers below 4 GiB -----

  /**
   * The limits on a block that are left when no difference of pointers is too large for `unsigned int`: those on the
   * codes of a dynamic block, and that, if the last byte before the checksum is at an address divisible by four, the
   * end-of-block code of a last block begins at least seven bits before the checksum.
   */
  ghost predicate BlockWithin(kind: nat, mem: seq<Byte>, end: nat, p: nat, out: seq<Byte>, last: bool)
    requires 4 <= end <= |mem|
  {
    hide Codes, BlockCodes, LastRefill, HeaderFits;
    var c := BlockCodes(kind, mem, end - 4, p);
    kind != 0 && c.Some? && Codes(c.value.lit, c.value.dist, mem, end - 4, c.value.p, out).Some? ==>
      var h := c.value;
      && (kind == 2 ==> HeaderFits(h))
      && (last && end % 4 == 3 ==> LastRefill(h.lit, h.dist, mem, end - 4, h.p, out) + 39 <= 8 * end)
  }

  ghost predicate WithinLimits(mem: seq<Byte>, end: nat, p: nat, out: seq<Byte>)
    requires 4 <= end <= |mem|
    decreases 8 * end - p
  {
    p + 35 <= 8 * end ==>
      var b := Block(Read(mem, p + 1, 2), mem, end - 4, p + 3, out, DropsAByte);
      b.Some? ==>
        && BlockWithin(Read(mem, p + 1, 2), mem, end, p + 3, out, BitAt(mem, p) == 1)
        && (BitAt(mem, p) == 1 || WithinLimits(mem, end, b.value.p, b.value.out))
  }

  /** Output that is no longer than its buffer fits. */
  lemma {:induction false} SmallFits(lit: seq<nat>, dist: seq<nat>, mem: seq<Byte>, lim: nat, p: nat, out: seq<Byte>,
                                     size: nat)
    requires lim <= |mem| && Codes(lit, dist, mem, lim, p, out).Some? && size < 0x1_0000_0000
    requires |out| <= size
    ensures OutputFits(lit, dist, mem, lim, p, out, size) <==>
              |Codes(lit, dist, mem, lim, p, out).value.out| <= size
    decreases 8 * lim - p
  {
    hide LzCopy, BackReference, Symbol, Codes, OutputFits, LastRefill;
    CodesStep(lit, dist, mem, lim, p, out);
    FitStep(lit, dist, mem, lim, p, out, size);
    var s := Symbol(lit, mem, lim, p).value;
    var p1 := p + lit[s];
    if s < 256 {
      CodesEnd(lit, dist, mem, lim, p1, out + [s]);
      if |out| < size { SmallFits(lit, dist, mem, lim, p1, out + [s], size); }
    } else if s > 256 {
      var m := BackReference(s, dist, mem, lim, p1).value;
      var next := LzCopy(out, m.dist, m.len);
      CodesEnd(lit, dist, mem, lim, m.p, next);
      if |next| <= size { SmallFits(lit, dist, mem, lim, m.p, next, size); }
    }
  }

  lemma {:induction false} StoredSmallFits(mem: seq<Byte>, end: nat, p: nat, out: seq<Byte>, size: nat)
    requires 4 <= end <= |mem| && Stored(mem, end - 4, p, out, DropsAByte).Some? && |out| <= size < 0x1_0000_0000
    requires end - p / 8 <= 0x1_0000_0000
    ensures StoredFits(mem, end, p, |out|, size) <==> |Stored(mem, end - 4, p, out, DropsAByte).value.out| <= size
  {
    hide LittleEndian;
  }

  /** Every block has at least seven bits after its header. */
  lemma {:induction false} BlockIsLong(kind: nat, mem: seq<Byte>, lim: nat, p: nat, out: seq<Byte>)
    requires lim <= |mem| && Block(kind, mem, lim, p, out, DropsAByte).Some?
    ensures p + 7 <= 8 * lim
  {
    hide Codes, LittleEndian, Read, FixedLit, FixedDist, CodedLengths;
    if kind == 1 {
      assert FixedLit()[256] == 7 by { FixedEnd(); }
      CodesEnd(FixedLit(), FixedDist(), mem, lim, p, out);
    }
  }

  lemma {:induction false} FixedEnd()
    ensures |FixedLit()| == 288 && FixedLit()[256] == 7
  {
  }

  /** A block does not shorten the output. */
  lemma {:induction false} BlockGrows(kind: nat, mem: seq<Byte>, lim: nat, p: nat, out: seq<Byte>)
    requires lim <= |mem| && Block(kind, mem, lim, p, out, DropsAByte).Some?
    ensures |out| <= |Block(kind, mem, lim, p, out, DropsAByte).value.out|
  {
    hide Codes, BlockCodes, LittleEndian;
    if kind != 0 {
      var h := BlockCodes(kind, mem, lim, p).value;
      CodesEnd(h.lit, h.dist, mem, lim, h.p, out);
    }
  }

  lemma {:induction false} BlocksGrow(mem: seq<Byte>, end: nat, p: nat, out: seq<Byte>)
    requires 4 <= end <= |mem| && Blocks(mem, end - 4, p, out, DropsAByte).Some?
    ensures |out| <= |Blocks(mem, end - 4, p, out, DropsAByte).value.out|
    decreases 8 * end - p
  {
    hide Block, Read, Blocks;
    BlocksStep(mem, end - 4, p, out, DropsAByte);
    var kind := Read(mem, p + 1, 2);
    BlockGrows(kind, mem, end - 4, p + 3, out);
    if Read(mem, p, 1) != 1 {
      var b := Block(kind, mem, end - 4, p + 3, out, DropsAByte).value;
      BlocksGrow(mem, end, b.p, b.out);
    }
  }

  /** A block below 4 GiB, which is the last or has seven bits after it. */
  lemma {:induction false} BlockFitsIff(kind: nat, mem: seq<Byte>, end: nat, p: nat, out: seq<Byte>, size: nat,
                                        last: bool)
    requires 4 <= end <= |mem| && |out| <= size < 0x1_0000_0000 && end - p / 8 <= 0x1_0000_0000
    requires Block(kind, mem, end - 4, p, out, DropsAByte).Some?
    requires !last ==> Block(kind, mem, end - 4, p, out, DropsAByte).value.p + 39 <= 8 * end
    ensures BlockFits(kind, mem, end, p, out, size) <==>
              && |Block(kind, mem, end - 4, p, out, DropsAByte).value.out| <= size
              && BlockWithin(kind, mem, end, p, out, last)
  {
    hide Codes, Stored, StoredFits, OutputFits, LastRefill, HeaderFits, BlockCodes;
    if kind == 0 {
      StoredSmallFits(mem, end, p, out, size);
    } else {
      var h := BlockCodes(kind, mem, end - 4, p).value;
      SmallFits(h.lit, h.dist, mem, end - 4, h.p, out, size);
    }
  }

  lemma {:induction false} WithinStep(mem: seq<Byte>, end: nat, p: nat, out: seq<Byte>)
    requires 4 <= end <= |mem| && p + 35 <= 8 * end
    requires Block(Read(mem, p + 1, 2), mem, end - 4, p + 3, out, DropsAByte).Some?
    ensures var kind := Read(mem, p + 1, 2);
            var b := Block(kind, mem, end - 4, p + 3, out, DropsAByte).value;
            WithinLimits(mem, end, p, out) <==>
              && BlockWithin(kind, mem, end, p + 3, out, Read(mem, p, 1) == 1)
              && (Read(mem, p, 1) == 1 || WithinLimits(mem, end, b.p, b.out))
  {
    hide Block, BlockWithin, Read, BitAt;
    ReadFirst(mem, p, 1);
    ReadNone(mem, p + 1);
  }

  /** Below 4 GiB these are the limits, with room for the output. */
  lemma {:induction false} LimitsIff(mem: seq<Byte>, end: nat, p: nat, out: seq<Byte>, size: nat)
    requires 4 <= end <= |mem| && |out| <= size < 0x1_0000_0000 && end - p / 8 <= 0x1_0000_0000
    requires Blocks(mem, end - 4, p, out, DropsAByte).Some?
    ensures BlocksFit(mem, end, p, out, size) <==>
              |Blocks(mem, end - 4, p, out, DropsAByte).value.out| <= size && WithinLimits(mem, end, p, out)
    decreases 8 * end - p
  {
    hide Block, BlockFits, BlockWithin, Read, Blocks, BlocksFit, WithinLimits;
    BlocksStep(mem, end - 4, p, out, DropsAByte);
    BlocksFitStep(mem, end, p, out, size);
    WithinStep(mem, end, p, out);
    var kind := Read(mem, p + 1, 2);
    var b := Block(kind, mem, end - 4, p + 3, out, DropsAByte).value;
    var last := Read(mem, p, 1) == 1;
    if !last {
      BlocksStep(mem, end - 4, b.p, b.out, DropsAByte);
      BlockIsLong(Read(mem, b.p + 1, 2), mem, end - 4, b.p + 3, b.out);
      BlocksGrow(mem, end, b.p, b.out);
      if |b.out| <= size { LimitsIff(mem, end, b.p, b.out, size); }
    }
    BlockFitsIff(kind, mem, end, p + 3, out, size, last);
  }

  /** The limits on a whole stream whose input and output are shorter than 4 GiB. */
  lemma {:induction false} StreamLimitsIff(mem: seq<Byte>, start: nat, end: nat)
    requires start <= end <= |mem| && Zlib(mem, start, end, DropsAByte).Some?
    requires end - start < 0x1_0000_0000 && |Zlib(mem, start, end, DropsAByte).value| < 0x1_0000_0000
    ensures StreamFits(mem, start, end, |Zlib(mem, start, end, DropsAByte).value|) <==>
              WithinLimits(mem, end, 8 * (start + 2), [])
  {
    hide Blocks, BlocksFit, WithinLimits, ZlibHeader;
    LimitsIff(mem, end, 8 * (start + 2), [], |Zlib(mem, start, end, DropsAByte).value|);
  }

  /** Complete codes for at most 30 distances are within the limits. */
  lemma {:induction false} CompleteFits(h: Header)
    requires Complete(h.lit) && Complete(h.dist) && |h.lit| <= 286 && |h.dist| <= 30
    ensures HeaderFits(h)
  {
    hide Complete, Room;
    CompleteHasRoom(h.lit);
    CompleteHasRoom(h.dist);
  }

  /** An end-of-block code of seven bits or more before the checksum begins in time. */
  lemma {:induction false} LongEndCode(h: Header, mem: seq<Byte>, end: nat, out: seq<Byte>)
    requires 4 <= end <= |mem| && Codes(h.lit, h.dist, mem, end - 4, h.p, out).Some?
    requires |h.lit| > 256 && h.lit[256] >= 7
    ensures LastRefill(h.lit, h.dist, mem, end - 4, h.p, out) + 39 <= 8 * end
  {
    hide Codes;
  }
}

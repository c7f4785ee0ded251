/** A whole stream in which a stored block's header ends on a byte boundary: the source does not decode it. */
module StoredBoundary {
  import opened Bits
  import opened BitStrings
  import opened CanonicalCode
  import opened Deflate
  import opened FixedTables
  import opened Inflate
  import opened Options

  /**
   * A zlib stream: its header, a block with fixed codes of three literals 144 and the end of block, the header of a
   * last block, which is stored and so starts at byte 7, the byte 7 in it, and the checksum. Three more bytes follow,
   * which aligned reads may touch.
   */
  const STREAM: seq<Byte> := [0x78, 0x01, 0x9a, 0x30, 0x61, 0x02, 0x20, 0x01, 0x00, 0xfe, 0xff, 0x07, 0x05, 0x1b, 0x01,
                              0xb8] + [0, 0, 0]

  const SIZE: nat := 16

  /** The number with these bits, the least significant first. */
  function Lsb(bits: seq<nat>): nat { if bits == [] then 0 else bits[0] + 2 * Lsb(bits[1..]) }

  lemma {:induction false} ShrBits(bits: seq<nat>, k: nat)
    requires k < |bits| && forall i :: 0 <= i < |bits| ==> bits[i] < 2
    ensures Shr(Lsb(bits), k) % 2 == bits[k]
  {
    if k > 0 { ShrBits(bits[1..], k - 1); }
  }

  lemma {:induction false} ByteHas(mem: seq<Byte>, i: nat, bits: seq<nat>)
    requires i < |mem| && |bits| == 8 && Lsb(bits) == mem[i] && forall k :: 0 <= k < 8 ==> bits[k] < 2
    ensures BitsAre(mem, 8 * i, bits)
  {
    hide Shr, Lsb;
    forall k | 0 <= k < 8
      ensures BitAt(mem, 8 * i + k) == bits[k]
    {
      ShrBits(bits, k);
    }
  }

  function Msb(bits: seq<nat>): nat {
    if bits == [] then 0 else 2 * Msb(bits[..|bits| - 1]) + bits[|bits| - 1]
  }

  lemma {:induction false} ReadsMsb(mem: seq<Byte>, p: nat, bits: seq<nat>)
    requires BitsAre(mem, p, bits)
    ensures ReadMsb(mem, p, |bits|) == Msb(bits)
    decreases |bits|
  {
    hide BitAt;
    if bits != [] {
      var n := |bits| - 1;
      assert BitAt(mem, p + n) == bits[n];
      ReadsMsb(mem, p, bits[..n]);
    }
  }

  const LITERAL: seq<nat> := [1, 1, 0, 0, 1, 0, 0, 0, 0]
  const END: seq<nat> := [0, 0, 0, 0, 0, 0, 0]

  lemma {:induction false} MsbThree(bits: seq<nat>)
    requires |bits| >= 3
    ensures var n := |bits| - 3; Msb(bits) == 8 * Msb(bits[..n]) + 4 * bits[n] + 2 * bits[n + 1] + bits[n + 2]
  {
    var n := |bits| - 3;
    assert bits[..n + 2][..n + 1] == bits[..n + 1] && bits[..n + 1][..n] == bits[..n];
    assert Msb(bits[..n + 2]) == 2 * Msb(bits[..n + 1]) + bits[n + 1];
    assert Msb(bits[..n + 1]) == 2 * Msb(bits[..n]) + bits[n];
  }

  lemma {:induction false} CodeValues()
    ensures Msb(LITERAL) == 400 && Msb(END) == 0
  {
    hide Msb;
    var b := LITERAL;
    MsbThree(b);
    MsbThree(b[..6]);
    MsbThree(b[..3]);
    assert b[..6][..3] == b[..3] && b[..3][..0] == [];
    AllZero(b[..3][..0]);
    AllZero(END);
  }

  lemma {:induction false} AllZero(bits: seq<nat>)
    requires forall k :: 0 <= k < |bits| ==> bits[k] == 0
    ensures Msb(bits) == 0
    decreases |bits|
  {
    if bits != [] { AllZero(bits[..|bits| - 1]); }
  }

  // The bits of bytes 2 to 6.
  const BYTE2: seq<nat> := [0, 1, 0, 1, 1, 0, 0, 1]
  const BYTE3: seq<nat> := [0, 0, 0, 0, 1, 1, 0, 0]
  const BYTE4: seq<nat> := [1, 0, 0, 0, 0, 1, 1, 0]
  const BYTE5: seq<nat> := [0, 1, 0, 0, 0, 0, 0, 0]
  const BYTE6: seq<nat> := [0, 0, 0, 0, 0, 1, 0, 0]

  lemma {:induction false} EightBits(b: seq<nat>)
    requires |b| == 8
    ensures Lsb(b) == b[0] + 2 * b[1] + 4 * b[2] + 8 * b[3] + 16 * b[4] + 32 * b[5] + 64 * b[6] + 128 * b[7]
  {
    hide Lsb;
    TwoBits(b);
    TwoBits(b[2..]);
    TwoBits(b[4..]);
    TwoBits(b[6..]);
    assert b[2..][2..] == b[4..] && b[4..][2..] == b[6..];
    NoBits(b[6..][2..]);
  }

  lemma {:induction false} TwoBits(b: seq<nat>)
    requires |b| >= 2
    ensures Lsb(b) == b[0] + 2 * b[1] + 4 * Lsb(b[2..])
  {
    assert b[1..][1..] == b[2..];
  }

  lemma {:induction false} NoBits(b: seq<nat>)
    requires b == []
    ensures Lsb(b) == 0
  {
  }

  lemma {:induction false} Byte2Bits()
    ensures BitsAre(STREAM, 16, [0, 1, 0]) && BitsAre(STREAM, 19, [1, 1, 0, 0, 1])
  {
    hide BitsAre, Lsb;
    EightBits(BYTE2);
    ByteHas(STREAM, 2, BYTE2);
    assert BYTE2 == [0, 1, 0] + [1, 1, 0, 0, 1];
    Split(STREAM, 16, [0, 1, 0], [1, 1, 0, 0, 1]);
  }

  lemma {:induction false} Byte3Bits()
    ensures BitsAre(STREAM, 24, [0, 0, 0, 0]) && BitsAre(STREAM, 28, [1, 1, 0, 0])
  {
    hide BitsAre, Lsb;
    EightBits(BYTE3);
    ByteHas(STREAM, 3, BYTE3);
    assert BYTE3 == [0, 0, 0, 0] + [1, 1, 0, 0];
    Split(STREAM, 24, [0, 0, 0, 0], [1, 1, 0, 0]);
  }

  lemma {:induction false} Byte4Bits()
    ensures BitsAre(STREAM, 32, [1, 0, 0, 0, 0]) && BitsAre(STREAM, 37, [1, 1, 0])
  {
    hide BitsAre, Lsb;
    EightBits(BYTE4);
    ByteHas(STREAM, 4, BYTE4);
    assert BYTE4 == [1, 0, 0, 0, 0] + [1, 1, 0];
    Split(STREAM, 32, [1, 0, 0, 0, 0], [1, 1, 0]);
  }

  lemma {:induction false} Byte5Bits()
    ensures BitsAre(STREAM, 40, [0, 1, 0, 0, 0, 0]) && BitsAre(STREAM, 46, [0, 0])
  {
    hide BitsAre, Lsb;
    EightBits(BYTE5);
    ByteHas(STREAM, 5, BYTE5);
    assert BYTE5 == [0, 1, 0, 0, 0, 0] + [0, 0];
    Split(STREAM, 40, [0, 1, 0, 0, 0, 0], [0, 0]);
  }

  lemma {:induction false} Byte6Bits()
    ensures BitsAre(STREAM, 48, [0, 0, 0, 0, 0]) && BitsAre(STREAM, 53, [1, 0, 0])
  {
    hide BitsAre, Lsb;
    EightBits(BYTE6);
    ByteHas(STREAM, 6, BYTE6);
    assert BYTE6 == [0, 0, 0, 0, 0] + [1, 0, 0];
    Split(STREAM, 48, [0, 0, 0, 0, 0], [1, 0, 0]);
  }

  lemma {:induction false} StreamBits()
    ensures BitsAre(STREAM, 16, [0, 1, 0]) && BitsAre(STREAM, 19, LITERAL) && BitsAre(STREAM, 28, LITERAL)
    ensures BitsAre(STREAM, 37, LITERAL) && BitsAre(STREAM, 46, END) && BitsAre(STREAM, 53, [1, 0, 0])
  {
    hide BitsAre;
    Byte2Bits();
    Byte3Bits();
    Byte4Bits();
    Byte5Bits();
    Byte6Bits();
    Join(STREAM, 19, [1, 1, 0, 0, 1], [0, 0, 0, 0]);
    Join(STREAM, 28, [1, 1, 0, 0], [1, 0, 0, 0, 0]);
    Join(STREAM, 37, [1, 1, 0], [0, 1, 0, 0, 0, 0]);
    Join(STREAM, 46, [0, 0], [0, 0, 0, 0, 0]);
    assert [1, 1, 0, 0, 1] + [0, 0, 0, 0] == LITERAL && [1, 1, 0, 0] + [1, 0, 0, 0, 0] == LITERAL;
    assert [1, 1, 0] + [0, 1, 0, 0, 0, 0] == LITERAL && [0, 0] + [0, 0, 0, 0, 0] == END;
  }

  const LIMIT: nat := 12

  lemma {:induction false} LiteralHere(p: nat)
    requires p + 9 <= 8 * LIMIT && BitsAre(STREAM, p, LITERAL)
    ensures FixedLit()[144] == 9 && Symbol(FixedLit(), STREAM, LIMIT, p) == Some(144)
  {
    hide FixedLit, Msb, BitAt, Code;
    FixedLitSizes();
    CodeValues();
    ReadsMsb(STREAM, p, LITERAL);
    FixedLitCode(144);
    SymbolIs(FixedLit(), STREAM, LIMIT, p, 144);
  }

  lemma {:induction false} EndHere(p: nat)
    requires p + 7 <= 8 * LIMIT && BitsAre(STREAM, p, END)
    ensures FixedLit()[256] == 7 && Symbol(FixedLit(), STREAM, LIMIT, p) == Some(256)
  {
    hide FixedLit, Msb, BitAt, Code;
    FixedLitSizes();
    CodeValues();
    ReadsMsb(STREAM, p, END);
    FixedLitCode(256);
    SymbolIs(FixedLit(), STREAM, LIMIT, p, 256);
  }

  lemma {:induction false} FixedLitSizes()
    ensures |FixedLit()| == 288 && FixedLit()[144] == 9 && FixedLit()[256] == 7
  {
  }

  /** The first block. */
  lemma {:induction false} FirstBlock()
    ensures Codes(FixedLit(), FixedDist(), STREAM, LIMIT, 19, []) == Some(Progress(53, [144, 144, 144]))
  {
    hide FixedLit, FixedDist, BitAt, Symbol;
    StreamBits();
    LiteralHere(19);
    LiteralHere(28);
    LiteralHere(37);
    EndHere(46);
    var lit, dist := FixedLit(), FixedDist();
    var one, two, three: seq<Byte> := [144], [144, 144], [144, 144, 144];
    assert [] + one == one && one + one == two && two + one == three;
    assert Codes(lit, dist, STREAM, LIMIT, 46, three) == Some(Progress(53, three));
    assert Codes(lit, dist, STREAM, LIMIT, 37, two) == Codes(lit, dist, STREAM, LIMIT, 46, three);
    assert Codes(lit, dist, STREAM, LIMIT, 28, one) == Codes(lit, dist, STREAM, LIMIT, 37, two);
  }

  lemma {:induction false} TwoBytes(mem: seq<Byte>, i: nat)
    requires i + 2 <= |mem|
    ensures LittleEndian(mem, i, 2) == mem[i] as int + 256 * (mem[i + 1] as int)
  {
    assert LittleEndian(mem, i + 1, 1) == mem[i + 1] as int + 256 * LittleEndian(mem, i + 2, 0);
  }

  /** The second block: the source looks for its length one byte too far. */
  lemma {:induction false} SecondBlock()
    ensures var out: seq<Byte> := [144, 144, 144];
            && Stored(STREAM, LIMIT, 56, out, Standard) == Some(Progress(96, [144, 144, 144, 7]))
            && Stored(STREAM, LIMIT, 56, out, DropsAByte) == None
            && Stored(STREAM, SIZE, 56, out, DropsAByte) == None
  {
    hide LittleEndian;
    TwoBytes(STREAM, 7);
    TwoBytes(STREAM, 8);
    TwoBytes(STREAM, 9);
    TwoBytes(STREAM, 10);
    assert STREAM[11..12] == [7];
    var out: seq<Byte> := [144, 144, 144];
    assert out + [7] == [144, 144, 144, 7];
  }

  /** The bits of the two block headers. */
  lemma {:induction false} BlockHeaders()
    ensures BitAt(STREAM, 16) == 0 && Read(STREAM, 17, 2) == 1
    ensures BitAt(STREAM, 53) == 1 && Read(STREAM, 54, 2) == 0
  {
    hide BitAt;
    StreamBits();
    var first, last: seq<nat> := [0, 1, 0], [1, 0, 0];
    assert BitAt(STREAM, 16) == first[0] && BitAt(STREAM, 16 + 1) == first[1] && BitAt(STREAM, 16 + 2) == first[2];
    assert BitAt(STREAM, 53) == last[0] && BitAt(STREAM, 53 + 1) == last[1] && BitAt(STREAM, 53 + 2) == last[2];
    assert Read(STREAM, 18, 1) == BitAt(STREAM, 18) + 2 * Read(STREAM, 19, 0);
    assert Read(STREAM, 55, 1) == BitAt(STREAM, 55) + 2 * Read(STREAM, 56, 0);
  }

  /** The standard decodes the stream, and with the source's rule for stored data it cannot be decoded. */
  lemma {:induction false} BoundaryCounterexample()
    ensures Zlib(STREAM, 0, SIZE, Standard) == Some([144, 144, 144, 7])
    ensures Zlib(STREAM, 0, SIZE, DropsAByte) == None
  {
    hide Codes, Stored, BitAt, Read, FixedLit, FixedDist;
    BlockHeaders();
    FirstBlock();
    SecondBlock();
    BothBlocks(Standard);
    BothBlocks(DropsAByte);
  }

  /** elf_zlib_inflate refuses the stream. */
  method InflateBoundary(out: array<Byte>) returns (ok: bool)
    modifies out
    ensures !ok
  {
    hide Zlib, ZlibOffBoundary, StoredRefused;
    BoundaryRefused();
    ok := Inflate.Inflate(STREAM, 0, SIZE, out);
  }

  /** After the first block, the source does not find the length of the second and its complement. */
  lemma {:induction false} BoundaryRefused()
    ensures StoredRefused(STREAM, LIMIT, SIZE, 16, [])
  {
    hide Codes, Stored, BitAt, Read, FixedLit, FixedDist;
    BlockHeaders();
    FirstBlock();
    SecondBlock();
    assert StoredRefused(STREAM, LIMIT, SIZE, 53, [144, 144, 144]);
  }

  lemma {:induction false} BothBlocks(align: Alignment)
    requires BitAt(STREAM, 16) == 0 && Read(STREAM, 17, 2) == 1 && BitAt(STREAM, 53) == 1 && Read(STREAM, 54, 2) == 0
    requires Codes(FixedLit(), FixedDist(), STREAM, LIMIT, 19, []) == Some(Progress(53, [144, 144, 144]))
    ensures Blocks(STREAM, LIMIT, 16, [], align) == Stored(STREAM, LIMIT, 56, [144, 144, 144], align)
  {
    hide Codes, Stored, BitAt, Read, FixedLit, FixedDist;
    assert Blocks(STREAM, LIMIT, 53, [144, 144, 144], align) == Stored(STREAM, LIMIT, 56, [144, 144, 144], align);
  }
}

/** Writing whole zlib streams, from RFC 1950 (section 2.2) and RFC 1951 (sections 3.2.3 to 3.2.7): they are decoded to
    what was written, and elf_zlib_inflate inflates them. */
module DeflateStream {
  import opened Bits
  import opened BitStrings
  import opened CanonicalCode
  import opened Deflate
  import opened DeflateEncode
  import opened FixedTables
  import opened HuffmanRoom
  import opened InflateFits
  import opened Options
  import Inflate

  /** A block before it is written. */
  datatype Text = Plainly(bytes: seq<Byte>)
                | Fixed(tokens: seq<Token>)
                | Dynamic(c: Coded, lit: seq<nat>, dist: seq<nat>, tokens: seq<Token>) {
    /** The block can be written after n bytes of output. */
    ghost predicate Valid(n: nat) {
      match this
      case Plainly(bytes) => |bytes| < 0x1_0000
      case Fixed(ts) => ValidTokens(ts, FixedLit(), FixedDist(), n)
      case Dynamic(c, lit, dist, ts) => Describes(c, lit, dist) && lit[256] > 0 && ValidTokens(ts, lit, dist, n)
    }

    function Kind(): (k: nat)
      ensures k <= 2
    {
      match this
      case Plainly(_) => 0
      case Fixed(_) => 1
      case Dynamic(_, _, _, _) => 2
    }

    ghost function Output(out: seq<Byte>): seq<Byte>
      requires Valid(|out|)
    {
      match this
      case Plainly(bytes) => out + bytes
      case Fixed(ts) => Plain(ts, FixedLit(), FixedDist(), out)
      case Dynamic(_, lit, dist, ts) => Plain(ts, lit, dist, out)
    }

    /** What follows the three bits of the block header, which end at position p. */
    ghost function Bits(p: nat, n: nat, align: Alignment): seq<nat>
      requires Valid(n)
    {
      match this
      case Plainly(bytes) => StoredBits(bytes, p, align)
      case Fixed(ts) =>
        FixedSizes();
        TokenBits(ts, FixedLit(), FixedDist(), n)
      case Dynamic(c, lit, dist, ts) => HeaderBits(c, lit, dist) + TokenBits(ts, lit, dist, n)
    }
  }

  lemma {:induction false} FixedSizes()
    ensures |FixedLit()| == 288 && |FixedDist()| == 32 && FixedLit()[256] == 7
  {
  }

  /** Bits up to the byte where the data begins, the length and its complement, and the data. */
  function StoredBits(bytes: seq<Byte>, p: nat, align: Alignment): seq<nat>
    requires |bytes| < 0x1_0000
  {
    Padding(p, align) + (NumberBits(|bytes|, 16) + (NumberBits(0xffff - |bytes|, 16) + ByteBits(bytes)))
  }

  function Padding(p: nat, align: Alignment): (r: seq<nat>)
    ensures p + |r| == 8 * align.DataByte(p)
  {
    seq(8 * align.DataByte(p) - p, _ => 0)
  }

  lemma {:induction false} TwoBytesAreRead(mem: seq<Byte>, i: nat, v: nat)
    requires v < 0x1_0000 && BitsAre(mem, 8 * i, NumberBits(v, 16))
    ensures i + 2 <= |mem| && LittleEndian(mem, i, 2) == v
  {
    hide BitsAre, Read, NumberBits, LittleEndian;
    assert Pow2(16) == 0x1_0000 by { Powers(); assert Pow2(15) == 4 * Pow2(13) && Pow2(16) == 2 * Pow2(15); }
    NumberIsRead(mem, 8 * i, v, 16);
    ReadBytes(mem, i, 2);
  }

  lemma {:induction false} StoredIsRead(bytes: seq<Byte>, mem: seq<Byte>, lim: nat, p: nat, out: seq<Byte>,
                                        align: Alignment)
    requires lim <= |mem| && |bytes| < 0x1_0000
    requires BitsAre(mem, p, StoredBits(bytes, p, align)) && p + |StoredBits(bytes, p, align)| <= 8 * lim
    ensures Stored(mem, lim, p, out, align) == Some(Progress(p + |StoredBits(bytes, p, align)|, out + bytes))
  {
    hide BitsAre, NumberBits, ByteBits, LittleEndian, Padding, Alignment.DataByte;
    var i, n := align.DataByte(p), |bytes|;
    Split(mem, p, Padding(p, align), NumberBits(n, 16) + (NumberBits(0xffff - n, 16) + ByteBits(bytes)));
    Split(mem, 8 * i, NumberBits(n, 16), NumberBits(0xffff - n, 16) + ByteBits(bytes));
    Split(mem, 8 * i + 16, NumberBits(0xffff - n, 16), ByteBits(bytes));
    TwoBytesAreRead(mem, i, n);
    TwoBytesAreRead(mem, i + 2, 0xffff - n);
    BytesAreRead(mem, i + 4, bytes);
  }

  /** A block is decoded to what was written. */
  lemma {:induction false} BlockIsRead(b: Text, mem: seq<Byte>, lim: nat, p: nat, out: seq<Byte>, align: Alignment)
    requires lim <= |mem| && b.Valid(|out|)
    requires BitsAre(mem, p, b.Bits(p, |out|, align)) && p + |b.Bits(p, |out|, align)| <= 8 * lim
    ensures Block(b.Kind(), mem, lim, p, out, align)
            == Some(Progress(p + |b.Bits(p, |out|, align)|, b.Output(out)))
    ensures b.Kind() != 0 ==> BlockCodes(b.Kind(), mem, lim, p).Some?
    ensures b.Dynamic? ==> var h := BlockCodes(2, mem, lim, p).value; h.lit == b.lit && h.dist == b.dist
  {
    hide BitsAre, Codes, Stored, DynamicHeader, FixedLit, FixedDist, Describes, TokenBits, HeaderBits, StoredBits,
      Kraft;
    match b
    case Plainly(bytes) =>
      StoredIsRead(bytes, mem, lim, p, out, align);
    case Fixed(ts) =>
      FixedSizes();
      FixedKraft();
      TokensAreRead(ts, FixedLit(), FixedDist(), mem, lim, p, out);
    case Dynamic(c, lit, dist, ts) =>
      DescribesKraft(c, lit, dist);
      Split(mem, p, HeaderBits(c, lit, dist), TokenBits(ts, lit, dist, |out|));
      HeaderIsRead(c, lit, dist, mem, lim, p);
      TokensAreRead(ts, lit, dist, mem, lim, p + |HeaderBits(c, lit, dist)|, out);
  }

  lemma {:induction false} DescribesKraft(c: Coded, lit: seq<nat>, dist: seq<nat>)
    requires Describes(c, lit, dist)
    ensures Kraft(lit) && Kraft(dist) && |lit| >= 257
  {
    hide Kraft;
  }

  // ----- Streams -----

  ghost predicate ValidTexts(bs: seq<Text>, out: seq<Byte>)
    decreases |bs|
  {
    bs != [] ==> bs[0].Valid(|out|) && ValidTexts(bs[1..], bs[0].Output(out))
  }

  /** What the blocks stand for. */
  ghost function Contents(bs: seq<Text>, out: seq<Byte>): seq<Byte>
    requires ValidTexts(bs, out)
    decreases |bs|
  {
    if bs == [] then out else Contents(bs[1..], bs[0].Output(out))
  }

  /** The header of a block: whether it is the last one, and its kind. */
  function BlockHeader(last: bool, kind: nat): (r: seq<nat>)
    ensures |r| == 3
  {
    [if last then 1 else 0] + NumberBits(kind, 2)
  }

  /** The blocks from position p on, the last one marked. */
  ghost function StreamBits(bs: seq<Text>, p: nat, out: seq<Byte>, align: Alignment): seq<nat>
    requires ValidTexts(bs, out)
    decreases |bs|
  {
    if bs == [] then []
    else
      var first := BlockHeader(|bs| == 1, bs[0].Kind()) + bs[0].Bits(p + 3, |out|, align);
      first + StreamBits(bs[1..], p + |first|, bs[0].Output(out), align)
  }

  lemma {:induction false} BlockHeaderIsRead(last: bool, kind: nat, mem: seq<Byte>, p: nat)
    requires kind <= 2 && BitsAre(mem, p, BlockHeader(last, kind))
    ensures p + 3 <= 8 * |mem| && (BitAt(mem, p) == 1 <==> last) && Read(mem, p + 1, 2) == kind
  {
    hide NumberBits, BitAt, Read;
    var bit := [if last then 1 else 0];
    Split(mem, p, bit, NumberBits(kind, 2));
    assert BitAt(mem, p + 0) == bit[0];
    Powers();
    NumberIsRead(mem, p + 1, kind, 2);
  }

  /** Blocks are decoded to what was written. */
  lemma {:induction false} BlocksAreRead(bs: seq<Text>, mem: seq<Byte>, lim: nat, p: nat, out: seq<Byte>,
                                         align: Alignment)
    requires lim <= |mem| && bs != [] && ValidTexts(bs, out)
    requires BitsAre(mem, p, StreamBits(bs, p, out, align)) && p + |StreamBits(bs, p, out, align)| <= 8 * lim
    ensures Blocks(mem, lim, p, out, align)
            == Some(Progress(p + |StreamBits(bs, p, out, align)|, Contents(bs, out)))
    decreases |bs|
  {
    hide BitsAre, Block, BitAt, Read, Text.Bits, Text.Valid, Text.Output, Text.Kind, BlockHeader;
    var b := bs[0];
    var head, body := BlockHeader(|bs| == 1, b.Kind()), b.Bits(p + 3, |out|, align);
    var next := b.Output(out);
    var rest := StreamBits(bs[1..], p + |head + body|, next, align);
    Split(mem, p, head + body, rest);
    Split(mem, p, head, body);
    BlockHeaderIsRead(|bs| == 1, b.Kind(), mem, p);
    BlockIsRead(b, mem, lim, p + 3, out, align);
    if |bs| > 1 { BlocksAreRead(bs[1..], mem, lim, p + |head + body|, next, align); }
  }

  /** mem[start..end] is a zlib stream that was written from these blocks: its header, the blocks up to less than a byte
      before the checksum, and four bytes of checksum. */
  ghost predicate Written(bs: seq<Text>, mem: seq<Byte>, start: nat, end: nat, align: Alignment) {
    && bs != [] && ValidTexts(bs, []) && start + 6 <= end <= |mem| && ZlibHeader(mem[start], mem[start + 1])
    && var bits := StreamBits(bs, 8 * (start + 2), [], align);
    BitsAre(mem, 8 * (start + 2), bits) && (8 * (start + 2) + |bits| + 7) / 8 == end - 4
  }

  /** A stream is decoded to what was written. */
  lemma {:induction false} StreamIsRead(bs: seq<Text>, mem: seq<Byte>, start: nat, end: nat, align: Alignment)
    requires Written(bs, mem, start, end, align)
    ensures Zlib(mem, start, end, align) == Some(Contents(bs, []))
  {
    hide BitsAre, Blocks, ZlibHeader, StreamBits, ValidTexts, Contents;
    BlocksAreRead(bs, mem, end - 4, 8 * (start + 2), [], align);
  }

  /** No header of a stored block ends on a byte boundary. */
  ghost predicate OffBoundary(bs: seq<Text>, p: nat, out: seq<Byte>)
    requires ValidTexts(bs, out)
    decreases |bs|
  {
    bs != [] ==>
      && (bs[0].Plainly? ==> (p + 3) % 8 != 0)
      && OffBoundary(bs[1..], p + 3 + |bs[0].Bits(p + 3, |out|, Standard)|, bs[0].Output(out))
  }

  /** Then the source's rule for stored data is that of the standard. */
  lemma {:induction false} SameBits(bs: seq<Text>, p: nat, out: seq<Byte>)
    requires ValidTexts(bs, out) && OffBoundary(bs, p, out)
    ensures StreamBits(bs, p, out, DropsAByte) == StreamBits(bs, p, out, Standard)
    decreases |bs|
  {
    hide Text.Valid, Text.Output, Text.Bits, BlockHeader, StreamBits, OffBoundary;
    StreamStep(bs, p, out, Standard);
    StreamStep(bs, p, out, DropsAByte);
    if bs != [] {
      SameBody(bs[0], p + 3, |out|);
      SameBits(bs[1..], p + 3 + |bs[0].Bits(p + 3, |out|, Standard)|, bs[0].Output(out));
    }
  }

  lemma {:induction false} StreamStep(bs: seq<Text>, p: nat, out: seq<Byte>, align: Alignment)
    requires ValidTexts(bs, out)
    ensures bs == [] ==> StreamBits(bs, p, out, align) == []
    ensures bs != [] ==>
              && var body := bs[0].Bits(p + 3, |out|, align);
              && StreamBits(bs, p, out, align)
                 == BlockHeader(|bs| == 1, bs[0].Kind()) + body
                    + StreamBits(bs[1..], p + 3 + |body|, bs[0].Output(out), align)
              && (OffBoundary(bs, p, out) && align == Standard ==>
                    && (bs[0].Plainly? ==> (p + 3) % 8 != 0)
                    && OffBoundary(bs[1..], p + 3 + |body|, bs[0].Output(out)))
  {
    hide Text.Valid, Text.Output, Text.Bits, BlockHeader, Text.Kind;
  }

  lemma {:induction false} SameBody(b: Text, p: nat, n: nat)
    requires b.Valid(n) && (b.Plainly? ==> p % 8 != 0)
    ensures b.Bits(p, n, DropsAByte) == b.Bits(p, n, Standard)
  {
    hide Describes, ValidTokens, HeaderBits, TokenBits, FixedLit, FixedDist;
    if b.Plainly? {
      assert Padding(p, DropsAByte) == Padding(p, Standard);
    }
  }

  lemma {:induction false} WrittenEitherWay(bs: seq<Text>, mem: seq<Byte>, start: nat, end: nat)
    requires ValidTexts(bs, []) && OffBoundary(bs, 8 * (start + 2), [])
    ensures Written(bs, mem, start, end, Standard) <==> Written(bs, mem, start, end, DropsAByte)
  {
    hide BitsAre, StreamBits, OffBoundary, ZlibHeader;
    SameBits(bs, 8 * (start + 2), []);
  }

  // ----- Inflating what was written -----

  /** The limits on the codes of a dynamic block. */
  ghost predicate TextFits(b: Text) { b.Dynamic? ==> |b.dist| <= 30 && Room(b.lit) && Room(b.dist) }

  /** The end-of-block code of the block, which ends at position p, begins at least seven bits before the checksum. */
  predicate EndsInTime(b: Text, p: nat, end: nat) {
    match b
    case Plainly(_) => true
    case Fixed(_) => p + 32 <= 8 * end
    case Dynamic(_, lit, _, _) => |lit| > 256 ==> p + 39 <= 8 * end + lit[256]
  }

  /** The limits of the inflater on one block. */
  lemma {:induction false} TextWithinIff(b: Text, mem: seq<Byte>, end: nat, p: nat, out: seq<Byte>, last: bool)
    requires 4 <= end <= |mem| && b.Valid(|out|)
    requires var bits := b.Bits(p, |out|, DropsAByte); BitsAre(mem, p, bits) && p + |bits| <= 8 * (end - 4)
    ensures BlockWithin(b.Kind(), mem, end, p, out, last) <==>
              TextFits(b) && (last && end % 4 == 3 ==> EndsInTime(b, p + |b.Bits(p, |out|, DropsAByte)|, end))
  {
    hide BitsAre, Codes, BlockCodes, FixedLit, FixedDist, Room, Describes, Text.Bits, ValidTokens;
    BlockIsRead(b, mem, end - 4, p, out, DropsAByte);
    if b.Fixed? { FixedSizes(); FixedCodes(mem, end - 4, p); }
    if b.Kind() != 0 {
      var h := BlockCodes(b.Kind(), mem, end - 4, p).value;
      CodesEnd(h.lit, h.dist, mem, end - 4, h.p, out);
    }
  }

  lemma {:induction false} FixedCodes(mem: seq<Byte>, lim: nat, p: nat)
    requires lim <= |mem|
    ensures BlockCodes(1, mem, lim, p) == Some(Header(FixedLit(), FixedDist(), p))
  {
  }

  /** The limits of the inflater on all blocks. */
  lemma {:induction false} TextsWithinIff(bs: seq<Text>, mem: seq<Byte>, end: nat, p: nat, out: seq<Byte>)
    requires 4 <= end <= |mem| && bs != [] && ValidTexts(bs, out)
    requires var bits := StreamBits(bs, p, out, DropsAByte); BitsAre(mem, p, bits) && p + |bits| <= 8 * (end - 4)
    ensures WithinLimits(mem, end, p, out) <==>
              && (forall b :: b in bs ==> TextFits(b))
              && (end % 4 == 3 ==> EndsInTime(bs[|bs| - 1], p + |StreamBits(bs, p, out, DropsAByte)|, end))
    decreases |bs|
  {
    hide BitsAre, Block, BitAt, Read, Text.Bits, Text.Valid, Text.Output, Text.Kind, BlockHeader, BlockWithin, TextFits;
    hide WithinLimits, EndsInTime;
    var b := bs[0];
    var head, body := BlockHeader(|bs| == 1, b.Kind()), b.Bits(p + 3, |out|, DropsAByte);
    var next := b.Output(out);
    var rest := StreamBits(bs[1..], p + |head + body|, next, DropsAByte);
    Split(mem, p, head + body, rest);
    Split(mem, p, head, body);
    BlockHeaderIsRead(|bs| == 1, b.Kind(), mem, p);
    BlockIsRead(b, mem, end - 4, p + 3, out, DropsAByte);
    TextWithinIff(b, mem, end, p + 3, out, |bs| == 1);
    WithinStep(mem, end, p, out);
    ReadFirst(mem, p, 1);
    ReadNone(mem, p + 1);
    if |bs| > 1 { TextsWithinIff(bs[1..], mem, end, p + |head + body|, next); }
    assert forall t :: t in bs <==> t == b || t in bs[1..];
  }

  /**
   * elf_zlib_inflate on a stream that was written from blocks, input and output being shorter than 4 GiB: it succeeds
   * exactly if the output buffer has the size of the contents, the codes are within the limits, and the last
   * end-of-block code is not among the last bits before a checksum at an address divisible by four.
   */
  method InflateWritten(ghost bs: seq<Text>, mem: seq<Byte>, start: nat, sin: nat, out: array<Byte>) returns (ok: bool)
    requires start + sin + 3 <= |mem| && sin < 0x1_0000_0000
    requires Written(bs, mem, start, start + sin, DropsAByte) && |Contents(bs, [])| < 0x1_0000_0000
    modifies out
    ensures ok <==>
              && out.Length == |Contents(bs, [])|
              && (forall b :: b in bs ==> TextFits(b))
              && ((start + sin) % 4 == 3 ==>
                    EndsInTime(bs[|bs| - 1], 8 * (start + 2) + |StreamBits(bs, 8 * (start + 2), [], DropsAByte)|,
                               start + sin))
    ensures ok ==> out[..] == Contents(bs, [])
  {
    hide BitsAre, Zlib, ZlibHeader, StreamBits, ValidTexts, Contents, EndsInTime, TextFits, ZlibOffBoundary;
    hide StreamFits, WithinLimits, Inflate.StoredRefused;
    StreamIsRead(bs, mem, start, start + sin, DropsAByte);
    StreamLimitsIff(mem, start, start + sin);
    TextsWithinIff(bs, mem, start + sin, 8 * (start + 2), []);
    ok := Inflate.Inflate(mem, start, sin, out);
  }
}

/** A reference decoder for the zlib and DEFLATE formats, written from RFC 1950 (section 2.2) and
    RFC 1951 (sections 3.2.3 to 3.2.7). It reads bits by position and knows no buffers or tables. */
module Deflate {
  import opened Bits
  import opened CanonicalCode
  import opened Options

  /** The next bit position and the output so far. */
  datatype Progress = Progress(p: nat, out: seq<Byte>)

  /** A number of n bits, least significant bit first, inside the first lim bytes. */
  function Number(mem: seq<Byte>, lim: nat, p: nat, n: nat): Option<nat>
    requires lim <= |mem|
  {
    if p + n <= 8 * lim then Some(Read(mem, p, n)) else None
  }

  /** The symbol whose code stands at position p; PrefixFree makes it unique. */
  ghost function Symbol(lens: seq<nat>, mem: seq<Byte>, lim: nat, p: nat): (r: Option<nat>)
    requires lim <= |mem|
    ensures r.Some? ==> CodeAt(lens, mem, p, r.value) && p + lens[r.value] <= 8 * lim
  {
    if exists s: nat :: CodeAt(lens, mem, p, s) && p + lens[s] <= 8 * lim
    then var s: nat :| CodeAt(lens, mem, p, s) && p + lens[s] <= 8 * lim; Some(s)
    else None
  }

  /** The symbol whose code stands here. */
  lemma {:induction false} SymbolIs(lens: seq<nat>, mem: seq<Byte>, lim: nat, p: nat, s: nat)
    requires lim <= |mem| && CodeAt(lens, mem, p, s) && p + lens[s] <= 8 * lim
    ensures Symbol(lens, mem, lim, p) == Some(s)
  {
    hide CodeAt;
    var r := Symbol(lens, mem, lim, p);
    PrefixFree(lens, mem, p, s, r.value);
  }

  // ----- Section 3.2.5: lengths and distances -----

  const LENGTH_BASE: seq<nat> :=
    [3, 4, 5, 6, 7, 8, 9, 10, 11, 13, 15, 17, 19, 23, 27, 31, 35, 43, 51, 59, 67, 83, 99, 115, 131, 163, 195, 227, 258]
  const LENGTH_EXTRA: seq<nat> :=
    [0, 0, 0, 0, 0, 0, 0, 0, 1, 1, 1, 1, 2, 2, 2, 2, 3, 3, 3, 3, 4, 4, 4, 4, 5, 5, 5, 5, 0]
  const DISTANCE_BASE: seq<nat> :=
    [1, 2, 3, 4, 5, 7, 9, 13, 17, 25, 33, 49, 65, 97, 129, 193, 257, 385, 513, 769, 1025, 1537, 2049, 3073, 4097,
     6145, 8193, 12289, 16385, 24577]
  const DISTANCE_EXTRA: seq<nat> :=
    [0, 0, 0, 0, 1, 1, 2, 2, 3, 3, 4, 4, 5, 5, 6, 6, 7, 7, 8, 8, 9, 9, 10, 10, 11, 11, 12, 12, 13, 13]

  /** Base value and number of extra bits of a length symbol. */
  function LengthEntry(s: nat): (nat, nat)
    requires 257 <= s <= 285
  {
    (LENGTH_BASE[s - 257], LENGTH_EXTRA[s - 257])
  }

  /** Base value and number of extra bits of a distance symbol. */
  function DistanceEntry(d: nat): (nat, nat)
    requires d <= 29
  {
    (DISTANCE_BASE[d], DISTANCE_EXTRA[d])
  }

  /** A back reference and the position after it. */
  datatype Match = Match(len: nat, dist: nat, p: nat)

  /** The length that length symbol s and its extra bits stand for. */
  function Length(s: nat, mem: seq<Byte>, lim: nat, p: nat): (r: Option<(nat, nat)>)
    requires lim <= |mem| && s >= 257
    ensures r.Some? ==> p <= r.value.1 && r.value.0 >= 3
  {
    if s > 285 then None
    else
      var (base, n) := LengthEntry(s);
      var extra :- Number(mem, lim, p, n);
      Some((base + extra, p + n))
  }

  ghost function Distance(dist: seq<nat>, mem: seq<Byte>, lim: nat, p: nat): (r: Option<(nat, nat)>)
    requires lim <= |mem|
    ensures r.Some? ==> p <= r.value.1 <= 8 * lim && r.value.0 >= 1
  {
    var d :- Symbol(dist, mem, lim, p);
    if d > 29 then None
    else
      var (base, n) := DistanceEntry(d);
      var extra :- Number(mem, lim, p + dist[d], n);
      Some((base + extra, p + dist[d] + n))
  }

  ghost function BackReference(s: nat, dist: seq<nat>, mem: seq<Byte>, lim: nat, p: nat): (r: Option<Match>)
    requires lim <= |mem| && s >= 257
    ensures r.Some? ==> p <= r.value.p <= 8 * lim && r.value.dist >= 1
  {
    var l :- Length(s, mem, lim, p);
    var d :- Distance(dist, mem, lim, l.1);
    Some(Match(l.0, d.0, d.1))
  }

  /** Repeat len bytes from dist bytes back, one byte at a time (section 3.2.3). */
  function LzCopy(out: seq<Byte>, dist: nat, len: nat): (r: seq<Byte>)
    requires 1 <= dist <= |out|
    ensures |r| == |out| + len && r[..|out|] == out
    decreases len
  {
    if len == 0 then out else LzCopy(out + [out[|out| - dist]], dist, len - 1)
  }

  /** Decode literals and back references up to the end-of-block symbol. */
  ghost function Codes(lit: seq<nat>, dist: seq<nat>, mem: seq<Byte>, lim: nat, p: nat, out: seq<Byte>)
    : (r: Option<Progress>)
    requires lim <= |mem|
    ensures r.Some? ==> p <= r.value.p <= 8 * lim
    decreases 8 * lim - p
  {
    var s :- Symbol(lit, mem, lim, p);
    var p1 := p + lit[s];
    if s < 256 then Codes(lit, dist, mem, lim, p1, out + [s])
    else if s == 256 then Some(Progress(p1, out))
    else
      var m :- BackReference(s, dist, mem, lim, p1);
      if m.dist > |out| then None else Codes(lit, dist, mem, lim, m.p, LzCopy(out, m.dist, m.len))
  }

  // ----- Section 3.2.4: stored blocks -----

  /** Where the data of a stored block begins when its header ends at position p: at the next byte
      boundary by the standard, while elf_zlib_inflate always drops at least one bit. */
  datatype Alignment = Standard | DropsAByte {
    function DataByte(p: nat): nat {
      if this == Standard then (p + 7) / 8 else p / 8 + 1
    }
  }

  function Stored(mem: seq<Byte>, lim: nat, p: nat, out: seq<Byte>, align: Alignment): (r: Option<Progress>)
    requires lim <= |mem|
    ensures r.Some? ==> p <= r.value.p <= 8 * lim
  {
    var i := align.DataByte(p);
    if i + 4 > lim then None
    else
      var len := LittleEndian(mem, i, 2);
      if LittleEndian(mem, i + 2, 2) != 0xffff - len || i + 4 + len > lim then None
      else Some(Progress(8 * (i + 4 + len), out + mem[i + 4..i + 4 + len]))
  }

  // ----- Section 3.2.6: fixed codes -----

  function FixedLit(): seq<nat> {
    seq(288, i => if i <= 143 then 8 else if i <= 255 then 9 else if i <= 279 then 7 else 8)
  }

  function FixedDist(): seq<nat> { seq(32, _ => 5) }

  // ----- Section 3.2.7: dynamic codes -----

  const ORDER: seq<nat> := [16, 17, 18, 0, 8, 7, 9, 6, 10, 5, 11, 4, 12, 3, 13, 2, 14, 1, 15]

  function Order(k: nat): (s: nat)
    requires k < 19
    ensures s < 19
  {
    ORDER[k]
  }

  /** The lengths of the code length code; k of the n transmitted ones are already in acc. */
  function LengthCode(mem: seq<Byte>, p: nat, k: nat, n: nat, acc: seq<nat>): (r: seq<nat>)
    requires k <= n <= 19 && p + 3 * n <= 8 * |mem| && |acc| == 19
    ensures |r| == 19
    decreases n - k
  {
    if k == n then acc else LengthCode(mem, p, k + 1, n, acc[Order(k) := Read(mem, p + 3 * k, 3)])
  }

  function Repeat(x: nat, n: nat): (r: seq<nat>)
    ensures |r| == n && forall k :: 0 <= k < n ==> r[k] == x
  {
    if n == 0 then [] else Repeat(x, n - 1) + [x]
  }

  /** Decode n code lengths; acc holds the ones already known. */
  ghost function CodeLengths(code: seq<nat>, mem: seq<Byte>, lim: nat, p: nat, n: nat, acc: seq<nat>)
    : (r: Option<(seq<nat>, nat)>)
    requires lim <= |mem|
    ensures r.Some? ==> |acc| <= n && |r.value.0| == n && p <= r.value.1
    decreases n - |acc|
  {
    if |acc| > n then None
    else if |acc| == n then Some((acc, p))
    else
      var s :- Symbol(code, mem, lim, p);
      var p1 := p + code[s];
      if s < 16 then CodeLengths(code, mem, lim, p1, n, acc + [s])
      else if s == 16 then
        if acc == [] then None
        else
          var c :- Number(mem, lim, p1, 2);
          CodeLengths(code, mem, lim, p1 + 2, n, acc + Repeat(acc[|acc| - 1], 3 + c))
      else if s == 17 then
        var c :- Number(mem, lim, p1, 3);
        CodeLengths(code, mem, lim, p1 + 3, n, acc + Repeat(0, 3 + c))
      else if s == 18 then
        var c :- Number(mem, lim, p1, 7);
        CodeLengths(code, mem, lim, p1 + 7, n, acc + Repeat(0, 11 + c))
      else None
  }

  /** The code lengths of a dynamic block and the position after them. */
  datatype Header = Header(lit: seq<nat>, dist: seq<nat>, p: nat)

  /** The code lengths of nlit literal and length symbols and of ndist distance symbols, themselves coded by a code of
      which nclen lengths are transmitted. */
  ghost function CodedLengths(mem: seq<Byte>, lim: nat, p: nat, nlit: nat, ndist: nat, nclen: nat): (r: Option<Header>)
    requires lim <= |mem|
    ensures r.Some? ==> p <= r.value.p && |r.value.lit| == nlit <= 286 && |r.value.dist| == ndist
    ensures r.Some? ==> Kraft(r.value.lit) && Kraft(r.value.dist)
  {
    if nlit > 286 || nclen > 19 || p + 3 * nclen > 8 * lim then None
    else
      var code := LengthCode(mem, p, 0, nclen, Repeat(0, 19));
      if !Kraft(code) then None
      else
        var lens :- CodeLengths(code, mem, lim, p + 3 * nclen, nlit + ndist, []);
        if Kraft(lens.0[..nlit]) && Kraft(lens.0[nlit..])
        then Some(Header(lens.0[..nlit], lens.0[nlit..], lens.1))
        else None
  }

  ghost function DynamicHeader(mem: seq<Byte>, lim: nat, p: nat): (r: Option<Header>)
    requires lim <= |mem|
    ensures r.Some? ==> p <= r.value.p
    ensures r.Some? ==> Kraft(r.value.lit) && Kraft(r.value.dist) && |r.value.lit| >= 257
  {
    var hlit :- Number(mem, lim, p, 5);
    var hdist :- Number(mem, lim, p + 5, 5);
    var hclen :- Number(mem, lim, p + 10, 4);
    CodedLengths(mem, lim, p + 14, hlit + 257, hdist + 1, hclen + 4)
  }

  // ----- Section 3.2.3: blocks -----

  /** The codes of a block that is not stored, and where its symbols begin. */
  ghost function BlockCodes(kind: nat, mem: seq<Byte>, lim: nat, p: nat): (r: Option<Header>)
    requires lim <= |mem|
    ensures r.Some? ==> p <= r.value.p
  {
    if kind == 1 then Some(Header(FixedLit(), FixedDist(), p))
    else if kind == 2 then DynamicHeader(mem, lim, p)
    else None
  }

  /** The block whose 3-bit header ends at position p. */
  ghost function Block(kind: nat, mem: seq<Byte>, lim: nat, p: nat, out: seq<Byte>, align: Alignment)
    : (r: Option<Progress>)
    requires lim <= |mem|
    ensures r.Some? ==> p <= r.value.p <= 8 * lim
  {
    if kind == 0 then Stored(mem, lim, p, out, align)
    else
      var h :- BlockCodes(kind, mem, lim, p);
      Codes(h.lit, h.dist, mem, lim, h.p, out)
  }

  /** All blocks up to the one marked last. */
  ghost function Blocks(mem: seq<Byte>, lim: nat, p: nat, out: seq<Byte>, align: Alignment): (r: Option<Progress>)
    requires lim <= |mem|
    ensures r.Some? ==> p <= r.value.p <= 8 * lim
    decreases 8 * lim - p
  {
    if p + 3 > 8 * lim then None
    else
      var b :- Block(Read(mem, p + 1, 2), mem, lim, p + 3, out, align);
      if BitAt(mem, p) == 1 then Some(b) else Blocks(mem, lim, b.p, b.out, align)
  }

  /** The header checks of RFC 1950 for a stream without a preset dictionary. */
  predicate ZlibHeader(cmf: Byte, flg: Byte) {
    cmf % 16 == 8 && cmf / 16 <= 7 && flg / 32 % 2 == 0 && (256 * cmf + flg) % 31 == 0
  }

  /** The output of the one zlib stream that fills mem[start..end], its checksum being the last 4 bytes. */
  ghost function Zlib(mem: seq<Byte>, start: nat, end: nat, align: Alignment): Option<seq<Byte>>
    requires start <= end <= |mem|
  {
    if end < start + 6 || !ZlibHeader(mem[start], mem[start + 1]) then None
    else
      var b :- Blocks(mem, end - 4, 8 * (start + 2), [], align);
      if (b.p + 7) / 8 == end - 4 then Some(b.out) else None
  }

  // ----- Where the two alignments agree -----

  /** No stored block reached from position p has a header that ends on a byte boundary. */
  ghost predicate StoredOffBoundary(mem: seq<Byte>, lim: nat, p: nat, out: seq<Byte>)
    requires lim <= |mem|
    decreases 8 * lim - p
  {
    p + 3 <= 8 * lim ==>
      && (Read(mem, p + 1, 2) == 0 ==> (p + 3) % 8 != 0)
      && var b := Block(Read(mem, p + 1, 2), mem, lim, p + 3, out, Standard);
         (b.Some? && BitAt(mem, p) == 0 ==> StoredOffBoundary(mem, lim, b.value.p, b.value.out))
  }

  lemma {:induction false} AlignmentsAgree(mem: seq<Byte>, lim: nat, p: nat, out: seq<Byte>)
    requires lim <= |mem| && StoredOffBoundary(mem, lim, p, out)
    ensures Blocks(mem, lim, p, out, DropsAByte) == Blocks(mem, lim, p, out, Standard)
    decreases 8 * lim - p
  {
    if p + 3 <= 8 * lim {
      var b := Block(Read(mem, p + 1, 2), mem, lim, p + 3, out, Standard);
      assert b == Block(Read(mem, p + 1, 2), mem, lim, p + 3, out, DropsAByte);
      if b.Some? && BitAt(mem, p) == 0 {
        AlignmentsAgree(mem, lim, b.value.p, b.value.out);
      }
    }
  }

  /** No stored block of the stream has a header that ends on a byte boundary. */
  ghost predicate ZlibOffBoundary(mem: seq<Byte>, start: nat, end: nat)
    requires start <= end <= |mem|
  {
    end >= start + 6 ==> StoredOffBoundary(mem, end - 4, 8 * (start + 2), [])
  }

  lemma {:induction false} ZlibAgrees(mem: seq<Byte>, start: nat, end: nat)
    requires start <= end <= |mem| && ZlibOffBoundary(mem, start, end)
    ensures Zlib(mem, start, end, DropsAByte) == Zlib(mem, start, end, Standard)
  {
    hide Blocks, StoredOffBoundary, ZlibHeader;
    if end >= start + 6 {
      AlignmentsAgree(mem, end - 4, 8 * (start + 2), []);
    }
  }

  /**
   * The source decodes a stored block as the standard does exactly if the block's header ends inside a byte. At a byte
   * boundary it takes other bytes for the length, and whatever they are it ends elsewhere or has another output.
   */
  lemma {:induction false} StoredAgreesIff(mem: seq<Byte>, lim: nat, p: nat, out: seq<Byte>)
    requires lim <= |mem| && Stored(mem, lim, p, out, Standard).Some?
    ensures Stored(mem, lim, p, out, DropsAByte) == Stored(mem, lim, p, out, Standard) <==> p % 8 != 0
    ensures DropsAByte.DataByte(p) == Standard.DataByte(p) <==> p % 8 != 0
  {
    hide LittleEndian;
    var a, b := Stored(mem, lim, p, out, Standard), Stored(mem, lim, p, out, DropsAByte);
    if p % 8 == 0 && b.Some? {
      var i := p / 8;
      var len, wrong := LittleEndian(mem, i, 2), LittleEndian(mem, i + 1, 2);
      assert a.value.p == 8 * (i + 4 + len) && b.value.p == 8 * (i + 5 + wrong);
      assert |a.value.out| == |out| + len && |b.value.out| == |out| + wrong;
    }
  }
}

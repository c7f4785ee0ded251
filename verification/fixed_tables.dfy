/** The tables compiled into elf.c for blocks with fixed codes (RFC 1951, section 3.2.6). */
module FixedTables {
  import opened Bits
  import opened CanonicalCode
  import opened Deflate
  import opened HuffmanTable

  /** The primary cell of elf_zlib_default_table whose index reverses to r. */
  function LitCell(r: nat): nat {
    if r < 48 then Entry(256 + r / 2, 6)
    else if r < 192 then Entry(r - 48, 7)
    else if r < 200 then Entry(r + 88, 7)
    else Pointer(2 * (r - 200), 1)
  }

  /** elf_zlib_default_table */
  function LitTable(): seq<nat> {
    seq(0x170, i requires 0 <= i < 0x170 => if i < 0x100 then LitCell(Rev(i, 8)) else Entry(144 + i - 0x100, 1))
  }

  /** elf_zlib_default_dist_table */
  function DistTable(): seq<nat> {
    seq(0x100, i requires 0 <= i < 0x100 => Entry(Rev(i, 5), 4))
  }

  // ----- The canonical fixed codes -----

  function Min(a: nat, b: nat): nat { if a < b then a else b }

  lemma {:induction false} FixedLitCount(n: nat, l: nat)
    requires n <= 288
    ensures CountIn(FixedLit(), n, l) ==
            if l == 8 then Min(n, 144) + (if n < 280 then 0 else n - 280)
            else if l == 9 then (if n < 144 then 0 else Min(n, 256) - 144)
            else if l == 7 then (if n < 256 then 0 else Min(n, 280) - 256)
            else 0
  {
    if n > 0 { FixedLitCount(n - 1, l); }
  }

  lemma {:induction false} FixedDistCount(n: nat, l: nat)
    requires n <= 32
    ensures CountIn(FixedDist(), n, l) == if l == 5 then n else 0
  {
    if n > 0 { FixedDistCount(n - 1, l); }
  }

  /** Over lengths that no symbol has, the first code just doubles. */
  lemma {:induction false} FirstCodeSkips(lens: seq<nat>, l: nat, m: nat)
    requires 1 <= l <= m && forall k :: l <= k < m ==> Count(lens, k) == 0
    ensures FirstCode(lens, m) == Shl(FirstCode(lens, l), m - l)
  {
    if l < m { FirstCodeSkips(lens, l, m - 1); }
  }

  lemma {:induction false} FixedFirstCodes()
    ensures FirstCode(FixedLit(), 7) == 0 && FirstCode(FixedLit(), 8) == 48 && FirstCode(FixedLit(), 9) == 400
    ensures FirstCode(FixedLit(), 10) == 1024
    ensures FirstCode(FixedDist(), 5) == 0 && FirstCode(FixedDist(), 6) == 64
  {
    hide FixedLit, FixedDist, CountIn;
    forall l: nat
      ensures Count(FixedLit(), l) == if l == 7 then 24 else if l == 8 then 152 else if l == 9 then 112 else 0
      ensures Count(FixedDist(), l) == if l == 5 then 32 else 0
    {
      FixedLengths();
      FixedLitCount(288, l);
      FixedDistCount(32, l);
    }
    FirstCodeSkips(FixedLit(), 1, 7);
    ShlZero(6);
    FirstCodeSkips(FixedDist(), 1, 5);
    ShlZero(4);
  }

  lemma {:induction false} FixedLengths()
    ensures |FixedLit()| == 288 && |FixedDist()| == 32
  {
  }

  /** The table of section 3.2.6: the fixed codes of literals and lengths. */
  lemma {:induction false} FixedLitCode(s: nat)
    requires s < 288
    ensures Code(FixedLit(), s) ==
            if s < 144 then 48 + s
            else if s < 256 then 400 + (s - 144)
            else if s < 280 then s - 256
            else 192 + (s - 280)
  {
    FixedFirstCodes();
    FixedLitCount(s, FixedLit()[s]);
  }

  lemma {:induction false} FixedDistCode(s: nat)
    requires s < 32
    ensures Code(FixedDist(), s) == s
  {
    FixedFirstCodes();
    FixedDistCount(s, 5);
  }

  lemma {:induction false} FixedKraft()
    ensures Kraft(FixedLit()) && Kraft(FixedDist())
  {
    hide Pow2, KraftSum, CountIn;
    FixedFirstCodes();
    FixedLengths();
    forall l: nat | 10 <= l <= 15
      ensures Count(FixedLit(), l) == 0
    {
      FixedLitCount(288, l);
    }
    forall l: nat | 6 <= l <= 15
      ensures Count(FixedDist(), l) == 0
    {
      FixedDistCount(32, l);
    }
    FewPowers();
    FixedSum(FixedLit(), 10);
    FixedSum(FixedDist(), 6);
  }

  lemma {:induction false} FewPowers()
    ensures Pow2(5) == 32 && Pow2(6) == 64 && Pow2(7) == 128 && Pow2(8) == 256 && Pow2(9) == 512 && Pow2(10) == 1024
  {
  }

  /** A code of at most 15 bits whose last used length is below l, and whose codes are all used up. */
  lemma {:induction false} FixedSum(lens: seq<nat>, l: nat)
    requires 1 <= l <= 15 && FirstCode(lens, l) == Pow2(l)
    requires forall k :: l <= k <= 15 ==> Count(lens, k) == 0
    ensures KraftSum(lens, 15, 15) == Pow2(15)
  {
    hide Pow2, KraftSum;
    KraftSumIsCode(lens, 15, 15);
    FirstCodeSkips(lens, l, 15);
    ShlPow2(l, 15 - l);
    ShlZeroBits(FirstCode(lens, 15) + Count(lens, 15));
  }

  lemma {:induction false} ShlZeroBits(v: nat)
    ensures Shl(v, 0) == v
  {
  }

  // ----- The tables decode these codes -----

  lemma {:induction false} LitTableInBounds()
    ensures InBounds(LitTable()) && InBounds(DistTable())
  {
    FewPowers();
    forall i | 0 <= i < 0x100 && IsPointer(LitTable()[i])
      ensures Value(LitTable()[i]) + 0x100 + Pow2(BitsField(LitTable()[i])) <= 0x170
    {
      LitCellPointer(Rev(i, 8));
    }
  }

  lemma {:induction false} LitCellPointer(r: nat)
    requires r < 0x100 && IsPointer(LitCell(r))
    ensures Value(LitCell(r)) + 0x100 + Pow2(BitsField(LitCell(r))) <= 0x170
  {
    assert Pow2(1) == 2 * Pow2(0);
  }

  lemma {:induction false} LitTableDecodes(s: nat, val: nat)
    requires InBounds(LitTable()) && s < 288
    requires Low(val, FixedLit()[s]) == Reversed(FixedLit(), s)
    ensures Lookup(LitTable(), val) == (s, FixedLit()[s])
  {
    hide Rev, Low, Shr, Pow2, LitTable, Lookup, Code, Kraft, InBounds;
    FixedKraft();
    CodeFits(FixedLit(), s);
    FixedLitCode(s);
    RevOfBuffer(val, Code(FixedLit(), s), FixedLit()[s]);
    RevLow(val, 8);
    RevGrow(val, 7);
    RevGrow(val, 8);
    Low8(val);
    LitLookup(s, val);
  }

  /** What the table holds for a buffer whose reversal begins with the code of s. */
  lemma {:induction false} LitLookup(s: nat, val: nat)
    requires InBounds(LitTable()) && s < 288 && Low(val, 8) < 0x100 && Rev(Low(val, 8), 8) == Rev(val, 8)
    requires s < 144 || s >= 280 ==> Rev(val, 8) == if s < 144 then 48 + s else s - 88
    requires 256 <= s < 280 ==> Rev(val, 8) / 2 == s - 256
    requires 144 <= s < 256 ==> 2 * Rev(val, 8) + Shr(val, 8) % 2 == 256 + s
    ensures Lookup(LitTable(), val) == (s, FixedLit()[s])
  {
    hide Rev, Shr, Pow2, Low, Entry, Pointer, Value, BitsField, IsPointer;
    var r := Rev(val, 8);
    var t := LitTable()[Low(val, 8)];
    assert t == LitCell(r);
    if 144 <= s < 256 {
      assert t == Pointer(2 * (r - 200), 1);
      PointerFields(2 * (r - 200), 1);
      LowOne(Shr(val, 8));
      EntryFields(s, 1);
    } else {
      assert t == Entry(s, FixedLit()[s] - 1);
      EntryFields(s, FixedLit()[s] - 1);
    }
  }

  lemma {:induction false} LowOne(v: nat)
    ensures Low(v, 1) == v % 2
  {
    assert Low(v / 2, 0) == 0;
  }

  lemma {:induction false} DistTableDecodes(s: nat, val: nat)
    requires InBounds(DistTable()) && s < 32
    requires Low(val, 5) == Reversed(FixedDist(), s)
    ensures Lookup(DistTable(), val) == (s, 5)
  {
    hide Pow2, IsPointer, Value, BitsField, Entry;
    assert Rev(Low(val, 8), 5) == s by {
      FixedDistCode(s);
      FewPowers();
      RevOfBuffer(val, s, 5);
      RevLow(Low(val, 8), 5);
      RevLow(val, 5);
      LowLow(val, 5, 8);
    }
    Low8(val);
    EntryFields(s, 4);
  }

  lemma {:induction false} FixedTablesDecode()
    ensures InBounds(LitTable()) && Kraft(FixedLit()) && Decodes(LitTable(), FixedLit())
    ensures InBounds(DistTable()) && Kraft(FixedDist()) && Decodes(DistTable(), FixedDist())
  {
    hide Lookup, LitTable, DistTable, Reversed;
    LitTableInBounds();
    FixedKraft();
    FixedLengths();
    forall s, val | 0 <= s < 288 && Low(val, FixedLit()[s]) == Reversed(FixedLit(), s)
      ensures Lookup(LitTable(), val) == (s, FixedLit()[s])
    {
      LitTableDecodes(s, val);
    }
    forall s, val | 0 <= s < 32 && Low(val, FixedDist()[s]) == Reversed(FixedDist(), s)
      ensures Lookup(DistTable(), val) == (s, FixedDist()[s])
    {
      DistTableDecodes(s, val);
    }
  }
}

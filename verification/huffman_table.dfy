/** The two-level Huffman decoding table of elf_zlib_inflate_table and its lookup. */
module HuffmanTable {
  import opened Bits
  import opened CanonicalCode

  const TABLE_SIZE: nat := 1024  // HUFFMAN_TABLE_SIZE

  // ----- Table entries -----

  /** A symbol with the number of further bits that identify it: `s | (b << 9)`. */
  function Entry(s: nat, b: nat): nat { s + 512 * b }

  /** The offset of a secondary table and the number of bits that index it. */
  function Pointer(offset: nat, b: nat): nat { offset + 512 * b + 4096 }

  // The fields of a table entry t; FieldsAreMasks gives the C expressions.
  function Value(t: nat): nat { t % 512 }

  function BitsField(t: nat): nat { t / 512 % 8 }

  predicate IsPointer(t: nat) { t / 4096 % 2 == 1 }

  // Literal masks and shifts as remainders and quotients.

  lemma {:induction false} Shift3(t: nat, k: nat)
    ensures Shl(t, k + 3) == 8 * Shl(t, k)
    ensures Shr(t, k + 3) == Shr(t / 8, k)
  {
    assert Shl(t, k + 3) == 2 * Shl(t, k + 2);
    assert Shl(t, k + 2) == 2 * Shl(t, k + 1);
    assert Shr(t, k + 3) == Shr(t / 2, k + 2);
    assert Shr(t / 2, k + 2) == Shr(t / 4, k + 1);
  }

  lemma {:induction false} Shl6(t: nat)
    ensures Shl(t, 6) == 64 * t
  {
    Shift3(t, 3); Shift3(t, 0);
  }

  lemma {:induction false} Shl9(t: nat)
    ensures Shl(t, 9) == 512 * t
  {
    Shift3(t, 6); Shl6(t);
  }

  lemma {:induction false} Shr6(t: nat)
    ensures Shr(t, 6) == t / 64
  {
    Shift3(t, 3); Shift3(t / 8, 0);
  }

  lemma {:induction false} Shr8(t: nat)
    ensures Shr(t, 8) == t / 0x100
  {
    assert Shr(t, 8) == Shr(t / 2, 7);
    assert Shr(t / 2, 7) == Shr(t / 4, 6);
    Shr6(t / 4);
  }

  lemma {:induction false} Shr9(t: nat)
    ensures Shr(t, 9) == t / 512
  {
    Shift3(t, 6); Shr6(t / 8);
  }

  lemma {:induction false} Low3(t: nat)
    ensures Low(t, 3) == t % 8
  {
    LowShr(t, 3); Shift3(t, 0); Shift3(Shr(t, 3), 0);
  }

  lemma {:induction false} Low8(t: nat)
    ensures Low(t, 8) == t % 0x100
  {
    LowShr(t, 8); Shr8(t); ShlByte(Shr(t, 8));
  }

  lemma {:induction false} Low9(t: nat)
    ensures Low(t, 9) == t % 0x200
  {
    LowShr(t, 9); Shr9(t); Shl9(Shr(t, 9));
  }

  lemma {:induction false} FieldsAreMasks(t: nat)
    ensures Value(t) == And(t, 0x1ff)
    ensures BitsField(t) == And(Shr(t, 9), 7)
    ensures IsPointer(t) <==> And(t, Shl(1, 12)) != 0
  {
    AndMask(t, 9); Low9(t); Shr9(t);
    AndMask(Shr(t, 9), 3); Low3(Shr(t, 9));
    assert Shr(t, 12) == t / 4096 by { Shift3(t, 9); Shr9(t / 8); }
    AndBit(t, 12);
    Shift3(1, 9); Shl9(1);
  }

  lemma {:induction false} EntryIsOr(s: nat, b: nat)
    requires s < 512
    ensures Entry(s, b) == Or(s, Shl(b, 9))
  {
    OrDisjoint(s, b, 9);
    Shl9(b);
  }

  lemma {:induction false} EntryFields(s: nat, b: nat)
    requires s < 512 && b < 8
    ensures Value(Entry(s, b)) == s && BitsField(Entry(s, b)) == b && !IsPointer(Entry(s, b))
  {
  }

  lemma {:induction false} PointerFields(offset: nat, b: nat)
    requires offset < 512 && b < 8
    ensures var t := Pointer(offset, b); Value(t) == offset && BitsField(t) == b && IsPointer(t) && t > 0
  {
  }

  // ----- Lookup -----

  /** Every pointer of the primary table leads to entries inside the table. */
  ghost predicate InBounds(table: seq<nat>) {
    && |table| >= 0x100
    && forall i :: 0 <= i < 0x100 && IsPointer(table[i]) ==>
         Value(table[i]) + 0x100 + Pow2(BitsField(table[i])) <= |table|
  }

  lemma {:induction false} FullTableInBounds(table: seq<nat>)
    requires |table| == TABLE_SIZE
    ensures InBounds(table)
  {
    forall i | 0 <= i < 0x100
      ensures Pow2(BitsField(table[i])) <= 128
    {
      Pow2Mono(BitsField(table[i]), 7);
    }
  }

  /** The symbol that a table finds in the buffered bits val, and how many bits it uses. */
  function Lookup(table: seq<nat>, val: nat): (r: (nat, nat))
    requires InBounds(table)
    ensures r.0 <= 0x1ff && 1 <= r.1 <= 15
  {
    Low8(val);
    var t := table[Low(val, 8)];
    var b := BitsField(t);
    if !IsPointer(t) then
      (Value(t), b + 1)
    else
      var u := table[Value(t) + 0x100 + Low(Shr(val, 8), b)];
      (Value(u), BitsField(u) + 8)
  }

  // ----- What a finished table holds -----

  /** The code of s as it appears at the low end of the bit buffer. */
  function Reversed(lens: seq<nat>, s: nat): nat
    requires s < |lens|
  {
    Rev(Code(lens, s), lens[s])
  }

  /** Symbol s, with a code of at most 8 bits, fills its primary cells. */
  ghost predicate InPrimary(table: seq<nat>, lens: seq<nat>, s: nat)
    requires |table| == TABLE_SIZE && s < |lens| && 1 <= lens[s] <= 8
  {
    forall x :: 0 <= x < 0x100 && Low(x, lens[s]) == Reversed(lens, s) ==> table[x] == Entry(s, lens[s] - 1)
  }

  /** Symbol s, with a code of more than 8 bits, fills its cells of the secondary table it is in. */
  ghost predicate InSecondary(table: seq<nat>, lens: seq<nat>, s: nat)
    requires |table| == TABLE_SIZE && s < |lens| && 9 <= lens[s] <= 15
  {
    var r := Reversed(lens, s);
    Low(r, 8) < 0x100 &&
    InSecondaryAt(table, table[Low(r, 8)], lens[s] - 8, Shr(r, 8), Entry(s, lens[s] - 8))
  }

  ghost predicate InSecondaryAt(table: seq<nat>, t: nat, k: nat, r: nat, e: nat)
    requires |table| == TABLE_SIZE
  {
    && IsPointer(t) && BitsField(t) >= k
    && Value(t) + 0x100 + Pow2(BitsField(t)) <= TABLE_SIZE
    && forall x :: 0 <= x < Pow2(BitsField(t)) && Low(x, k) == r ==> table[Value(t) + 0x100 + x] == e
  }

  ghost predicate Present(table: seq<nat>, lens: seq<nat>, s: nat)
    requires |table| == TABLE_SIZE && s < |lens| && 1 <= lens[s] <= 15
  {
    if lens[s] <= 8 then InPrimary(table, lens, s) else InSecondary(table, lens, s)
  }

  /** The table decodes the canonical code: a bit buffer that starts with the code of s gives s
      and uses exactly lens[s] bits. */
  ghost predicate Decodes(table: seq<nat>, lens: seq<nat>)
    requires InBounds(table)
  {
    forall s, val :: 0 <= s < |lens| && lens[s] > 0 && Low(val, lens[s]) == Reversed(lens, s) ==>
      Lookup(table, val) == (s, lens[s])
  }

  lemma {:induction false} PresentDecodes(table: seq<nat>, lens: seq<nat>, s: nat, val: nat)
    requires |table| == TABLE_SIZE && InBounds(table)
    requires s < |lens| <= 512 && 1 <= lens[s] <= 15 && Present(table, lens, s)
    requires Low(val, lens[s]) == Reversed(lens, s)
    ensures Lookup(table, val) == (s, lens[s])
  {
    hide InPrimary, InSecondary, Reversed, Low, Shr, Pow2, Value, IsPointer, BitsField, InBounds;
    if lens[s] <= 8 {
      ShortCodeDecodes(table, lens, s, val);
    } else {
      LongCodeDecodes(table, lens, s, val);
    }
  }

  lemma {:induction false} ShortCodeDecodes(table: seq<nat>, lens: seq<nat>, s: nat, val: nat)
    requires |table| == TABLE_SIZE
    requires s < |lens| <= 512 && 1 <= lens[s] <= 8 && InPrimary(table, lens, s)
    requires Low(val, lens[s]) == Reversed(lens, s)
    ensures Low(val, 8) < 0x100
    ensures var t := table[Low(val, 8)]; !IsPointer(t) && Value(t) == s && BitsField(t) == lens[s] - 1
  {
    LowLow(val, lens[s], 8);
    EntryFields(s, lens[s] - 1);
  }

  lemma {:induction false} LongCodeDecodes(table: seq<nat>, lens: seq<nat>, s: nat, val: nat)
    requires |table| == TABLE_SIZE
    requires s < |lens| <= 512 && 9 <= lens[s] <= 15 && InSecondary(table, lens, s)
    requires Low(val, lens[s]) == Reversed(lens, s)
    ensures Low(val, 8) < 0x100
    ensures var t := table[Low(val, 8)];
            IsPointer(t) && Value(t) + 0x100 + Pow2(BitsField(t)) <= TABLE_SIZE &&
            var u := table[Value(t) + 0x100 + Low(Shr(val, 8), BitsField(t))];
            Value(u) == s && BitsField(u) == lens[s] - 8
  {
    var r := Reversed(lens, s);
    assert Low(r, 8) == Low(val, 8) by { LowLow(val, 8, lens[s]); }
    assert Shr(r, 8) == Low(Shr(val, 8), lens[s] - 8) by { ShrLow(val, 8, lens[s]); }
    SecondaryDecodes(table, Shr(val, 8), table[Low(val, 8)], lens[s] - 8, Shr(r, 8), s);
  }

  lemma {:induction false} SecondaryDecodes(table: seq<nat>, v: nat, t: nat, k: nat, r: nat, s: nat)
    requires |table| == TABLE_SIZE && s < 512 && 1 <= k <= 7
    requires Low(v, k) == r && InSecondaryAt(table, t, k, r, Entry(s, k))
    ensures var u := table[Value(t) + 0x100 + Low(v, BitsField(t))];
            Value(u) == s && BitsField(u) == k
  {
    var b := BitsField(t);
    var x := Low(v, b);
    assert Low(x, k) == r by { LowLow(v, k, b); }
    assert table[Value(t) + 0x100 + x] == Entry(s, k);
    EntryFields(s, k);
  }

  lemma {:induction false} ShrLow(v: nat, k: nat, n: nat)
    requires k <= n
    ensures Shr(Low(v, n), k) == Low(Shr(v, k), n - k)
  {
    if k > 0 { ShrLow(v / 2, k - 1, n - 1); }
  }
}

/** Where the secondary tables of a decoding table begin, and that no two codes want the same cell. */
module HuffmanRoom {
  import opened Bits
  import opened CanonicalCode
  import opened HuffmanTable

  // ----- Room for the secondary tables -----

  /** The first 8 bits of a long code, which select its secondary table. */
  function Prefix(lens: seq<nat>, s: nat): nat
    requires s < |lens| && lens[s] >= 9
  {
    Shr(Code(lens, s), lens[s] - 8)
  }

  /** The long codes that are entered before the one of length j with rank i: longer codes come first. */
  predicate Earlier(lens: seq<nat>, j: nat, i: nat, t: nat) {
    t < |lens| && lens[t] >= 9 && (lens[t] > j || (lens[t] == j && Rank(lens, t) < i))
  }

  /** The code is the first one with its prefix, so that a secondary table is started for it. */
  ghost predicate Opens(lens: seq<nat>, s: nat)
    requires s < |lens| && lens[s] >= 9
  {
    forall t :: Earlier(lens, lens[s], Rank(lens, s), t) ==> Prefix(lens, t) != Prefix(lens, s)
  }

  /** The size of the secondary tables that are started for the earlier ones of the first n symbols. */
  ghost function TakenBy(lens: seq<nat>, j: nat, i: nat, n: nat): nat
    requires n <= |lens|
  {
    if n == 0 then 0
    else TakenBy(lens, j, i, n - 1) + if Earlier(lens, j, i, n - 1) && Opens(lens, n - 1) then Pow2(lens[n - 1] - 8)
                                      else 0
  }

  ghost function Taken(lens: seq<nat>, j: nat, i: nat): nat { TakenBy(lens, j, i, |lens|) }

  /** Every secondary table starts at an offset that an entry can hold. */
  ghost predicate Room(lens: seq<nat>) {
    forall s :: 0 <= s < |lens| && lens[s] >= 9 && Opens(lens, s) ==> Taken(lens, lens[s], Rank(lens, s)) <= 0x1ff
  }

  lemma {:induction false} TakenStep(lens: seq<nat>, j: nat, i: nat, v: nat, n: nat)
    requires j >= 9 && v < |lens| && lens[v] == j && Rank(lens, v) == i && n <= |lens|
    ensures TakenBy(lens, j, i + 1, n) == TakenBy(lens, j, i, n) + if v < n && Opens(lens, v) then Pow2(j - 8) else 0
  {
    hide Opens, Pow2, CountIn;
    if n > 0 {
      TakenStep(lens, j, i, v, n - 1);
      var t := n - 1;
      if lens[t] == j && t != v {
        if t < v { RankIncreases(lens, t, v); } else { RankIncreases(lens, v, t); }
      }
    }
  }

  /** All codes of one length are entered before the first of the next shorter length. */
  lemma {:induction false} TakenNext(lens: seq<nat>, j: nat, n: nat)
    requires j >= 9 && n <= |lens|
    ensures TakenBy(lens, j, Count(lens, j), n) == TakenBy(lens, j - 1, 0, n)
  {
    hide Opens, Pow2, CountIn;
    if n > 0 {
      TakenNext(lens, j, n - 1);
      if lens[n - 1] == j { RankInRange(lens, n - 1); }
    }
  }

  lemma {:induction false} TakenNothing(lens: seq<nat>, n: nat)
    requires n <= |lens| && forall t :: 0 <= t < |lens| ==> lens[t] <= 15
    ensures TakenBy(lens, 15, 0, n) == 0
  {
    hide Opens, Pow2;
    if n > 0 { TakenNothing(lens, n - 1); }
  }

  // ----- No two codes in one cell -----

  /** Two bytes that begin with the bits of x. */
  lemma {:induction false} TwoByteBits(x: nat, n: nat) returns (mem: seq<Byte>)
    requires n <= 15
    ensures |mem| == 2 && Read(mem, 0, n) == Low(x, n)
  {
    hide Read, Low;
    var y := Low(x, 16);
    assert y < 0x10000 by { SixteenBits(x); }
    mem := [y % 256, y / 256];
    ReadOneByte(mem, 0, 8);
    ReadByte(mem, 1);
    assert Read(mem, 0, 16) == y;
    ReadSplit(mem, 0, n, 16);
    LowLow(x, n, 16);
  }

  lemma {:induction false} SixteenBits(x: nat)
    ensures Low(x, 16) < 0x10000
  {
    hide Low, Pow2;
    PowerOfByte();
    ShlPow2(8, 8);
    ShlByte(256);
  }

  /** No number ends in the reversed codes of two symbols. */
  lemma {:induction false} CodesApart(lens: seq<nat>, s: nat, t: nat, x: nat)
    requires Kraft(lens) && s < |lens| && t < |lens| && lens[s] > 0 && lens[t] > 0
    requires Low(x, lens[s]) == Reversed(lens, s) && Low(x, lens[t]) == Reversed(lens, t)
    ensures s == t
  {
    hide Low, Reversed, Read, ReadMsb, Code, KraftSum;
    var mem := TwoByteBits(x, 15);
    StandsAt(lens, s, x, mem);
    StandsAt(lens, t, x, mem);
    PrefixFree(lens, mem, 0, s, t);
  }

  lemma {:induction false} StandsAt(lens: seq<nat>, s: nat, x: nat, mem: seq<Byte>)
    requires Kraft(lens) && s < |lens| && 0 < lens[s] <= 15 && Low(x, lens[s]) == Reversed(lens, s)
    requires |mem| == 2 && Read(mem, 0, 15) == Low(x, 15)
    ensures CodeAt(lens, mem, 0, s)
  {
    hide Low, Read, ReadMsb, Code, Rev, Kraft;
    var n, c := lens[s], Code(lens, s);
    ReadSplit(mem, 0, n, 15);
    LowLow(x, n, 15);
    ReadIsReversedMsb(mem, 0, n);
    CodeFits(lens, s);
    RevRev(c, n);
    RevRev(ReadMsb(mem, 0, n), n);
    LowSmall(c, n);
    LowSmall(ReadMsb(mem, 0, n), n);
  }

  /** The low byte of a long reversed code is its prefix, reversed. */
  lemma {:induction false} SamePrefix(lens: seq<nat>, s: nat, t: nat)
    requires Kraft(lens) && s < |lens| && t < |lens| && lens[s] >= 9 && lens[t] >= 9
    ensures Prefix(lens, s) == Prefix(lens, t) <==> Low(Reversed(lens, s), 8) == Low(Reversed(lens, t), 8)
  {
    hide Low, Code, Rev, Kraft, Reversed, Prefix;
    PrefixReversed(lens, s);
    PrefixReversed(lens, t);
    RevRev(Prefix(lens, s), 8);
    RevRev(Prefix(lens, t), 8);
    LowSmall(Prefix(lens, s), 8);
    LowSmall(Prefix(lens, t), 8);
  }

  lemma {:induction false} PrefixReversed(lens: seq<nat>, s: nat)
    requires Kraft(lens) && s < |lens| && lens[s] >= 9
    ensures Low(Reversed(lens, s), 8) == Rev(Prefix(lens, s), 8) && Prefix(lens, s) < Pow2(8)
  {
    hide Low, Code, Rev, Shl, Shr, Kraft, Pow2;
    var n, c := lens[s], Code(lens, s);
    CodeFits(lens, s);
    RevSplit(c, n, n - 8);
    ShrOfShl(Rev(c, n - 8), Rev(Shr(c, n - 8), 8), 8);
    ShrBound(c, n - 8, n);
  }

  lemma {:induction false} ShrBound(v: nat, k: nat, n: nat)
    requires k <= n && v < Pow2(n)
    ensures Shr(v, k) < Pow2(n - k)
  {
    if k > 0 { ShrBound(v / 2, k - 1, n - 1); }
  }

  /** A cell of a secondary table, together with the index of its primary cell, ends in the code. */
  lemma {:induction false} CellIsCode(lens: seq<nat>, s: nat, x: nat)
    requires s < |lens| && lens[s] >= 9 && Low(x, lens[s] - 8) == Shr(Reversed(lens, s), 8)
    ensures Low(Low(Reversed(lens, s), 8) + Shl(x, 8), lens[s]) == Reversed(lens, s)
  {
    hide Low, Shl, Shr, Reversed;
    var r := Reversed(lens, s);
    LowAbove(Low(r, 8), x, 8, lens[s] - 8);
    LowShr(r, 8);
  }
}

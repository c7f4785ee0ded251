/** Natural-number models of the C bit operators, and bit strings read from memory.
    Everything is defined by halving and doubling, so that all proofs are linear. */
module Bits {

  type Byte = x: int | 0 <= x < 256

  /** `1 << k` */
  function Pow2(k: nat): (r: nat)
    ensures r >= 1
  {
    if k == 0 then 1 else 2 * Pow2(k - 1)
  }

  lemma {:induction false} Powers()
    ensures Pow2(0) == 1 && Pow2(1) == 2 && Pow2(2) == 4 && Pow2(3) == 8 && Pow2(4) == 16 && Pow2(5) == 32
    ensures Pow2(6) == 64 && Pow2(7) == 128 && Pow2(8) == 256 && Pow2(9) == 512 && Pow2(10) == 1024
    ensures Pow2(11) == 2048 && Pow2(12) == 4096 && Pow2(13) == 8192
  {
  }

  lemma {:induction false} Pow2Mono(a: nat, b: nat)
    requires a <= b
    ensures Pow2(a) <= Pow2(b)
  {
    if a < b { Pow2Mono(a, b - 1); }
  }

  // The C operators `&`, `|`, `<<` and `>>` on unsigned values.

  function And(a: nat, b: nat): (r: nat)
    ensures r <= a && r <= b
  {
    if a == 0 || b == 0 then 0 else (a % 2 + b % 2) / 2 + 2 * And(a / 2, b / 2)
  }

  function Or(a: nat, b: nat): nat
    decreases a + b
  {
    if a == 0 then b
    else if b == 0 then a
    else (a % 2 + b % 2 + 1) / 2 + 2 * Or(a / 2, b / 2)
  }

  function Shl(v: nat, k: nat): nat {
    if k == 0 then v else 2 * Shl(v, k - 1)
  }

  function Shr(v: nat, k: nat): nat {
    if k == 0 then v else Shr(v / 2, k - 1)
  }

  /** `v & ~m` clears in v the bits of m. */
  function AndNot(v: nat, m: nat): nat { v - And(v, m) }

  /** The low k bits of v. */
  function Low(v: nat, k: nat): (r: nat)
    ensures r < Pow2(k)
  {
    if k == 0 then 0 else v % 2 + 2 * Low(v / 2, k - 1)
  }

  // One bit at a time.

  lemma {:induction false} Pow2First(k: nat)
    requires k > 0
    ensures Pow2(k) == 2 * Pow2(k - 1)
  {
  }

  lemma {:induction false} ShlFirst(v: nat, k: nat)
    requires k > 0
    ensures Shl(v, k) == 2 * Shl(v, k - 1)
  {
  }

  lemma {:induction false} ShrFirst(v: nat, k: nat)
    requires k > 0
    ensures Shr(v, k) == Shr(v / 2, k - 1)
  {
  }

  lemma {:induction false} LowFirst(v: nat, k: nat)
    requires k > 0
    ensures Low(v, k) == v % 2 + 2 * Low(v / 2, k - 1) && Low(v, k) % 2 == v % 2
  {
    hide Low;
    assert Low(v, k) == v % 2 + 2 * Low(v / 2, k - 1) by { LowUnfolds(v, k); }
  }

  lemma {:induction false} LowUnfolds(v: nat, k: nat)
    requires k > 0
    ensures Low(v, k) == v % 2 + 2 * Low(v / 2, k - 1)
  {
  }

  lemma {:induction false} HalfSum(a: nat, h: nat)
    ensures (a + 2 * h) % 2 == a % 2 && (a + 2 * h) / 2 == a / 2 + h && a == a % 2 + 2 * (a / 2)
  {
  }

  lemma {:induction false} AndMask(v: nat, k: nat)
    ensures And(v, Pow2(k) - 1) == Low(v, k)
  {
    if k > 0 {
      AndMask(v / 2, k - 1);
      var m := Pow2(k) - 1;
      assert m % 2 == 1 && m / 2 == Pow2(k - 1) - 1;
      if v == 0 {
        assert And(0, m / 2) == 0;
      }
    }
  }

  lemma {:induction false} AndBit(v: nat, k: nat)
    ensures And(v, Pow2(k)) == (if Shr(v, k) % 2 == 1 then Pow2(k) else 0)
  {
    if k > 0 {
      AndBit(v / 2, k - 1);
      if v == 0 {
        assert And(0, Pow2(k - 1)) == 0;
      }
    } else {
      assert v > 0 ==> And(v, 1) == (v % 2 + 1) / 2 + 2 * And(v / 2, 0);
    }
  }

  lemma {:induction false} OrDisjoint(a: nat, b: nat, k: nat)
    requires a < Pow2(k)
    ensures Or(a, Shl(b, k)) == a + Shl(b, k)
  {
    if k > 0 && a > 0 {
      OrDisjoint(a / 2, b, k - 1);
    }
  }

  lemma {:induction false} ShlPlus(a: nat, b: nat, k: nat)
    ensures Shl(a + b, k) == Shl(a, k) + Shl(b, k)
  {
    if k > 0 { ShlPlus(a, b, k - 1); }
  }

  lemma {:induction false} ShlOne(k: nat)
    ensures Shl(1, k) == Pow2(k)
  {
    if k > 0 { ShlOne(k - 1); }
  }

  lemma {:induction false} ShlBound(v: nat, k: nat, n: nat)
    requires v < Pow2(n)
    ensures Shl(v, k) + Pow2(k) <= Pow2(n + k)
  {
    if k > 0 { ShlBound(v, k - 1, n); }
  }

  lemma {:induction false} LowSmall(v: nat, k: nat)
    requires v < Pow2(k)
    ensures Low(v, k) == v
  {
    if k > 0 { LowSmall(v / 2, k - 1); }
  }

  lemma {:induction false} LowLow(v: nat, k: nat, n: nat)
    requires k <= n
    ensures Low(Low(v, n), k) == Low(v, k)
  {
    hide Low;
    if k == 0 {
      LowNone(v);
      LowNone(Low(v, n));
    } else {
      LowFirst(v, n);
      LowFirst(v, k);
      LowFirst(Low(v, n), k);
      HalfSum(v % 2, Low(v / 2, n - 1));
      LowLow(v / 2, k - 1, n - 1);
    }
  }

  lemma {:induction false} LowNone(v: nat)
    ensures Low(v, 0) == 0
  {
  }

  lemma {:induction false} LowShr(v: nat, k: nat)
    ensures v == Low(v, k) + Shl(Shr(v, k), k)
  {
    if k > 0 { LowShr(v / 2, k - 1); }
  }

  /** Numbers with the same low j bits are at least 2^j apart. */
  lemma {:induction false} LowGap(x: nat, y: nat, j: nat)
    requires x < y && Low(x, j) == Low(y, j)
    ensures x + Pow2(j) <= y
  {
    if j > 0 { LowGap(x / 2, y / 2, j - 1); }
  }

  lemma {:induction false} LowPlusPow2(x: nat, j: nat)
    ensures Low(x + Pow2(j), j) == Low(x, j)
  {
    if j > 0 {
      LowPlusPow2(x / 2, j - 1);
      var y := x + Pow2(j);
      assert y == x + 2 * Pow2(j - 1);
      assert y % 2 == x % 2 && y / 2 == x / 2 + Pow2(j - 1);
    }
  }

  /** Adding bits above the low s. */
  lemma {:induction false} LowAbove(a: nat, x: nat, s: nat, n: nat)
    requires a < Pow2(s)
    ensures Low(a + Shl(x, s), s + n) == a + Shl(Low(x, n), s)
  {
    hide Low, Shl, Pow2;
    if s == 0 {
      NothingBelow(a, x, Low(x, n));
    } else {
      var y, t := a + Shl(x, s), s - 1;
      ShlFirst(x, s);
      ShlFirst(Low(x, n), s);
      Pow2First(s);
      HalfSum(a, Shl(x, t));
      LowAbove(a / 2, x, t, n);
      LowFirst(y, s + n);
      assert s + n - 1 == t + n;
    }
  }

  lemma {:induction false} NothingBelow(a: nat, x: nat, y: nat)
    ensures (a < Pow2(0) ==> a == 0) && Shl(x, 0) == x && Shl(y, 0) == y
  {
  }

  // Bit strings in memory: bit p is bit p % 8 of byte p / 8, least significant first.

  function BitAt(mem: seq<Byte>, p: nat): (b: nat)
    requires p < 8 * |mem|
    ensures b < 2
  {
    Shr(mem[p / 8], p % 8) % 2
  }

  /** The n bits from position p as a number, first bit least significant. */
  function Read(mem: seq<Byte>, p: nat, n: nat): (r: nat)
    requires p + n <= 8 * |mem|
    ensures r < Pow2(n)
    decreases n
  {
    if n == 0 then 0 else BitAt(mem, p) + 2 * Read(mem, p + 1, n - 1)
  }

  /** The n bits from position p as a number, first bit most significant. */
  function ReadMsb(mem: seq<Byte>, p: nat, n: nat): (r: nat)
    requires p + n <= 8 * |mem|
    ensures r < Pow2(n)
    decreases n
  {
    if n == 0 then 0 else 2 * ReadMsb(mem, p, n - 1) + BitAt(mem, p + n - 1)
  }

  lemma {:induction false} ReadNone(mem: seq<Byte>, p: nat)
    requires p <= 8 * |mem|
    ensures Read(mem, p, 0) == 0
  {
  }

  lemma {:induction false} ReadFirst(mem: seq<Byte>, p: nat, n: nat)
    requires 0 < n && p + n <= 8 * |mem|
    ensures Read(mem, p, n) == BitAt(mem, p) + 2 * Read(mem, p + 1, n - 1)
  {
  }

  lemma {:induction false} ShlNone(v: nat)
    ensures Shl(v, 0) == v
  {
  }

  lemma {:induction false} ReadAppend(mem: seq<Byte>, p: nat, k: nat, n: nat)
    requires p + k + n <= 8 * |mem|
    ensures Read(mem, p, k + n) == Read(mem, p, k) + Shl(Read(mem, p + k, n), k)
    decreases k
  {
    hide BitAt, Pow2, Read, Shl;
    if k == 0 {
      ReadNone(mem, p);
      ShlNone(Read(mem, p, n));
    } else {
      var q, j := p + 1, k - 1;
      ReadAppend(mem, q, j, n);
      ReadFirst(mem, p, k);
      ReadFirst(mem, p, k + n);
      assert q + j == p + k && j + n == k + n - 1;
      ShlFirst(Read(mem, p + k, n), k);
    }
  }

  /** Taking the low k of n buffered bits, and dropping them. */
  lemma {:induction false} ReadSplit(mem: seq<Byte>, p: nat, k: nat, n: nat)
    requires k <= n && p + n <= 8 * |mem|
    ensures Low(Read(mem, p, n), k) == Read(mem, p, k)
    ensures Shr(Read(mem, p, n), k) == Read(mem, p + k, n - k)
  {
    hide Read, Low, Shr, Shl;
    ReadAppend(mem, p, k, n - k);
    ShrOfShl(Read(mem, p + k, n - k), Read(mem, p, k), k);
  }

  lemma {:induction false} ReadInByte(mem: seq<Byte>, i: nat, k: nat)
    requires i < |mem| && k <= 8
    ensures Read(mem, 8 * i + k, 8 - k) == Shr(mem[i], k)
    decreases 8 - k
  {
    hide Read, Shr, Pow2;
    if k == 8 {
      ByteSmall(mem[i]);
      ReadNone(mem, 8 * i + 8);
    } else {
      ReadInByte(mem, i, k + 1);
      ReadFirst(mem, 8 * i + k, 8 - k);
      assert (8 * i + k) / 8 == i && (8 * i + k) % 8 == k;
      ShrStep(mem[i], k);
    }
  }

  lemma {:induction false} ByteSmall(v: Byte)
    ensures Shr(v, 8) == 0
  {
    hide Shr, Pow2;
    assert Pow2(8) == 256 by { PowerOfByte(); }
    ShrSmall(v, 8);
  }

  lemma {:induction false} PowerOfByte()
    ensures Pow2(8) == 256
  {
    assert Pow2(4) == 16;
  }

  lemma {:induction false} ShrStep(v: nat, k: nat)
    ensures Shr(v, k + 1) == Shr(v, k) / 2
  {
    if k > 0 { ShrStep(v / 2, k - 1); }
  }

  lemma {:induction false} ShrSmall(v: nat, k: nat)
    requires v < Pow2(k)
    ensures Shr(v, k) == 0
  {
    if k > 0 { ShrSmall(v / 2, k - 1); }
  }

  lemma {:induction false} ReadByte(mem: seq<Byte>, i: nat)
    requires i < |mem|
    ensures Read(mem, 8 * i, 8) == mem[i]
  {
    ReadInByte(mem, i, 0);
  }

  /** n whole bytes from byte i, least significant byte first. */
  function LittleEndian(mem: seq<Byte>, i: nat, n: nat): nat
    requires i + n <= |mem|
    decreases n
  {
    if n == 0 then 0 else mem[i] + 256 * LittleEndian(mem, i + 1, n - 1)
  }

  lemma {:induction false} ReadBytes(mem: seq<Byte>, i: nat, n: nat)
    requires i + n <= |mem|
    ensures Read(mem, 8 * i, 8 * n) == LittleEndian(mem, i, n)
    decreases n
  {
    if n > 0 {
      ReadBytes(mem, i + 1, n - 1);
      assert Read(mem, 8 * i, 8 + 8 * (n - 1)) == mem[i] as int + 256 * Read(mem, 8 * i + 8, 8 * (n - 1)) by {
        ReadOneByte(mem, i, 8 * (n - 1));
      }
    }
  }

  lemma {:induction false} ReadOneByte(mem: seq<Byte>, i: nat, n: nat)
    requires 8 * i + 8 + n <= 8 * |mem|
    ensures Read(mem, 8 * i, 8 + n) == mem[i] as int + 256 * Read(mem, 8 * i + 8, n)
  {
    hide Read, Shl, Pow2, BitAt;
    ReadByte(mem, i);
    ReadAppend(mem, 8 * i, 8, n);
    ShlByte(Read(mem, 8 * i + 8, n));
  }

  lemma {:induction false} ShlByte(v: nat)
    ensures Shl(v, 8) == 256 * v
  {
    assert Shl(v, 1) == 2 * Shl(v, 0);
    assert Shl(v, 2) == 2 * Shl(v, 1);
    assert Shl(v, 4) == 4 * Shl(v, 2);
    assert Shl(v, 6) == 4 * Shl(v, 4);
  }

  // Bit reversal of a j-bit number; higher bits of c are ignored.

  function Rev(c: nat, j: nat): (r: nat)
    ensures r < Pow2(j)
  {
    if j == 0 then 0 else (if c % 2 == 1 then Pow2(j - 1) else 0) + Rev(c / 2, j - 1)
  }

  lemma {:induction false} ReadLast(mem: seq<Byte>, p: nat, n: nat)
    requires p + n < 8 * |mem|
    ensures Read(mem, p, n + 1) == Read(mem, p, n) + if BitAt(mem, p + n) == 1 then Pow2(n) else 0
    decreases n
  {
    if n > 0 { ReadLast(mem, p + 1, n - 1); }
  }

  lemma {:induction false} RevAppend(c: nat, b: nat, n: nat)
    requires b < 2
    ensures Rev(2 * c + b, n + 1) == Rev(c, n) + if b == 1 then Pow2(n) else 0
  {
    assert (2 * c + b) % 2 == b && (2 * c + b) / 2 == c;
  }

  /** Reading a bit string in the two orders gives mutually reversed numbers. */
  lemma {:induction false} ReadIsReversedMsb(mem: seq<Byte>, p: nat, n: nat)
    requires p + n <= 8 * |mem|
    ensures Read(mem, p, n) == Rev(ReadMsb(mem, p, n), n)
    decreases n
  {
    if n > 0 {
      ReadIsReversedMsb(mem, p, n - 1);
      ReversedMsbStep(mem, p, n - 1);
    }
  }

  lemma {:induction false} ReversedMsbStep(mem: seq<Byte>, p: nat, m: nat)
    requires p + m < 8 * |mem| && Read(mem, p, m) == Rev(ReadMsb(mem, p, m), m)
    ensures Read(mem, p, m + 1) == Rev(ReadMsb(mem, p, m + 1), m + 1)
  {
    hide BitAt, Read, Rev;
    ReadLast(mem, p, m);
    RevAppend(ReadMsb(mem, p, m), BitAt(mem, p + m), m);
  }

  lemma {:induction false} ShlZero(k: nat)
    ensures Shl(0, k) == 0
  {
    if k > 0 { ShlZero(k - 1); }
  }

  /** The low-order bit of a reversed code is its first (most significant) bit. */
  lemma {:induction false} RevLowBit(c: nat, j: nat)
    requires j > 0 && Pow2(j - 1) <= c < Pow2(j)
    ensures Rev(c, j) % 2 == 1
  {
    if j > 1 {
      RevLowBit(c / 2, j - 1);
      assert Pow2(j - 1) % 2 == 0;
    } else {
      assert c == 1;
    }
  }

  lemma {:induction false} RevSplit(c: nat, j: nat, k: nat)
    requires k <= j
    ensures Rev(c, j) == Shl(Rev(c, k), j - k) + Rev(Shr(c, k), j - k)
  {
    if k > 0 {
      RevSplit(c / 2, j - 1, k - 1);
      ShlPow2Plus(if c % 2 == 1 then 1 else 0, k - 1, Rev(c / 2, k - 1), j - k);
    } else {
      ShlZero(j);
    }
  }

  lemma {:induction false} ShlPow2Plus(b: nat, k: nat, x: nat, n: nat)
    requires b <= 1
    ensures Shl((if b == 1 then Pow2(k) else 0) + x, n) == (if b == 1 then Pow2(k + n) else 0) + Shl(x, n)
  {
    if n > 0 { ShlPow2Plus(b, k, x, n - 1); }
  }

  lemma {:induction false} RevLow(c: nat, k: nat)
    ensures Rev(Low(c, k), k) == Rev(c, k)
  {
    if k > 0 { RevLow(c / 2, k - 1); }
  }

  // Reversed increment: what adding one to c does to Rev(c, j).

  lemma {:induction false} TopBit(b: nat, x: nat, k: nat)
    requires b < 2 && x < Pow2(k)
    ensures Shr((if b == 1 then Pow2(k) else 0) + x, k) == b
    ensures Low((if b == 1 then Pow2(k) else 0) + x, k) == x
  {
    if k > 0 {
      TopBit(b, x / 2, k - 1);
      var y := (if b == 1 then Pow2(k) else 0) + x;
      assert y % 2 == x % 2 && y / 2 == (if b == 1 then Pow2(k - 1) else 0) + x / 2;
    }
  }

  lemma {:induction false} ShrOfLow(x: nat, k: nat, n: nat)
    requires k < n
    ensures Shr(Low(x, n), k) % 2 == Shr(x, k) % 2
  {
    if k > 0 { ShrOfLow(x / 2, k - 1, n - 1); }
  }

  lemma {:induction false} LowGrow(v: nat, k: nat)
    ensures Low(v, k + 1) == Low(v, k) + if Shr(v, k) % 2 == 1 then Pow2(k) else 0
  {
    if k > 0 { LowGrow(v / 2, k - 1); }
  }

  /** Set the highest clear bit below position m and clear the bits above it. */
  function RevInc(code: nat, m: nat): nat {
    if m == 0 then 0
    else if Shr(code, m - 1) % 2 == 0 then Low(code, m - 1) + Pow2(m - 1)
    else RevInc(code, m - 1)
  }

  lemma {:induction false} RevIncLow(x: nat, m: nat, n: nat)
    requires m <= n
    ensures RevInc(Low(x, n), m) == RevInc(x, m)
  {
    if m > 0 {
      ShrOfLow(x, m - 1, n);
      LowLow(x, m - 1, n);
      RevIncLow(x, m - 1, n);
    }
  }

  lemma {:induction false} RevFirst(c: nat, j: nat)
    requires j > 0
    ensures Rev(c, j) == (if c % 2 == 1 then Pow2(j - 1) else 0) + Rev(c / 2, j - 1)
  {
  }

  lemma {:induction false} RevIncTop(code: nat, m: nat)
    requires m > 0
    ensures RevInc(code, m) == if Shr(code, m - 1) % 2 == 0 then Low(code, m - 1) + Pow2(m - 1) else RevInc(code, m - 1)
  {
  }

  lemma {:induction false} NextHalf(c: nat)
    ensures if c % 2 == 1 then (c + 1) % 2 == 0 && (c + 1) / 2 == c / 2 + 1
            else (c + 1) % 2 == 1 && (c + 1) / 2 == c / 2
  {
  }

  lemma {:induction false} RevNone(c: nat, x: nat)
    ensures Rev(c, 0) == 0 && RevInc(x, 0) == 0
  {
  }

  lemma {:induction false} RevIncIsNext(c: nat, j: nat)
    ensures RevInc(Rev(c, j), j) == Rev(c + 1, j)
  {
    hide Shr, Low, Pow2, Rev, RevInc;
    if j == 0 {
      RevNone(c, Rev(c, 0));
      RevNone(c + 1, 0);
    } else {
      var x, h := Rev(c / 2, j - 1), c / 2;
      RevFirst(c, j);
      RevFirst(c + 1, j);
      RevIncTop(Rev(c, j), j);
      NextHalf(c);
      TopBit(c % 2, x, j - 1);
      if c % 2 == 1 {
        RevIncIsNext(h, j - 1);
        RevIncLow(Rev(c, j), j - 1, j - 1);
      }
    }
  }

  /** As RevInc, but keeping the bits at position m and above. */
  function RevAddAt(code: nat, m: nat): nat {
    if m == 0 then code
    else if And(code, Pow2(m - 1)) == 0 then code + Pow2(m - 1)
    else RevAddAt(AndNot(code, Pow2(m - 1)), m - 1)
  }

  lemma {:induction false} ShrOfShl(h: nat, x: nat, k: nat)
    requires x < Pow2(k)
    ensures Shr(Shl(h, k) + x, k) == h && Low(Shl(h, k) + x, k) == x
  {
    if k > 0 { ShrOfShl(h, x / 2, k - 1); }
  }

  lemma {:induction false} RevAddAtIsInc(h: nat, x: nat, m: nat)
    requires x < Pow2(m)
    ensures RevAddAt(Shl(h, m) + x, m) == Shl(h, m) + RevInc(x, m)
    decreases m
  {
    hide And, Low, Shr;
    if m > 0 {
      var k := m - 1;
      TopOf(x, k);
      BitOfSum(h, x, k);
      if Shr(x, k) == 1 {
        ShlTwice(h, k);
        RevAddAtIsInc(2 * h, Low(x, k), k);
        RevIncLow(x, k, k);
      }
    }
  }

  /** Bit k of a number below 2^(k+1) is not changed by adding a multiple of 2^(k+1). */
  lemma {:induction false} BitOfSum(h: nat, x: nat, k: nat)
    requires x < Pow2(k + 1)
    ensures And(Shl(h, k + 1) + x, Pow2(k)) == if Shr(x, k) == 1 then Pow2(k) else 0
  {
    hide Shl, Shr, Low, And, Pow2;
    TopOf(x, k);
    var b := Shr(x, k);
    ShlTwice(h, k);
    ShlPlus(2 * h, b, k);
    ShlOne(k);
    ShlZero(k);
    ShrOfShl(2 * h + b, Low(x, k), k);
    AndBit(Shl(h, k + 1) + x, k);
  }

  lemma {:induction false} TopOf(x: nat, k: nat)
    requires x < Pow2(k + 1)
    ensures Shr(x, k) < 2 && x == (if Shr(x, k) == 1 then Pow2(k) else 0) + Low(x, k)
  {
    if k > 0 { TopOf(x / 2, k - 1); }
  }

  lemma {:induction false} ShlTwice(h: nat, k: nat)
    ensures Shl(2 * h, k) == Shl(h, k + 1)
  {
    if k > 0 { ShlTwice(h, k - 1); }
  }

  lemma {:induction false} AddPow2(c: nat, k: nat)
    ensures Shr(c + Pow2(k), k) == Shr(c, k) + 1
    ensures Rev(c + Pow2(k), k) == Rev(c, k)
  {
    hide Shr, Rev, Pow2;
    if k == 0 {
      PowerOfNone(c);
      RevNone(c, 0);
      RevNone(c + 1, 0);
    } else {
      AddPow2(c / 2, k - 1);
      Pow2First(k);
      HalfSum(c, Pow2(k - 1));
      ShrFirst(c, k);
      ShrFirst(c + Pow2(k), k);
      RevFirst(c, k);
      RevFirst(c + Pow2(k), k);
    }
  }

  lemma {:induction false} PowerOfNone(v: nat)
    ensures Pow2(0) == 1 && Shr(v, 0) == v && Shr(v + 1, 0) == v + 1
  {
  }

  /** Reverse addition of 2^k to a j-bit code. */
  lemma {:induction false} RevAddAtIsPlus(c: nat, j: nat, k: nat)
    requires k <= j
    ensures RevAddAt(Rev(c, j), j - k) == Rev(c + Pow2(k), j)
  {
    hide Rev, RevAddAt, RevInc, Shl, Shr, Pow2;
    RevSplit(c, j, k);
    RevSplit(c + Pow2(k), j, k);
    AddPow2(c, k);
    RevAddAtIsInc(Rev(c, k), Rev(Shr(c, k), j - k), j - k);
    RevIncIsNext(Shr(c, k), j - k);
  }

  lemma {:induction false} RevTop(b: nat, x: nat, k: nat)
    requires b < 2 && x < Pow2(k)
    ensures Rev((if b == 1 then Pow2(k) else 0) + x, k + 1) == b + 2 * Rev(x, k)
  {
    if k > 0 {
      RevTop(b, x / 2, k - 1);
      var y := (if b == 1 then Pow2(k) else 0) + x;
      assert y % 2 == x % 2 && y / 2 == (if b == 1 then Pow2(k - 1) else 0) + x / 2;
    } else {
      assert Rev(b, 1) == b + Rev(b / 2, 0);
    }
  }

  /** Reversal is its own inverse on the low j bits. */
  lemma {:induction false} RevRev(c: nat, j: nat)
    ensures Rev(Rev(c, j), j) == Low(c, j)
  {
    if j > 0 {
      RevRev(c / 2, j - 1);
      RevTop(c % 2, Rev(c / 2, j - 1), j - 1);
    }
  }

  lemma {:induction false} RevGrow(v: nat, k: nat)
    ensures Rev(v, k + 1) == 2 * Rev(v, k) + Shr(v, k) % 2
  {
    if k > 0 { RevGrow(v / 2, k - 1); }
  }

  /** Reading back a code from the buffer that shows its reversal. */
  lemma {:induction false} RevOfBuffer(val: nat, c: nat, j: nat)
    requires c < Pow2(j) && Low(val, j) == Rev(c, j)
    ensures Rev(val, j) == c
  {
    RevLow(val, j);
    RevRev(c, j);
    LowSmall(c, j);
  }
}

/** The canonical prefix code that section 3.2.2 of RFC 1951 assigns to a list of code lengths. */
module CanonicalCode {
  import opened Bits

  /** The number of the first n symbols whose code has length l. */
  function CountIn(lens: seq<nat>, n: nat, l: nat): nat
    requires n <= |lens|
  {
    if n == 0 then 0 else CountIn(lens, n - 1, l) + if lens[n - 1] == l then 1 else 0
  }

  /** The number of symbols whose code has length l. */
  function Count(lens: seq<nat>, l: nat): nat { CountIn(lens, |lens|, l) }

  /** The numerically smallest code of length l. */
  function FirstCode(lens: seq<nat>, l: nat): nat {
    if l <= 1 then 0 else 2 * (FirstCode(lens, l - 1) + Count(lens, l - 1))
  }

  /** The number of smaller symbols with a code of the same length. */
  function Rank(lens: seq<nat>, s: nat): nat
    requires s < |lens|
  {
    CountIn(lens, s, lens[s])
  }

  function Code(lens: seq<nat>, s: nat): nat
    requires s < |lens|
  {
    FirstCode(lens, lens[s]) + Rank(lens, s)
  }

  /** 2^max times the Kraft sum of the codes of length at most l. */
  function KraftSum(lens: seq<nat>, l: nat, max: nat): nat
    requires l <= max
  {
    if l == 0 then 0 else KraftSum(lens, l - 1, max) + Shl(Count(lens, l), max - l)
  }

  /** Every length is at most max and the code is not over-subscribed. */
  ghost predicate KraftWithin(lens: seq<nat>, max: nat) {
    && (forall i :: 0 <= i < |lens| ==> lens[i] <= max)
    && KraftSum(lens, max, max) <= Pow2(max)
  }

  ghost predicate Kraft(lens: seq<nat>) { KraftWithin(lens, 15) }

  lemma {:induction false} ShlMono(a: nat, b: nat, k: nat)
    requires a < b
    ensures Shl(a, k) < Shl(b, k)
  {
    if k > 0 { ShlMono(a, b, k - 1); }
  }

  lemma {:induction false} ShlPow2(a: nat, k: nat)
    ensures Shl(Pow2(a), k) == Pow2(a + k)
  {
    if k > 0 { ShlPow2(a, k - 1); }
  }

  lemma {:induction false} KraftSumIsCode(lens: seq<nat>, l: nat, max: nat)
    requires 1 <= l <= max
    ensures Shl(FirstCode(lens, l) + Count(lens, l), max - l) == KraftSum(lens, l, max)
  {
    if l == 1 {
      assert KraftSum(lens, 0, max) == 0;
    } else {
      KraftSumIsCode(lens, l - 1, max);
      ShlTwice(FirstCode(lens, l - 1) + Count(lens, l - 1), max - l);
      ShlPlus(FirstCode(lens, l), Count(lens, l), max - l);
    }
  }

  lemma {:induction false} KraftSumMono(lens: seq<nat>, l: nat, m: nat, max: nat)
    requires l <= m <= max
    ensures KraftSum(lens, l, max) <= KraftSum(lens, m, max)
  {
    if l < m { KraftSumMono(lens, l, m - 1, max); }
  }

  /** With a Kraft sum of at most one, the codes of each length fit in that many bits. */
  lemma {:induction false} CodesFit(lens: seq<nat>, l: nat, max: nat)
    requires KraftWithin(lens, max) && 1 <= l <= max
    ensures FirstCode(lens, l) + Count(lens, l) <= Pow2(l)
  {
    KraftSumIsCode(lens, l, max);
    KraftSumMono(lens, l, max, max);
    ShlReflects(FirstCode(lens, l) + Count(lens, l), l, max);
  }

  lemma {:induction false} ShlReflects(c: nat, l: nat, n: nat)
    requires l <= n && Shl(c, n - l) <= Pow2(n)
    ensures c <= Pow2(l)
  {
    ShlPow2(l, n - l);
    if c > Pow2(l) { ShlMono(Pow2(l), c, n - l); }
  }

  lemma {:induction false} CountMono(lens: seq<nat>, a: nat, b: nat, l: nat)
    requires a <= b <= |lens|
    ensures CountIn(lens, a, l) <= CountIn(lens, b, l)
  {
    if a < b { CountMono(lens, a, b - 1, l); }
  }

  /** A later symbol with a code of the same length has a larger rank. */
  lemma {:induction false} RankIncreases(lens: seq<nat>, a: nat, b: nat)
    requires a < b < |lens| && lens[a] == lens[b]
    ensures Rank(lens, a) < Rank(lens, b)
  {
    CountMono(lens, a + 1, b, lens[a]);
  }

  lemma {:induction false} RankInRange(lens: seq<nat>, s: nat)
    requires s < |lens|
    ensures Rank(lens, s) < Count(lens, lens[s])
  {
    CountMono(lens, s + 1, |lens|, lens[s]);
  }

  lemma {:induction false} CodeFits(lens: seq<nat>, s: nat)
    requires Kraft(lens) && s < |lens| && lens[s] > 0
    ensures Code(lens, s) < Pow2(lens[s])
  {
    RankInRange(lens, s);
    CodesFit(lens, lens[s], 15);
  }

  /** The first codes of longer lengths start at the extension of the code after those of length l. */
  lemma {:induction false} FirstCodeGrows(lens: seq<nat>, l: nat, m: nat)
    requires 1 <= l < m
    ensures Shl(FirstCode(lens, l) + Count(lens, l), m - l) <= FirstCode(lens, m)
  {
    if l + 1 < m {
      FirstCodeGrows(lens, l, m - 1);
      assert m - l == (m - 1 - l) + 1;
    } else {
      assert Shl(FirstCode(lens, l) + Count(lens, l), 1) == 2 * (FirstCode(lens, l) + Count(lens, l)) by {
        assert Shl(FirstCode(lens, l) + Count(lens, l), 0) == FirstCode(lens, l) + Count(lens, l);
      }
    }
  }

  /** The code of s is the string of lens[s] bits at position p. */
  ghost predicate CodeAt(lens: seq<nat>, mem: seq<Byte>, p: nat, s: nat) {
    s < |lens| && lens[s] > 0 && p + lens[s] <= 8 * |mem| && ReadMsb(mem, p, lens[s]) == Code(lens, s)
  }

  lemma {:induction false} ReadMsbExtends(mem: seq<Byte>, p: nat, n: nat, k: nat)
    requires p + n + k <= 8 * |mem|
    ensures ReadMsb(mem, p, n + k) < Shl(ReadMsb(mem, p, n) + 1, k)
    decreases k
  {
    if k > 0 { ReadMsbExtends(mem, p, n, k - 1); }
  }

  /** The code is prefix-free: at most one symbol's code stands at a position. */
  lemma {:induction false} PrefixFree(lens: seq<nat>, mem: seq<Byte>, p: nat, s: nat, t: nat)
    requires CodeAt(lens, mem, p, s) && CodeAt(lens, mem, p, t)
    ensures s == t
  {
    if lens[s] < lens[t] {
      ShorterIsNoPrefix(lens, mem, p, s, t);
    } else if lens[t] < lens[s] {
      ShorterIsNoPrefix(lens, mem, p, t, s);
    } else if s < t {
      RankIncreases(lens, s, t);
    } else if t < s {
      RankIncreases(lens, t, s);
    }
  }

  lemma {:induction false} ShorterIsNoPrefix(lens: seq<nat>, mem: seq<Byte>, p: nat, s: nat, t: nat)
    requires CodeAt(lens, mem, p, s) && t < |lens| && lens[s] < lens[t] && p + lens[t] <= 8 * |mem|
    ensures ReadMsb(mem, p, lens[t]) < Code(lens, t)
  {
    var l, m := lens[s], lens[t];
    RankInRange(lens, s);
    FirstCodeGrows(lens, l, m);
    ReadMsbExtends(mem, p, l, m - l);
    var c := Code(lens, s);
    var d := FirstCode(lens, l) + Count(lens, l);
    if c + 1 < d { ShlMono(c + 1, d, m - l); }
  }
}

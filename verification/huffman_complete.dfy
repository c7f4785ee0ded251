/** A complete code always has room for its secondary tables. */
module HuffmanComplete {
  import opened Bits
  import opened CanonicalCode
  import opened HuffmanRoom

  /** The code uses all strings of bits: its Kraft sum is one. */
  ghost predicate Complete(lens: seq<nat>) { Kraft(lens) && KraftSum(lens, 15, 15) == Pow2(15) }

  /** The number that follows the last code of length j. */
  function End(lens: seq<nat>, j: nat): nat { FirstCode(lens, j) + Count(lens, j) }

  lemma {:induction false} ShrMono(a: nat, b: nat, k: nat)
    requires a <= b
    ensures Shr(a, k) <= Shr(b, k)
  {
    if k > 0 { ShrMono(a / 2, b / 2, k - 1); }
  }

  /** The symbol with the i-th code of length l. */
  lemma {:induction false} SymbolAt(lens: seq<nat>, n: nat, l: nat, i: nat) returns (s: nat)
    requires n <= |lens| && i < CountIn(lens, n, l)
    ensures s < n && lens[s] == l && Rank(lens, s) == i
  {
    if lens[n - 1] == l && CountIn(lens, n - 1, l) == i {
      s := n - 1;
    } else {
      s := SymbolAt(lens, n - 1, l, i);
    }
  }

  /** Longer codes go on where those of length j end, unless there are none. */
  lemma {:induction false} LongerFollow(lens: seq<nat>, j: nat)
    requires Complete(lens) && 8 <= j <= 15
    ensures End(lens, j) == Pow2(j) ||
            exists t: nat :: t < |lens| && lens[t] > j && Prefix(lens, t) == Shr(End(lens, j), j - 8)
    decreases 15 - j
  {
    hide FirstCode, CountIn, KraftSum;
    if j == 15 {
      KraftSumIsCode(lens, 15, 15);
      ShlNone(End(lens, 15));
    } else {
      NextFirst(lens, j);
      if Count(lens, j + 1) > 0 {
        var t := SymbolAt(lens, |lens|, j + 1, 0);
        assert Prefix(lens, t) == Shr(End(lens, j), j - 8);
      } else {
        LongerFollow(lens, j + 1);
      }
    }
  }

  lemma {:induction false} NextFirst(lens: seq<nat>, j: nat)
    requires j >= 8
    ensures FirstCode(lens, j + 1) == 2 * End(lens, j)
    ensures Shr(FirstCode(lens, j + 1), j - 7) == Shr(End(lens, j), j - 8)
    ensures Low(FirstCode(lens, j + 1), j - 7) == 2 * Low(End(lens, j), j - 8)
  {
    hide CountIn;
    ShrFirst(FirstCode(lens, j + 1), j - 7);
    LowFirst(FirstCode(lens, j + 1), j - 7);
  }

  // ----- The tables for the codes of one length -----

  /** A bound for the prefixes of the first i codes of length j that start a table. */
  function Above(lens: seq<nat>, j: nat, i: nat): nat
    requires j >= 9
  {
    if i == 0 then Shr(FirstCode(lens, j), j - 8)
    else
      var p, end := Shr(FirstCode(lens, j) + i - 1, j - 8) + 1, Shr(End(lens, j), j - 8);
      if p < end then p else end
  }

  /** A code that starts a table has another prefix than the code before it and those that are longer. */
  lemma {:induction false} OpensAbove(lens: seq<nat>, s: nat)
    requires Complete(lens) && s < |lens| && lens[s] >= 9 && Opens(lens, s)
    ensures Prefix(lens, s) < Shr(End(lens, lens[s]), lens[s] - 8)
    ensures Above(lens, lens[s], Rank(lens, s)) <= Prefix(lens, s)
  {
    hide FirstCode, CountIn, KraftSum, Shr, Pow2;
    var j, i := lens[s], Rank(lens, s);
    RankInRange(lens, s);
    ShrMono(Code(lens, s), End(lens, j), j - 8);
    LongerFollow(lens, j);
    if End(lens, j) == Pow2(j) {
      CodeFits(lens, s);
      ShrBound(Code(lens, s), j - 8, j);
      ShrOfPow2(j);
    }
    if i > 0 {
      var t := SymbolAt(lens, |lens|, j, i - 1);
      assert Earlier(lens, j, i, t);
      ShrMono(Code(lens, t), Code(lens, s), j - 8);
    }
  }

  lemma {:induction false} ShrOfPow2(j: nat)
    requires j >= 8
    ensures Shr(Pow2(j), j - 8) == Pow2(8)
  {
    hide Shr, Shl, Pow2;
    ShlPow2(8, j - 8);
    ShrOfShl(Pow2(8), 0, j - 8);
  }

  lemma {:induction false} AboveMono(lens: seq<nat>, j: nat, i: nat)
    requires j >= 9 && i < Count(lens, j)
    ensures Above(lens, j, i) <= Above(lens, j, i + 1) <= Shr(End(lens, j), j - 8)
  {
    hide Shr, FirstCode, CountIn;
    ShrMono(FirstCode(lens, j), FirstCode(lens, j) + i, j - 8);
    ShrMono(FirstCode(lens, j), End(lens, j), j - 8);
    if i > 0 { ShrMono(FirstCode(lens, j) + i - 1, FirstCode(lens, j) + i, j - 8); }
  }

  lemma {:induction false} AboveAfter(lens: seq<nat>, s: nat)
    requires Complete(lens) && s < |lens| && lens[s] >= 9 && Opens(lens, s)
    ensures Above(lens, lens[s], Rank(lens, s)) + 1 <= Above(lens, lens[s], Rank(lens, s) + 1)
  {
    hide Shr, FirstCode, CountIn, Opens, Kraft;
    OpensAbove(lens, s);
  }

  lemma {:induction false} TakenInLength(lens: seq<nat>, j: nat, i: nat)
    requires Complete(lens) && 9 <= j <= 15 && i <= Count(lens, j)
    ensures Taken(lens, j, i) + Shl(Shr(FirstCode(lens, j), j - 8), j - 8) <= Taken(lens, j, 0) +
            Shl(Above(lens, j, i), j - 8)
  {
    hide Shr, Shl, Pow2, FirstCode, CountIn, Opens, Above, TakenBy, Complete;
    if i == 0 {
      AboveNone(lens, j);
    } else {
      var s := SymbolAt(lens, |lens|, j, i - 1);
      TakenInLength(lens, j, i - 1);
      TakenStep(lens, j, i - 1, s, |lens|);
      AboveMono(lens, j, i - 1);
      var a, b := Above(lens, j, i - 1), Above(lens, j, i);
      ShlPlus(a, b - a, j - 8);
      if Opens(lens, s) {
        AboveAfter(lens, s);
        ShlPlus(1, b - a - 1, j - 8);
        ShlOne(j - 8);
      }
    }
  }

  lemma {:induction false} AboveNone(lens: seq<nat>, j: nat)
    requires j >= 9
    ensures Above(lens, j, 0) == Shr(FirstCode(lens, j), j - 8)
  {
  }

  /** The tables for the codes of one length have as many cells as there are codes, but for the ends of the range. */
  lemma {:induction false} TakenByLength(lens: seq<nat>, j: nat)
    requires Complete(lens) && 9 <= j <= 15
    ensures var n := Count(lens, j);
            Taken(lens, j, n) + Low(End(lens, j), j - 8) <= Taken(lens, j, 0) + n + Low(FirstCode(lens, j), j - 8)
  {
    hide Low, Shr, Shl, FirstCode, CountIn, Above, TakenBy, Complete;
    var n := Count(lens, j);
    TakenInLength(lens, j, n);
    LowShr(FirstCode(lens, j), j - 8);
    LowShr(End(lens, j), j - 8);
    AboveAll(lens, j);
    var a, b := Above(lens, j, n), Shr(End(lens, j), j - 8);
    ShlPlus(a, b - a, j - 8);
  }

  lemma {:induction false} AboveAll(lens: seq<nat>, j: nat)
    requires j >= 9
    ensures Above(lens, j, Count(lens, j)) <= Shr(End(lens, j), j - 8)
  {
    hide Shr, FirstCode, CountIn;
    if Count(lens, j) > 0 { AboveMono(lens, j, Count(lens, j) - 1); }
  }

  // ----- The tables for all lengths -----

  /** The number of the first n symbols with a code of j to 15 bits. */
  function LongIn(lens: seq<nat>, n: nat, j: nat): nat
    requires n <= |lens|
    decreases 16 - j
  {
    if j > 15 then 0 else CountIn(lens, n, j) + LongIn(lens, n, j + 1)
  }

  lemma {:induction false} LongOneMore(lens: seq<nat>, n: nat, j: nat)
    requires 0 < n <= |lens|
    ensures LongIn(lens, n, j) == LongIn(lens, n - 1, j) + if j <= lens[n - 1] <= 15 then 1 else 0
    decreases 16 - j
  {
    if j <= 15 { LongOneMore(lens, n, j + 1); }
  }

  lemma {:induction false} LongAtMost(lens: seq<nat>, n: nat, j: nat)
    requires n <= |lens|
    ensures LongIn(lens, n, j) <= n
  {
    if n > 0 {
      LongOneMore(lens, n, j);
      LongAtMost(lens, n - 1, j);
    } else {
      LongInNone(lens, j);
    }
  }

  lemma {:induction false} LongInNone(lens: seq<nat>, j: nat)
    ensures LongIn(lens, 0, j) == 0
    decreases 16 - j
  {
    if j <= 15 { LongInNone(lens, j + 1); }
  }

  /** What the ranges of j to 14 bits leave open in the tables of longer codes. */
  function Slack(j: nat): nat
    decreases 15 - j
  {
    if j >= 15 || j < 8 then 0 else Slack(j + 1) + Pow2(j - 8) - 1
  }

  lemma {:induction false} TakenFrom(lens: seq<nat>, j: nat)
    requires Complete(lens) && 9 <= j <= 15
    ensures Taken(lens, j, Count(lens, j)) <= LongIn(lens, |lens|, j) + Low(FirstCode(lens, j), j - 8) + Slack(j)
    decreases 15 - j
  {
    hide Low, FirstCode, CountIn, TakenBy, KraftSum, Pow2;
    TakenByLength(lens, j);
    if j == 15 {
      TakenNothing(lens, |lens|);
    } else {
      TakenFrom(lens, j + 1);
      TakenNext(lens, j + 1, |lens|);
      NextFirst(lens, j);
    }
  }

  lemma {:induction false} TakenMost(lens: seq<nat>, j: nat, i: nat, n: nat)
    requires n <= |lens| && j >= 9
    ensures TakenBy(lens, j, i, n) <= TakenBy(lens, 9, Count(lens, 9), n)
  {
    hide Opens, CountIn, Pow2;
    if n > 0 {
      TakenMost(lens, j, i, n - 1);
      RankInRange(lens, n - 1);
    }
  }

  /** Every complete code with at most 390 symbols has room for its tables. */
  lemma {:induction false} CompleteHasRoom(lens: seq<nat>)
    requires Complete(lens) && |lens| <= 390
    ensures Room(lens)
  {
    hide Opens, TakenBy, CountIn, FirstCode, Low, Complete;
    TakenFrom(lens, 9);
    LongAtMost(lens, |lens|, 9);
    assert Slack(9) == 120 by { SlackOfNine(); }
    assert Low(FirstCode(lens, 9), 1) < Pow2(1) == 2;
    forall s | 0 <= s < |lens| && lens[s] >= 9 && Opens(lens, s)
      ensures Taken(lens, lens[s], Rank(lens, s)) <= 0x1ff
    {
      TakenMost(lens, lens[s], Rank(lens, s), |lens|);
    }
  }

  lemma {:induction false} SlackOfNine()
    ensures Slack(9) == 120
  {
    assert Slack(13) == 94;
  }
}

/** elf_zlib_inflate_table: building the two-level decoding table in place. */
module HuffmanBuild {
  import opened Bits
  import opened CanonicalCode
  import opened HuffmanTable
  import opened HuffmanRoom
  import opened HuffmanComplete
  import opened HuffmanCells

  // ----- Counting the codes of each length and chaining equal lengths -----

  /** How many symbols have each length, the first such symbol, and for every symbol the next one
      with a code of the same length. */

  datatype Chains = Chains(count: seq<nat>, start: seq<nat>, next: seq<nat>) {
    ghost predicate Describe(lens: seq<nat>) {
      && Counts(lens, |lens|, count) && Starts(lens, count, start) && Nexts(lens, |lens|, count, next)
    }
  }

  // The same for the first n symbols; prev holds the last of them with each code length.

  ghost predicate Counts(lens: seq<nat>, n: nat, count: seq<nat>) {
    && n <= |lens| && |count| == 16
    && (forall v :: 0 <= v < n ==> lens[v] < 16)
    && forall l :: 0 <= l < 16 ==> count[l] == CountIn(lens, n, l)
  }

  ghost predicate Starts(lens: seq<nat>, count: seq<nat>, start: seq<nat>) {
    |count| == |start| == 16 && forall l :: 0 <= l < 16 && count[l] > 0 ==> At(lens, l, 0, start[l])
  }

  ghost predicate Prevs(lens: seq<nat>, n: nat, count: seq<nat>, prev: seq<nat>) {
    |count| == |prev| == 16 &&
    forall l :: 0 <= l < 16 && count[l] > 0 ==> prev[l] < n && At(lens, l, count[l] - 1, prev[l])
  }

  ghost predicate Nexts(lens: seq<nat>, n: nat, count: seq<nat>, next: seq<nat>) {
    && n <= |lens| == |next| && |count| == 16
    && forall v {:trigger next[v]} :: 0 <= v < n && lens[v] < 16 && Rank(lens, v) + 1 < count[lens[v]] ==>
         At(lens, lens[v], Rank(lens, v) + 1, next[v])
  }

  /** The invariant of the loop over the lengths. */
  ghost predicate Chaining(lens: seq<nat>, n: nat, c: Chains, prev: seq<nat>) {
    Counts(lens, n, c.count) && Starts(lens, c.count, c.start) && Prevs(lens, n, c.count, prev) &&
    Nexts(lens, n, c.count, c.next)
  }

  method CountLengths(lens: seq<nat>) returns (ok: bool, c: Chains)
    ensures ok <==> forall i :: 0 <= i < |lens| ==> lens[i] < 16
    ensures ok ==> c.Describe(lens)
  {
    hide Chaining, Chains.Describe;
    var count: seq<nat>, start: seq<nat>, prev: seq<nat> := Zeros(16), Zeros(16), Zeros(16);
    var next: seq<nat> := Zeros(|lens|);
    var i := 0;
    ChainingStarts(lens, Chains(count, start, next), prev);
    while i < |lens|
      invariant 0 <= i <= |lens| && Chaining(lens, i, Chains(count, start, next), prev)
    {
      var l := lens[i];
      if l >= 16 {
        return false, Chains(count, start, next);
      }
      ChainingStep(lens, i, Chains(count, start, next), prev);
      if count[l] == 0 {
        start := start[l := i];
      } else {
        next := next[prev[l] := i];
      }
      prev := prev[l := i];
      count := count[l := count[l] + 1];
      i := i + 1;
    }
    ChainingEnds(lens, Chains(count, start, next), prev);
    return true, Chains(count, start, next);
  }

  lemma {:induction false} ChainingStarts(lens: seq<nat>, c: Chains, prev: seq<nat>)
    requires |c.count| == |c.start| == |prev| == 16 && |c.next| == |lens| && forall l :: 0 <= l < 16 ==> c.count[l] == 0
    ensures Chaining(lens, 0, c, prev)
  {
  }

  lemma {:induction false} ChainingStep(lens: seq<nat>, i: nat, c: Chains, prev: seq<nat>)
    requires i < |lens| && lens[i] < 16 && Chaining(lens, i, c, prev)
    ensures var l := lens[i];
            && |c.count| == |c.start| == |prev| == 16 && |c.next| == |lens| && (c.count[l] > 0 ==> prev[l] < |lens|)
            && Chaining(lens, i + 1,
                        Chains(c.count[l := c.count[l] + 1], if c.count[l] == 0 then c.start[l := i] else c.start,
                               if c.count[l] == 0 then c.next else c.next[prev[l] := i]),
                        prev[l := i])
  {
    hide Counts, At, Rank, CountIn;
    CountsStep(lens, i, c.count);
    StartsStep(lens, i, c.count, c.start);
    PrevsStep(lens, i, c.count, prev);
    NextsStep(lens, i, c.count, prev, c.next);
  }

  lemma {:induction false} ChainingEnds(lens: seq<nat>, c: Chains, prev: seq<nat>)
    requires Chaining(lens, |lens|, c, prev)
    ensures c.Describe(lens) && forall i :: 0 <= i < |lens| ==> lens[i] < 16
  {
    hide Starts, Prevs, Nexts;
  }

  lemma {:induction false} CountsStep(lens: seq<nat>, i: nat, count: seq<nat>)
    requires i < |lens| && lens[i] < 16 && Counts(lens, i, count)
    ensures |count| == 16 && Counts(lens, i + 1, count[lens[i] := count[lens[i]] + 1])
  {
  }

  function Zeros(n: nat): (z: seq<nat>)
    ensures |z| == n && forall k :: 0 <= k < n ==> z[k] == 0
  {
    seq(n, _ => 0)
  }

  lemma {:induction false} StartsStep(lens: seq<nat>, i: nat, count: seq<nat>, start: seq<nat>)
    requires i < |lens| && lens[i] < 16 && Counts(lens, i, count) && Starts(lens, count, start)
    ensures var l := lens[i];
            Starts(lens, count[l := count[l] + 1], if count[l] == 0 then start[l := i] else start)
  {
    assert Rank(lens, i) == count[lens[i]];
  }

  lemma {:induction false} PrevsStep(lens: seq<nat>, i: nat, count: seq<nat>, prev: seq<nat>)
    requires i < |lens| && lens[i] < 16 && Counts(lens, i, count) && Prevs(lens, i, count, prev)
    ensures var l := lens[i]; Prevs(lens, i + 1, count[l := count[l] + 1], prev[l := i])
  {
    assert Rank(lens, i) == count[lens[i]];
  }

  lemma {:induction false} NextsStep(lens: seq<nat>, i: nat, count: seq<nat>, prev: seq<nat>, next: seq<nat>)
    requires i < |lens| && lens[i] < 16
    requires Counts(lens, i, count) && Prevs(lens, i, count, prev) && Nexts(lens, i, count, next)
    ensures var l := lens[i];
            Nexts(lens, i + 1, count[l := count[l] + 1], if count[l] == 0 then next else next[prev[l] := i])
  {
    hide CountIn;
    var l := lens[i];
    var c := count[l];
    assert Rank(lens, i) == c;
    var next' := if c == 0 then next else next[prev[l] := i];
    forall v | 0 <= v < i + 1 && lens[v] < 16 && Rank(lens, v) + 1 < count[l := c + 1][lens[v]]
      ensures At(lens, lens[v], Rank(lens, v) + 1, next'[v])
    {
      assert v < i;
      if lens[v] == l && Rank(lens, v) + 1 == c {
        RankInjective(lens, v, prev[l]);
      } else if c > 0 {
        assert v != prev[l];
      }
    }
  }

  // ----- Which cells later steps leave alone -----

  /** A zero cell that already means symbol 0 with one bit. */
  predicate Reserved(lens: seq<nat>, k: nat) {
    k < 0x100 && k % 2 == 0 && |lens| > 0 && lens[0] == 1
  }

  ghost predicate Stable(lens: seq<nat>, a: seq<nat>, b: seq<nat>)
    requires |a| == |b| == TABLE_SIZE
  {
    forall k :: 0 <= k < TABLE_SIZE && (a[k] != 0 || Reserved(lens, k)) ==> b[k] == a[k]
  }

  lemma {:induction false} PresentStable(lens: seq<nat>, a: seq<nat>, b: seq<nat>, s: nat)
    requires |a| == |b| == TABLE_SIZE && Stable(lens, a, b)
    requires s < |lens| && 1 <= lens[s] <= 15 && Present(a, lens, s)
    ensures Present(b, lens, s)
  {
    if lens[s] > 8 {
      var r := Reversed(lens, s);
      SecondaryStable(lens, a, b, Low(r, 8), lens[s] - 8, Shr(r, 8), Entry(s, lens[s] - 8));
    } else if s == 0 && lens[s] == 1 {
      assert Reversed(lens, 0) == 0;
      forall x | 0 <= x < 0x100 && Low(x, 1) == 0
        ensures b[x] == a[x]
      {
        assert x % 2 == 0;
        assert Reserved(lens, x);
      }
    }
  }

  lemma {:induction false} SecondaryStable(lens: seq<nat>, a: seq<nat>, b: seq<nat>, i: nat, k: nat, r: nat, e: nat)
    requires |a| == |b| == TABLE_SIZE && Stable(lens, a, b)
    requires i < TABLE_SIZE && InSecondaryAt(a, a[i], k, r, e) && e > 0
    ensures InSecondaryAt(b, b[i], k, r, e)
  {
    assert a[i] != 0;
  }

  /** Under the Kraft inequality a reserved cell belongs to symbol 0 alone. */
  lemma {:induction false} OthersAreOdd(lens: seq<nat>, s: nat)
    requires Kraft(lens) && 0 < s < |lens| && lens[s] > 0 && lens[0] == 1
    ensures Reversed(lens, s) % 2 == 1
  {
    var j := lens[s];
    CodeFits(lens, s);
    assert Rank(lens, 0) == 0;
    if j == 1 {
      RankIncreases(lens, 0, s);
    } else {
      RankInRange(lens, 0);
      FirstCodeGrows(lens, 1, j);
      ShlOne(j - 1);
      if Count(lens, 1) > 1 { ShlMono(1, Count(lens, 1), j - 1); }
    }
    RevLowBit(Code(lens, s), j);
  }

  // ----- Filling cells -----

  /** Store tval in every cell base + x with x < size whose index x ends in the j bits of first;
      all of them must still be zero. */

  method FillStride(table: array<nat>, base: nat, size: nat, first: nat, j: nat, tval: nat) returns (ok: bool)
    requires base + size <= table.Length && first < Pow2(j)
    modifies table
    ensures ok ==> forall x :: 0 <= x < size && Low(x, j) == first ==> table[base + x] == tval
    ensures forall k :: 0 <= k < table.Length && table[k] != old(table[k]) ==>
              old(table[k]) == 0 && base <= k < base + size && Low(k - base, j) == first
    ensures !ok ==> exists x :: 0 <= x < size && Low(x, j) == first && old(table[base + x]) != 0
  {
    var ind := first;
    LowSmall(first, j);
    NoneBelow(first, j);
    while ind < size
      invariant Low(ind, j) == first
      invariant forall x {:trigger Low(x, j)} :: 0 <= x < size && x < ind && Low(x, j) == first ==>
                  table[base + x] == tval
      invariant forall k :: base + ind <= k < table.Length ==> table[k] == old(table[k])
      invariant forall k :: 0 <= k < table.Length && table[k] != old(table[k]) ==>
                  old(table[k]) == 0 && base <= k < base + size && Low(k - base, j) == first
    {
      if table[base + ind] != 0 {
        assert old(table[base + ind]) != 0;
        return false;
      }
      table[base + ind] := tval;
      NoneBetween(ind, j);
      LowPlusPow2(ind, j);
      ind := ind + Pow2(j);
    }
    return true;
  }

  lemma {:induction false} NoneBelow(first: nat, j: nat)
    requires first < Pow2(j)
    ensures forall x {:trigger Low(x, j)} :: 0 <= x < first ==> Low(x, j) != first
  {
    forall x | 0 <= x < first
      ensures Low(x, j) != first
    {
      LowSmall(x, j);
    }
  }

  lemma {:induction false} NoneBetween(ind: nat, j: nat)
    ensures forall x {:trigger Low(x, j)} :: ind < x < ind + Pow2(j) ==> Low(x, j) != Low(ind, j)
  {
    forall x | ind < x < ind + Pow2(j)
      ensures Low(x, j) != Low(ind, j)
    {
      if Low(x, j) == Low(ind, j) { LowGap(ind, x, j); }
    }
  }

  /** Add one to a reversed j-bit code. */
  method NextCode(code: nat, j: nat, ghost c: nat) returns (next: nat)
    requires j > 0 && code == Rev(c, j)
    ensures next == Rev(c + 1, j)
  {
    ghost var m: nat := j;
    var incr := Pow2(j - 1);
    RevIncIsNext(c, j);
    while And(code, incr) != 0
      invariant m <= j && incr == if m == 0 then 0 else Pow2(m - 1)
      invariant RevInc(code, m) == Rev(c + 1, j)
      decreases m
    {
      RevIncStep(code, m);
      incr := Shr(incr, 1);
      m := m - 1;
    }
    if incr == 0 {
      next := 0;
    } else {
      RevIncStep(code, m);
      next := And(code, incr - 1) + incr;
    }
  }

  lemma {:induction false} RevIncStep(code: nat, m: nat)
    requires m > 0
    ensures RevInc(code, m) ==
            if And(code, Pow2(m - 1)) == 0 then And(code, Pow2(m - 1) - 1) + Pow2(m - 1) else RevInc(code, m - 1)
    ensures Shr(Pow2(m - 1), 1) == if m == 1 then 0 else Pow2(m - 2)
  {
    hide And, Shr, Low, Pow2, RevInc;
    RevIncTop(code, m);
    AndBit(code, m - 1);
    AndMask(code, m - 1);
    HalfPow2(m - 1);
  }

  lemma {:induction false} HalfPow2(k: nat)
    ensures Shr(Pow2(k), 1) == if k == 0 then 0 else Pow2(k - 1)
  {
    assert Shr(Pow2(k), 1) == Shr(Pow2(k) / 2, 0);
  }

  /** Writing one symbol's cells keeps every cell that already has a meaning. */
  lemma {:induction false} FillIsStable(lens: seq<nat>, a: seq<nat>, b: seq<nat>, s: nat)
    requires |a| == |b| == TABLE_SIZE && Kraft(lens) && s < |lens| && 1 <= lens[s] <= 8
    requires forall k :: 0 <= k < TABLE_SIZE && b[k] != a[k] ==>
               a[k] == 0 && k < 0x100 && Low(k, lens[s]) == Reversed(lens, s) && b[k] == Entry(s, lens[s] - 1)
    ensures Stable(lens, a, b)
  {
    hide Low, Reversed, Kraft, Entry;
    forall k | 0 <= k < TABLE_SIZE && (a[k] != 0 || Reserved(lens, k))
      ensures b[k] == a[k]
    {
      if b[k] != a[k] {
        assert Low(k, lens[s]) == Reversed(lens, s) && Reserved(lens, k);
        LowFirst(k, lens[s]);
        if s == 0 {
          NoEntry(lens[0]);
        } else {
          OthersAreOdd(lens, s);
        }
      }
    }
  }

  /** The entry of symbol 0 with a one-bit code is 0, like a cell that is not yet written. */
  lemma {:induction false} NoEntry(len: nat)
    ensures len == 1 ==> Entry(0, len - 1) == 0
  {
  }

  /** All symbols with a code of length j and a rank below i are in the table. */
  ghost predicate PresentBelow(table: seq<nat>, lens: seq<nat>, j: nat, i: nat)
    requires |table| == TABLE_SIZE && 1 <= j <= 15
  {
    forall s :: 0 <= s < |lens| && lens[s] == j && Rank(lens, s) < i ==> Present(table, lens, s)
  }

  /** Filling went from table a to table b, which now has the first i symbols of length j. */
  ghost predicate Filled(lens: seq<nat>, j: nat, i: nat, a: seq<nat>, b: seq<nat>)
    requires |a| == |b| == TABLE_SIZE && 1 <= j <= 15
  {
    Kraft(lens) ==> Stable(lens, a, b) && PresentBelow(b, lens, j, i)
  }

  lemma {:induction false} FilledNone(lens: seq<nat>, j: nat, a: seq<nat>)
    requires |a| == TABLE_SIZE && 1 <= j <= 15
    ensures Filled(lens, j, 0, a, a)
  {
  }

  lemma {:induction false} FilledStep(lens: seq<nat>, j: nat, i: nat, v: nat, a: seq<nat>, b: seq<nat>, c: seq<nat>)
    requires |a| == |b| == |c| == TABLE_SIZE && 1 <= j <= 15 && At(lens, j, i, v)
    requires Filled(lens, j, i, a, b)
    requires Kraft(lens) ==> Stable(lens, b, c) && Present(c, lens, v)
    ensures Filled(lens, j, i + 1, a, c)
  {
    if Kraft(lens) {
      assert Stable(lens, a, c);
      forall s | 0 <= s < |lens| && lens[s] == j && Rank(lens, s) < i + 1
        ensures Present(c, lens, s)
      {
        if Rank(lens, s) == i {
          RankInjective(lens, s, v);
        } else {
          PresentStable(lens, b, c, s);
        }
      }
    }
  }

  /** Enter one code of at most 8 bits. */
  method PlacePrimary(lens: seq<nat>, j: nat, ghost i: nat, code: nat, val: nat, table: array<nat>) returns (ok: bool)
    requires At(lens, j, i, val) && |lens| <= 512 && 1 <= j <= 8 && table.Length == TABLE_SIZE
    requires code == Reversed(lens, val)
    modifies table
    ensures ok && Kraft(lens) ==> Stable(lens, old(table[..]), table[..]) && Present(table[..], lens, val)
    ensures Kraft(lens) && old(PrimaryOwned(lens, j, i, table[..])) ==> ok && PrimaryOwned(lens, j, i + 1, table[..])
    ensures table[0x100..] == old(table[0x100..])
  {
    hide Low, Kraft, PrimaryOwned, CountIn;
    if val > 0x1ff {
      return false;
    }
    ghost var before := table[..];
    ok := FillStride(table, 0, 0x100, code, j, Entry(val, j - 1));
    if Kraft(lens) {
      if PrimaryOwned(lens, j, i, before) {
        forall x | 0 <= x < 0x100 && Low(x, j) == code
          ensures before[x] == 0
        {
          PrimaryFree(lens, j, i, before, val, x);
        }
        PrimaryStep(lens, j, i, val, before, table[..]);
      }
      if ok { FillIsStable(lens, before, table[..], val); }
    }
  }

  /** Enter the codes of one length of at most 8 bits. */
  method FillPrimaryLength(lens: seq<nat>, c: Chains, j: nat, code0: nat, table: array<nat>)
    returns (ok: bool, code: nat)
    requires c.Describe(lens) && |lens| <= 512 && 1 <= j <= 8 && table.Length == TABLE_SIZE
    requires code0 == Rev(FirstCode(lens, j), j)
    modifies table
    ensures ok ==> code == Rev(FirstCode(lens, j) + Count(lens, j), j)
    ensures ok ==> Filled(lens, j, Count(lens, j), old(table[..]), table[..])
    ensures Kraft(lens) && old(PrimaryOwned(lens, j, 0, table[..])) ==>
              ok && PrimaryOwned(lens, j, Count(lens, j), table[..])
    ensures table[0x100..] == old(table[0x100..])
  {
    hide Rev, Pow2, CountIn, FirstCode, Filled, PrimaryOwned, Kraft;
    code := code0;
    FilledNone(lens, j, table[..]);
    var jcnt := c.count[j];
    if jcnt == 0 {
      return true, code;
    }
    if Kraft(lens) { LengthFits(lens, j); }
    if jcnt > Pow2(j) {
      return false, code;
    }
    var val := c.start[j];
    var i := 0;
    while i < jcnt
      invariant 0 <= i <= jcnt == Count(lens, j)
      invariant code == Rev(FirstCode(lens, j) + i, j)
      invariant i < jcnt ==> At(lens, j, i, val)
      invariant Filled(lens, j, i, old(table[..]), table[..])
      invariant Kraft(lens) && old(PrimaryOwned(lens, j, 0, table[..])) ==> PrimaryOwned(lens, j, i, table[..])
      invariant table[0x100..] == old(table[0x100..])
    {
      ghost var before := table[..];
      ok := PlacePrimary(lens, j, i, code, val, table);
      if !ok {
        return;
      }
      FilledStep(lens, j, i, val, old(table[..]), before, table[..]);
      if i + 1 < jcnt {
        val := c.next[val];
      }
      code := NextCode(code, j, FirstCode(lens, j) + i);
      i := i + 1;
    }
    ok := true;
  }

  lemma {:induction false} LengthFits(lens: seq<nat>, j: nat)
    requires Kraft(lens) && 1 <= j <= 15
    ensures Count(lens, j) <= Pow2(j)
  {
    CodesFit(lens, j, 15);
  }

  /** All symbols with code lengths from lo to hi are in the table. */
  ghost predicate PresentIn(table: seq<nat>, lens: seq<nat>, lo: nat, hi: nat)
    requires |table| == TABLE_SIZE && 1 <= lo && hi <= 15
  {
    forall s :: 0 <= s < |lens| && lo <= lens[s] <= hi ==> Present(table, lens, s)
  }

  lemma {:induction false} PresentInStep(lens: seq<nat>, lo: nat, hi: nat, j: nat, a: seq<nat>, b: seq<nat>)
    requires |a| == |b| == TABLE_SIZE && 1 <= lo && hi <= 15 && 1 <= j <= 15
    requires Kraft(lens) && PresentIn(a, lens, lo, hi) && Filled(lens, j, Count(lens, j), a, b)
    ensures forall s :: 0 <= s < |lens| && (lo <= lens[s] <= hi || lens[s] == j) ==> Present(b, lens, s)
  {
    forall s | 0 <= s < |lens| && (lo <= lens[s] <= hi || lens[s] == j)
      ensures Present(b, lens, s)
    {
      if lens[s] == j {
        RankInRange(lens, s);
      } else {
        PresentStable(lens, a, b, s);
      }
    }
  }

  /** The reversed first code of the next length is the reversed code after the last of this one. */
  lemma {:induction false} CodeCarries(lens: seq<nat>, j: nat)
    requires j >= 1
    ensures Rev(FirstCode(lens, j) + Count(lens, j), j) == Rev(FirstCode(lens, j + 1), j + 1)
  {
    RevAppend(FirstCode(lens, j) + Count(lens, j), 0, j);
  }

  lemma {:induction false} FirstOfAll(lens: seq<nat>)
    ensures Rev(FirstCode(lens, 1), 1) == 0
  {
    assert Rev(0, 1) == Rev(0, 0);
  }

  /** Enter all codes of at most 8 bits. */
  method FillPrimary(lens: seq<nat>, c: Chains, table: array<nat>) returns (ok: bool, code: nat)
    requires c.Describe(lens) && |lens| <= 512 && table.Length == TABLE_SIZE
    modifies table
    ensures ok ==> code == Rev(FirstCode(lens, 9), 9)
    ensures ok && Kraft(lens) ==> PresentIn(table[..], lens, 1, 8)
    ensures Kraft(lens) && old(PrimaryOwned(lens, 1, 0, table[..])) ==> ok && PrimaryOwned(lens, 9, 0, table[..])
    ensures table[0x100..] == old(table[0x100..])
  {
    hide Kraft, PrimaryOwned, CountIn, Filled;
    code := 0;
    var j := 1;
    FirstOfAll(lens);
    while j <= 8
      invariant 1 <= j <= 9
      invariant code == Rev(FirstCode(lens, j), j)
      invariant Kraft(lens) ==> PresentIn(table[..], lens, 1, j - 1)
      invariant Kraft(lens) && old(PrimaryOwned(lens, 1, 0, table[..])) ==> PrimaryOwned(lens, j, 0, table[..])
      invariant table[0x100..] == old(table[0x100..])
    {
      ghost var before := table[..];
      ok, code := FillPrimaryLength(lens, c, j, code, table);
      if !ok {
        return;
      }
      if Kraft(lens) {
        PresentInStep(lens, 1, j - 1, j, before, table[..]);
        if PrimaryOwned(lens, j, Count(lens, j), table[..]) { PrimaryNext(lens, j, table[..]); }
      }
      CodeCarries(lens, j);
      j := j + 1;
    }
    ok := true;
  }

  /** Reverse addition of 2^k to a j-bit code. */
  method ReverseAdd(code0: nat, j: nat, k: nat, ghost c: nat) returns (code: nat)
    requires k < j && code0 == Rev(c, j)
    ensures code == Rev(c + Pow2(k), j)
  {
    code := code0;
    var bit := Pow2(j - k - 1);
    var m := 0;
    RevAddAtIsPlus(c, j, k);
    while m < j - k
      invariant 0 <= m <= j - k
      invariant m < j - k ==> bit == Pow2(j - k - m - 1)
      invariant RevAddAt(code, j - k - m) == Rev(c + Pow2(k), j)
    {
      if And(code, bit) == 0 {
        code := code + bit;
        return;
      }
      code := AndNot(code, bit);
      m, bit := m + 1, Shr(bit, 1);
      assert m < j - k ==> bit == Pow2(j - k - m - 1) by { HalfPow2(j - k - m); }
    }
  }

  /** Reverse addition of jcnt0, one bit at a time; fails when jcnt0 has more than j bits. */
  method ReverseAddAll(code0: nat, j: nat, jcnt0: nat, ghost c: nat) returns (ok: bool, code: nat)
    requires code0 == Rev(c, j)
    ensures ok ==> code == Rev(c + jcnt0, j)
    ensures jcnt0 < Pow2(j) ==> ok
  {
    hide Rev, And, Pow2, Shl, Shr, Low;
    code := code0;
    var jcnt := jcnt0;
    var k := 0;
    BitStart(jcnt0);
    while k < j
      invariant 0 <= k <= j
      invariant jcnt0 == jcnt + Low(jcnt0, k) && jcnt == Shl(Shr(jcnt0, k), k)
      invariant code == Rev(c + Low(jcnt0, k), j)
    {
      BitStep(jcnt0, k);
      if And(jcnt, Pow2(k)) != 0 {
        code := ReverseAdd(code, j, k, c + Low(jcnt0, k));
        jcnt := AndNot(jcnt, Pow2(k));
      }
      k := k + 1;
    }
    if jcnt0 < Pow2(j) { LowSmall(jcnt0, j); }
    ok := jcnt == 0;
  }

  lemma {:induction false} BitStart(n: nat)
    ensures Low(n, 0) == 0 && Shl(Shr(n, 0), 0) == n
  {
  }

  lemma {:induction false} BitStep(n: nat, k: nat)
    ensures var rest := Shl(Shr(n, k), k);
            And(rest, Pow2(k)) == (if Shr(n, k) % 2 == 1 then Pow2(k) else 0) &&
            Low(n, k + 1) == Low(n, k) + And(rest, Pow2(k)) &&
            Shl(Shr(n, k + 1), k + 1) == rest - And(rest, Pow2(k))
  {
    ShrOfShl(Shr(n, k), 0, k);
    AndBit(Shl(Shr(n, k), k), k);
    LowGrow(n, k);
    LowShr(n, k);
    LowShr(n, k + 1);
  }

  lemma {:induction false} FewCodes(lens: seq<nat>, j: nat)
    requires j >= 9
    ensures |lens| < 512 ==> Count(lens, j) < Pow2(j)
  {
    hide Pow2, CountIn;
    AtMost(lens, |lens|, j);
    PowerOfByte();
    Pow2First(9);
    Pow2Mono(9, j);
  }

  lemma {:induction false} AtMost(lens: seq<nat>, n: nat, l: nat)
    requires n <= |lens|
    ensures CountIn(lens, n, l) <= n
  {
    if n > 0 { AtMost(lens, n - 1, l); }
  }

  /** The reversed first code of every length from 9 to 15 that is in use. */
  method FirstCodes(lens: seq<nat>, c: Chains, code0: nat) returns (ok: bool, firstcode: seq<nat>)
    requires c.Describe(lens) && code0 == Rev(FirstCode(lens, 9), 9)
    ensures |firstcode| == 7
    ensures ok ==> forall j :: 9 <= j < 16 && Count(lens, j) > 0 ==> firstcode[j - 9] == Rev(FirstCode(lens, j), j)
    ensures |lens| < 512 ==> ok
  {
    hide Rev, CountIn, FirstCode, Pow2;
    firstcode := Zeros(7);
    var code := code0;
    var j := 9;
    while j < 16
      invariant 9 <= j <= 16 && |firstcode| == 7
      invariant code == Rev(FirstCode(lens, j), j)
      invariant forall i :: 9 <= i < j && Count(lens, i) > 0 ==> firstcode[i - 9] == Rev(FirstCode(lens, i), i)
    {
      CodeCarries(lens, j);
      if c.count[j] > 0 {
        firstcode := firstcode[j - 9 := code];
        FewCodes(lens, j);
        ok, code := ReverseAddAll(code, j, c.count[j], FirstCode(lens, j));
        if !ok {
          return;
        }
      }
      j := j + 1;
    }
    ok := true;
  }

  // ----- Secondary tables -----

  /** The secondary table the builder is working in; primary is 0x100 before the first one. */
  datatype Cursor = Cursor(primary: nat, offset: nat, bits: nat) {
    ghost predicate In(table: seq<nat>, k: nat)
      requires |table| == TABLE_SIZE
    {
      primary < 0x100 ==>
        && IsPointer(table[primary]) && Value(table[primary]) == offset && BitsField(table[primary]) == bits
        && bits >= k && offset + 0x100 + Pow2(bits) <= TABLE_SIZE
    }
  }

  lemma {:induction false} PointerInTable(t: nat)
    ensures Value(t) + 0x100 + Pow2(BitsField(t)) <= TABLE_SIZE
  {
    Pow2Mono(BitsField(t), 7);
  }

  /** The empty primary cell of a long code has no meaning yet. */
  lemma {:induction false} NewPointerIsStable(lens: seq<nat>, val: nat, a: seq<nat>, t: nat)
    requires |a| == TABLE_SIZE && val < |lens| && 9 <= lens[val] <= 15 && Kraft(lens)
    requires var i := Low(Reversed(lens, val), 8); i < 0x100 && a[i] == 0
    ensures Stable(lens, a, a[Low(Reversed(lens, val), 8) := t])
  {
    if lens[0] == 1 {
      OthersAreOdd(lens, val);
      Low8(Reversed(lens, val));
    }
  }

  /** Move to the secondary table of a code, starting a new one if its primary cell is empty. */
  method SelectSecondary(ghost lens: seq<nat>, j: nat, ghost i: nat, ghost val: nat, primary: nat, table: array<nat>,
                         next0: nat)
    returns (ok: bool, cur: Cursor, next: nat)
    requires table.Length == TABLE_SIZE && 9 <= j <= 15 && At(lens, j, i, val)
    requires primary == Low(Reversed(lens, val), 8) < 0x100
    modifies table
    ensures cur.primary == primary
    ensures ok ==> cur.In(table[..], j - 8)
    ensures ok && Kraft(lens) ==> Stable(lens, old(table[..]), table[..])
    ensures old(Owned(lens, j, i, table[..], next0)) ==>
              && (ok <==> RoomFor(lens, val))
              && (ok ==> TablesOwned(lens, j, i + 1, table[..], next) && CellsOwned(lens, j, i, table[..]))
  {
    hide Low, Reversed, CountIn, Kraft, Owned, TablesOwned, CellsOwned, RoomFor, Pointer, IsPointer, BitsField, Value,
      Stable;
    next := next0;
    ghost var before := table[..];
    if Owned(lens, j, i, before, next0) { SelectOwned(lens, j, i, val, before, next0); }
    var tprimary := table[primary];
    if tprimary == 0 {
      cur := Cursor(primary, next0, j - 8);
      Low9(next0);
      if Low(next0, 9) != next0 {
        return false, cur, next;
      }
      next := next0 + Pow2(j - 8);
      if Kraft(lens) {
        NewPointerIsStable(lens, val, before, Pointer(next0, j - 8));
      }
      table[primary] := Pointer(next0, j - 8);
      PointerFields(next0, j - 8);
      assert table[..] == before[primary := Pointer(next0, j - 8)];
    } else {
      cur := Cursor(primary, Value(tprimary), BitsField(tprimary));
      if !IsPointer(tprimary) || cur.bits < j - 8 {
        return false, cur, next;
      }
      StableItself(lens, before);
    }
    PointerInTable(table[primary]);
    ok := true;
  }

  lemma {:induction false} StableItself(lens: seq<nat>, table: seq<nat>)
    requires |table| == TABLE_SIZE
    ensures Stable(lens, table, table)
  {
  }

  /** Filling the cells of a code meets none that is in use. */
  lemma {:induction false} StrideOwned(lens: seq<nat>, j: nat, i: nat, val: nat, a: seq<nat>, b: seq<nat>, next: nat,
                                       cur: Cursor, base: nat, n: nat, ok: bool)
    requires Kraft(lens) && |a| == |b| == TABLE_SIZE && j >= 9 && At(lens, j, i, val)
    requires TablesOwned(lens, j, i + 1, a, next) && CellsOwned(lens, j, i, a)
    requires cur.primary == Low(Reversed(lens, val), 8) < 0x100 && cur.In(a, n)
    requires base == 0x100 + cur.offset && n == j - 8
    requires forall k :: 0 <= k < TABLE_SIZE && b[k] != a[k] ==>
               base <= k < base + Pow2(cur.bits) && Low(k - base, n) == Shr(Reversed(lens, val), 8)
    requires !ok ==> exists x :: 0 <= x < Pow2(cur.bits) && Low(x, n) == Shr(Reversed(lens, val), 8) && a[base + x] != 0
    ensures ok && TablesOwned(lens, j, i + 1, b, next) && CellsOwned(lens, j, i + 1, b)
  {
    hide Low, Reversed, CountIn, Kraft, TablesOwned, CellsOwned, Value, BitsField, IsPointer, Pow2, Shr;
    if !ok {
      var x :| 0 <= x < Pow2(cur.bits) && Low(x, n) == Shr(Reversed(lens, val), 8) && a[base + x] != 0;
      CellFree(lens, j, i, val, a, next, x);
    }
    CellsStep(lens, j, i, val, a, b, next);
  }

  lemma {:induction false} StridePresent(lens: seq<nat>, j: nat, val: nat, a: seq<nat>, b: seq<nat>,
                                         cur: Cursor, base: nat, n: nat)
    requires |a| == |b| == TABLE_SIZE && val < |lens| && lens[val] == j && 9 <= j <= 15
    requires cur.primary == Low(Reversed(lens, val), 8) < 0x100 && cur.In(a, n)
    requires base == 0x100 + cur.offset && n == j - 8
    requires forall k :: 0 <= k < TABLE_SIZE && b[k] != a[k] ==> a[k] == 0 && k >= 0x100
    requires forall x :: 0 <= x < Pow2(cur.bits) && Low(x, n) == Shr(Reversed(lens, val), 8) ==>
               b[base + x] == Entry(val, n)
    ensures cur.In(b, n) && Stable(lens, a, b) && Present(b, lens, val)
  {
    hide Low, Reversed, CountIn, Kraft, Value, BitsField, IsPointer, Pow2, Shr, Entry;
  }

  lemma {:induction false} CodeAbove(lens: seq<nat>, s: nat)
    requires s < |lens| && lens[s] >= 8
    ensures Shr(Reversed(lens, s), 8) < Pow2(lens[s] - 8)
  {
    hide Code, Shr, Pow2;
    ShrBound(Reversed(lens, s), 8, lens[s]);
  }

  /** Enter one code of more than 8 bits. */
  method PlaceSecondary(lens: seq<nat>, j: nat, ghost i: nat, code: nat, val: nat, table: array<nat>, cur0: Cursor,
                        next0: nat)
    returns (ok: bool, cur: Cursor, next: nat)
    requires table.Length == TABLE_SIZE && 9 <= j <= 15 && At(lens, j, i, val) && |lens| <= 512
    requires code == Reversed(lens, val) && cur0.In(table[..], j - 8)
    modifies table
    ensures ok ==> cur.In(table[..], j - 8)
    ensures ok && Kraft(lens) ==> Stable(lens, old(table[..]), table[..]) && Present(table[..], lens, val)
    ensures old(Owned(lens, j, i, table[..], next0)) ==>
              (ok <==> RoomFor(lens, val)) && (ok ==> Owned(lens, j, i + 1, table[..], next))
  {
    hide Reversed, Rev, Shr, Low, Code, CountIn, Kraft, RoomFor, TablesOwned, CellsOwned, Present, Entry, Value,
      BitsField, IsPointer, Pow2;
    cur, next, ok := cur0, next0, true;
    Low8(code);
    if Low(code, 8) != cur.primary {
      ok, cur, next := SelectSecondary(lens, j, i, val, Low(code, 8), table, next0);
      if !ok {
        return;
      }
    } else if Owned(lens, j, i, table[..], next0) {
      ZeroIsNoPointer();
      SelectOwned(lens, j, i, val, table[..], next0);
    }
    CodeAbove(lens, val);
    ghost var before := table[..];
    ok := FillStride(table, 0x100 + cur.offset, Pow2(cur.bits), Shr(code, 8), j - 8, Entry(val, j - 8));
    if old(Owned(lens, j, i, table[..], next0)) {
      StrideOwned(lens, j, i, val, before, table[..], next, cur, 0x100 + cur.offset, j - 8, ok);
    }
    if ok {
      StridePresent(lens, j, val, before, table[..], cur, 0x100 + cur.offset, j - 8);
    }
  }

  /** Enter the codes of one length of more than 8 bits. */
  method FillSecondaryLength(lens: seq<nat>, c: Chains, j: nat, code0: nat, table: array<nat>, next0: nat)
    returns (ok: bool, next: nat)
    requires c.Describe(lens) && |lens| <= 512 && 9 <= j <= 15 && table.Length == TABLE_SIZE
    requires c.count[j] > 0 ==> code0 == Rev(FirstCode(lens, j), j)
    modifies table
    ensures ok ==> Filled(lens, j, Count(lens, j), old(table[..]), table[..])
    ensures old(Owned(lens, j, 0, table[..], next0)) ==>
              (ok <==> RoomUpTo(lens, j, Count(lens, j))) && (ok ==> Owned(lens, j, Count(lens, j), table[..], next))
  {
    hide Rev, Pow2, CountIn, FirstCode, Filled, Owned, RoomUpTo, RoomFor, Kraft;
    next := next0;
    FilledNone(lens, j, table[..]);
    RoomNone(lens, j);
    var jcnt := c.count[j];
    if jcnt == 0 {
      return true, next;
    }
    var val, code, cur := c.start[j], code0, Cursor(0x100, 0, 0);
    var i := 0;
    while i < jcnt
      invariant 0 <= i <= jcnt == Count(lens, j)
      invariant code == Rev(FirstCode(lens, j) + i, j)
      invariant i < jcnt ==> At(lens, j, i, val)
      invariant cur.In(table[..], j - 8)
      invariant Filled(lens, j, i, old(table[..]), table[..])
      invariant old(Owned(lens, j, 0, table[..], next0)) ==> Owned(lens, j, i, table[..], next) && RoomUpTo(lens, j, i)
    {
      ghost var before := table[..];
      RoomOneMore(lens, j, i, val);
      ok, cur, next := PlaceSecondary(lens, j, i, code, val, table, cur, next);
      if !ok {
        if RoomUpTo(lens, j, jcnt) { RoomFewer(lens, j, i + 1, jcnt); }
        return;
      }
      FilledStep(lens, j, i, val, old(table[..]), before, table[..]);
      if i + 1 < jcnt {
        val := c.next[val];
      }
      code := NextCode(code, j, FirstCode(lens, j) + i);
      i := i + 1;
    }
    ok := true;
  }

  /** Enter all codes of more than 8 bits, longest first. */
  method FillSecondary(lens: seq<nat>, c: Chains, firstcode: seq<nat>, table: array<nat>) returns (ok: bool)
    requires c.Describe(lens) && |lens| <= 512 && table.Length == TABLE_SIZE && |firstcode| == 7
    requires forall j :: 9 <= j < 16 && Count(lens, j) > 0 ==> firstcode[j - 9] == Rev(FirstCode(lens, j), j)
    requires Kraft(lens) ==> PresentIn(table[..], lens, 1, 8)
    modifies table
    ensures ok && Kraft(lens) ==> PresentIn(table[..], lens, 1, 15)
    ensures old(Owned(lens, 15, 0, table[..], 0)) ==> (ok <==> Room(lens))
  {
    hide Rev, CountIn, FirstCode, Filled, Owned, Room, RoomAbove, RoomUpTo, Kraft;
    var next_secondary := 0;
    var j := 15;
    AllShort(lens);
    RoomForAll(lens);
    while j >= 9
      invariant 8 <= j <= 15
      invariant Kraft(lens) ==> PresentIn(table[..], lens, 1, 8) && PresentIn(table[..], lens, j + 1, 15)
      invariant old(Owned(lens, 15, 0, table[..], 0)) ==>
                  Owned(lens, j, 0, table[..], next_secondary) && RoomAbove(lens, j)
    {
      ghost var before := table[..];
      RoomOneLength(lens, j);
      ok, next_secondary := FillSecondaryLength(lens, c, j, firstcode[j - 9], table, next_secondary);
      if !ok {
        return;
      }
      if Kraft(lens) {
        PresentInStep(lens, 1, 8, j, before, table[..]);
        PresentInStep(lens, j + 1, 15, j, before, table[..]);
      }
      if Owned(lens, j, Count(lens, j), table[..], next_secondary) { OwnedNext(lens, j, table[..], next_secondary); }
      j := j - 1;
    }
    ok := true;
  }

  lemma {:induction false} AllShort(lens: seq<nat>)
    ensures Kraft(lens) ==> forall t :: 0 <= t < |lens| ==> lens[t] <= 15
  {
    hide KraftSum;
  }

  /**
   * Build the decoding table of a list of code lengths. On lengths that form a prefix code it succeeds exactly if there
   * is room for the secondary tables, and then the table decodes the canonical code of RFC 1951, section 3.2.2.
   */
  method BuildTable(lens: seq<nat>, table: array<nat>) returns (ok: bool)
    requires |lens| <= 286 + 30 && table.Length == TABLE_SIZE
    modifies table
    ensures InBounds(table[..])
    ensures ok && Kraft(lens) ==> Decodes(table[..], lens)
    ensures Kraft(lens) ==> (ok <==> Room(lens))
    ensures Complete(lens) ==> ok
  {
    hide InBounds, Decodes, Kraft, Room, Owned, PrimaryOwned, PresentIn, CountIn, FirstCode, Rev;
    FullTableInBounds(table[..]);
    AllShort(lens);
    if Complete(lens) { CompleteHasRoom(lens); }
    var c;
    ok, c := CountLengths(lens);
    if !ok {
      return;
    }
    forall k | 0 <= k < table.Length {
      table[k] := 0;
    }
    var code, firstcode;
    NothingOwned(lens, table[..]);
    ok, code := FillPrimary(lens, c, table);
    FullTableInBounds(table[..]);
    if !ok {
      return;
    }
    ok, firstcode := FirstCodes(lens, c, code);
    if !ok {
      return;
    }
    if Kraft(lens) { OwnedStarts(lens, table[..]); }
    ok := FillSecondary(lens, c, firstcode, table);
    FullTableInBounds(table[..]);
    if ok && Kraft(lens) {
      AllDecode(table[..], lens);
    }
  }

  lemma {:induction false} AllDecode(table: seq<nat>, lens: seq<nat>)
    requires |table| == TABLE_SIZE && InBounds(table) && |lens| <= 512 && Kraft(lens)
    requires PresentIn(table, lens, 1, 15)
    ensures Decodes(table, lens)
  {
    forall s, val | 0 <= s < |lens| && lens[s] > 0 && Low(val, lens[s]) == Reversed(lens, s)
      ensures Lookup(table, val) == (s, lens[s])
    {
      PresentDecodes(table, lens, s, val);
    }
  }
}

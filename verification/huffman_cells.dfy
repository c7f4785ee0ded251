/** Which codes own the cells of the table while it is built, so that no cell is wanted twice. */
module HuffmanCells {
  import opened Bits
  import opened CanonicalCode
  import opened HuffmanTable
  import opened HuffmanRoom

  /** v is the i-th symbol with a code of length l. */
  ghost predicate At(lens: seq<nat>, l: nat, i: nat, v: nat) {
    v < |lens| && lens[v] == l && Rank(lens, v) == i
  }

  lemma {:induction false} RankInjective(lens: seq<nat>, v: nat, w: nat)
    requires v < |lens| && w < |lens| && lens[v] == lens[w] && Rank(lens, v) == Rank(lens, w)
    ensures v == w
  {
    if v < w { RankIncreases(lens, v, w); }
    if w < v { RankIncreases(lens, w, v); }
  }

  // ----- Why no primary cell is wanted twice -----

  /** The short codes that are entered before the one of length j with rank i. */
  predicate Before(lens: seq<nat>, j: nat, i: nat, s: nat) {
    s < |lens| && 0 < lens[s] && (lens[s] < j || (lens[s] == j && Rank(lens, s) < i))
  }

  /** Cell k belongs to one of them. */
  ghost predicate ShortAt(lens: seq<nat>, j: nat, i: nat, k: nat) {
    exists s: nat :: Before(lens, j, i, s) && Low(k, lens[s]) == Reversed(lens, s)
  }

  /** Nothing is in the table but what they have put there. */
  ghost predicate PrimaryOwned(lens: seq<nat>, j: nat, i: nat, table: seq<nat>)
    requires |table| == TABLE_SIZE
  {
    && (forall k :: 0 <= k < 0x100 && table[k] != 0 ==> !IsPointer(table[k]) && ShortAt(lens, j, i, k))
    && (forall k :: 0x100 <= k < TABLE_SIZE ==> table[k] == 0)
  }

  lemma {:induction false} PrimaryFree(lens: seq<nat>, j: nat, i: nat, table: seq<nat>, val: nat, x: nat)
    requires Kraft(lens) && |table| == TABLE_SIZE && PrimaryOwned(lens, j, i, table) && At(lens, j, i, val) && j > 0
    requires x < 0x100 && Low(x, j) == Reversed(lens, val)
    ensures table[x] == 0
  {
    hide Low, Reversed, Kraft, CountIn;
    if table[x] != 0 {
      var s: nat :| Before(lens, j, i, s) && Low(x, lens[s]) == Reversed(lens, s);
      CodesApart(lens, s, val, x);
    }
  }

  lemma {:induction false} PrimaryStep(lens: seq<nat>, j: nat, i: nat, val: nat, a: seq<nat>, b: seq<nat>)
    requires |a| == |b| == TABLE_SIZE && PrimaryOwned(lens, j, i, a) && At(lens, j, i, val) && 1 <= j <= 8 && val < 512
    requires forall k :: 0 <= k < TABLE_SIZE && b[k] != a[k] ==>
               k < 0x100 && Low(k, j) == Reversed(lens, val) && b[k] == Entry(val, j - 1)
    ensures PrimaryOwned(lens, j, i + 1, b)
  {
    hide Low, Reversed, CountIn, ShortAt, Entry, IsPointer;
    EntryFields(val, j - 1);
    forall k | 0 <= k < 0x100 && b[k] != 0
      ensures !IsPointer(b[k]) && ShortAt(lens, j, i + 1, k)
    {
      if b[k] != a[k] { ShortHere(lens, j, i, val, k); } else { ShortStill(lens, j, i, k); }
    }
  }

  lemma {:induction false} ShortHere(lens: seq<nat>, j: nat, i: nat, val: nat, k: nat)
    requires At(lens, j, i, val) && j > 0 && Low(k, j) == Reversed(lens, val)
    ensures ShortAt(lens, j, i + 1, k)
  {
    hide Low, Reversed, CountIn;
    assert Before(lens, j, i + 1, val);
  }

  lemma {:induction false} ShortStill(lens: seq<nat>, j: nat, i: nat, k: nat)
    requires ShortAt(lens, j, i, k)
    ensures ShortAt(lens, j, i + 1, k)
  {
    hide Low, Reversed, CountIn;
    var s: nat :| Before(lens, j, i, s) && Low(k, lens[s]) == Reversed(lens, s);
    assert Before(lens, j, i + 1, s);
  }

  /** All codes of one length are entered before the first of the next length. */
  lemma {:induction false} PrimaryNext(lens: seq<nat>, j: nat, table: seq<nat>)
    requires |table| == TABLE_SIZE && PrimaryOwned(lens, j, Count(lens, j), table)
    ensures PrimaryOwned(lens, j + 1, 0, table)
  {
    hide Low, Reversed, CountIn;
    forall k | 0 <= k < 0x100 && table[k] != 0
      ensures ShortAt(lens, j + 1, 0, k)
    {
      var s: nat :| Before(lens, j, Count(lens, j), s) && Low(k, lens[s]) == Reversed(lens, s);
      assert Before(lens, j + 1, 0, s);
    }
  }

  // ----- Why no secondary cell is wanted twice -----

  /** Where the code of s goes: cell c of the secondary table to which its primary cell points. */
  ghost predicate GoesTo(lens: seq<nat>, table: seq<nat>, s: nat, c: nat)
    requires |table| == TABLE_SIZE && s < |lens| && lens[s] >= 9
  {
    var p := Low(Reversed(lens, s), 8);
    p < 0x100 && IsPointer(table[p]) && Value(table[p]) <= c < Value(table[p]) + Pow2(BitsField(table[p])) &&
    Low(c - Value(table[p]), lens[s] - 8) == Shr(Reversed(lens, s), 8)
  }

  /** Cell c of the secondary tables belongs to a code that was entered already. */
  ghost predicate CellOwned(lens: seq<nat>, j: nat, i: nat, table: seq<nat>, c: nat)
    requires |table| == TABLE_SIZE
  {
    exists s: nat :: Earlier(lens, j, i, s) && GoesTo(lens, table, s, c)
  }

  /** Primary cell k points to a secondary table below next, which is large enough for codes of length j. */
  ghost predicate PointerOwned(lens: seq<nat>, j: nat, i: nat, k: nat, t: nat, next: nat) {
    && BitsField(t) >= j - 8 && Value(t) + Pow2(BitsField(t)) <= next
    && exists s: nat :: Earlier(lens, j, i, s) && Low(Reversed(lens, s), 8) == k
  }

  ghost predicate Disjoint(t: nat, u: nat) {
    Value(t) + Pow2(BitsField(t)) <= Value(u) || Value(u) + Pow2(BitsField(u)) <= Value(t)
  }

  /** The primary cells hold what the short codes and those before the one of length j with rank i have put there. */
  ghost predicate TablesOwned(lens: seq<nat>, j: nat, i: nat, table: seq<nat>, next: nat)
    requires |table| == TABLE_SIZE
  {
    && next == Taken(lens, j, i)
    && (forall k :: 0 <= k < 0x100 && table[k] != 0 ==> PrimaryCell(lens, j, i, k, table[k], next))
    && (forall k,
        l :: 0 <= k < l < 0x100 && IsPointer(table[k]) && IsPointer(table[l]) ==> Disjoint(table[k], table[l]))
    && (forall s: nat :: Earlier(lens, j, i, s) ==> PointsOn(lens, table, s))
  }

  ghost predicate PrimaryCell(lens: seq<nat>, j: nat, i: nat, k: nat, t: nat, next: nat) {
    if IsPointer(t) then PointerOwned(lens, j, i, k, t, next) else ShortAt(lens, 9, 0, k)
  }

  /** The primary cell of this code points to a secondary table. */
  ghost predicate PointsOn(lens: seq<nat>, table: seq<nat>, s: nat)
    requires |table| == TABLE_SIZE && s < |lens|
  {
    var p := Low(Reversed(lens, s), 8);
    p < 0x100 && IsPointer(table[p])
  }

  /** The cells of the secondary tables hold what those codes have put there. */
  ghost predicate CellsOwned(lens: seq<nat>, j: nat, i: nat, table: seq<nat>)
    requires |table| == TABLE_SIZE
  {
    forall k :: 0x100 <= k < TABLE_SIZE && table[k] != 0 ==> CellOwned(lens, j, i, table, k - 0x100)
  }

  lemma {:induction false} SecondaryStarts(lens: seq<nat>, table: seq<nat>)
    requires |table| == TABLE_SIZE && PrimaryOwned(lens, 9, 0, table) && Kraft(lens)
    ensures TablesOwned(lens, 15, 0, table, 0) && CellsOwned(lens, 15, 0, table)
  {
    hide Low, Reversed, ShortAt, Kraft, TakenBy, IsPointer, Disjoint, PointsOn, CellOwned;
    NothingEarlier(lens);
    ZeroIsNoPointer();
    TakenNothing(lens, |lens|);
  }

  lemma {:induction false} ZeroIsNoPointer()
    ensures !IsPointer(0)
  {
  }

  lemma {:induction false} NothingEarlier(lens: seq<nat>)
    requires Kraft(lens)
    ensures (forall t :: 0 <= t < |lens| ==> lens[t] <= 15) && forall s: nat :: !Earlier(lens, 15, 0, s)
  {
    hide KraftSum, CountIn;
  }

  /** An earlier code is still an earlier one. */
  lemma {:induction false} StillEarlier(lens: seq<nat>, j: nat, i: nat, k: nat, t: nat, next: nat, more: nat)
    requires next <= more && PrimaryCell(lens, j, i, k, t, next)
    ensures PrimaryCell(lens, j, i + 1, k, t, more)
  {
    hide Low, Reversed, ShortAt, CountIn, Value, BitsField, IsPointer, Pow2;
    if IsPointer(t) {
      var s: nat :| Earlier(lens, j, i, s) && Low(Reversed(lens, s), 8) == k;
      assert Earlier(lens, j, i + 1, s);
    }
  }

  lemma {:induction false} CellStill(lens: seq<nat>, j: nat, i: nat, a: seq<nat>, b: seq<nat>, c: nat)
    requires |a| == |b| == TABLE_SIZE && CellOwned(lens, j, i, a, c)
    requires forall k :: 0 <= k < 0x100 && IsPointer(a[k]) ==> b[k] == a[k]
    ensures CellOwned(lens, j, i, b, c) && CellOwned(lens, j, i + 1, b, c)
  {
    hide Low, Reversed, CountIn, Value, BitsField, IsPointer, Pow2, Shr;
    var s: nat :| Earlier(lens, j, i, s) && GoesTo(lens, a, s, c);
    assert GoesTo(lens, b, s, c) && Earlier(lens, j, i + 1, s);
  }

  lemma {:induction false} EarlierOrThis(lens: seq<nat>, j: nat, i: nat, val: nat, s: nat)
    requires At(lens, j, i, val) && Earlier(lens, j, i + 1, s)
    ensures s == val || Earlier(lens, j, i, s)
  {
    hide CountIn;
    if lens[s] == j && Rank(lens, s) == i { RankInjective(lens, s, val); }
  }

  /** A primary cell that is in use, for a long code: it points to a secondary table that is large enough. */
  lemma {:induction false} OldTable(lens: seq<nat>, j: nat, i: nat, val: nat, table: seq<nat>, next: nat)
    requires Kraft(lens) && |table| == TABLE_SIZE && j >= 9 && At(lens, j, i, val)
    requires TablesOwned(lens, j, i, table, next)
    requires var p := Low(Reversed(lens, val), 8); p < 0x100 && table[p] != 0
    ensures var t := table[Low(Reversed(lens, val), 8)]; IsPointer(t) && BitsField(t) >= j - 8
    ensures !Opens(lens, val) && TablesOwned(lens, j, i + 1, table, next)
  {
    hide Low, Reversed, ShortAt, CountIn, Value, BitsField, IsPointer, Pow2, Kraft, Opens, Prefix, TakenBy,
      PointerOwned;
    var p := Low(Reversed(lens, val), 8);
    assert PrimaryCell(lens, j, i, p, table[p], next);
    if !IsPointer(table[p]) { NoShortPrefix(lens, val, p); }
    PointerMeans(lens, j, i, val, table[p], next);
    TakenStep(lens, j, i, val, |lens|);
    forall k | 0 <= k < 0x100 && table[k] != 0
      ensures PrimaryCell(lens, j, i + 1, k, table[k], next)
    {
      StillEarlier(lens, j, i, k, table[k], next, next);
    }
    forall s: nat | Earlier(lens, j, i + 1, s)
      ensures PointsOn(lens, table, s)
    {
      EarlierOrThis(lens, j, i, val, s);
    }
  }

  lemma {:induction false} PointerMeans(lens: seq<nat>, j: nat, i: nat, val: nat, t: nat, next: nat)
    requires Kraft(lens) && j >= 9 && At(lens, j, i, val)
    requires PointerOwned(lens, j, i, Low(Reversed(lens, val), 8), t, next)
    ensures BitsField(t) >= j - 8 && !Opens(lens, val)
  {
    hide Low, Reversed, CountIn, Value, BitsField, Pow2, Kraft, Prefix;
    var s: nat :| Earlier(lens, j, i, s) && Low(Reversed(lens, s), 8) == Low(Reversed(lens, val), 8);
    SamePrefix(lens, s, val);
    assert Earlier(lens, lens[val], Rank(lens, val), s);
  }

  /** The primary cell of a long code belongs to no short one. */
  lemma {:induction false} NoShortPrefix(lens: seq<nat>, val: nat, p: nat)
    requires Kraft(lens) && val < |lens| && lens[val] >= 9 && p == Low(Reversed(lens, val), 8)
    ensures !ShortAt(lens, 9, 0, p)
  {
    hide Low, CountIn, Kraft, Code, Rev;
    if ShortAt(lens, 9, 0, p) {
      var s: nat :| Before(lens, 9, 0, s) && Low(p, lens[s]) == Reversed(lens, s);
      var x := Reversed(lens, val);
      LowLow(x, lens[s], 8);
      LowSmall(x, lens[val]);
      CodesApart(lens, s, val, x);
    }
  }

  /** A primary cell that is empty: a new secondary table behind those that there are. */
  lemma {:induction false} NewTable(lens: seq<nat>, j: nat, i: nat, val: nat, a: seq<nat>, next: nat)
    requires Kraft(lens) && |a| == TABLE_SIZE && 9 <= j <= 15 && At(lens, j, i, val) && TablesOwned(lens, j, i, a, next)
    requires CellsOwned(lens, j, i, a)
    requires var p := Low(Reversed(lens, val), 8); p < 0x100 && a[p] == 0
    ensures Opens(lens, val) && next == Taken(lens, j, i)
    ensures next <= 0x1ff ==>
              var b := a[Low(Reversed(lens, val), 8) := Pointer(next, j - 8)];
              TablesOwned(lens, j, i + 1, b, next + Pow2(j - 8)) && CellsOwned(lens, j, i, b)
  {
    hide Low, Reversed, ShortAt, CountIn, Value, BitsField, Pow2, Kraft, TakenBy, Opens, PrimaryCell, PointsOn,
      CellOwned, Pointer;
    var p := Low(Reversed(lens, val), 8);
    NothingPoints(lens, j, i, val, a, next);
    TakenStep(lens, j, i, val, |lens|);
    if next <= 0x1ff {
      var b := a[p := Pointer(next, j - 8)];
      PointerFields(next, j - 8);
      forall k | 0 <= k < 0x100 && b[k] != 0
        ensures PrimaryCell(lens, j, i + 1, k, b[k], next + Pow2(j - 8))
      {
        if k == p {
          NewCell(lens, j, i, val, b[p], next);
        } else {
          StillEarlier(lens, j, i, k, a[k], next, next + Pow2(j - 8));
        }
      }
      forall k, l | 0 <= k < l < 0x100 && IsPointer(b[k]) && IsPointer(b[l])
        ensures Disjoint(b[k], b[l])
      {
        if k == p { BelowNext(lens, j, i, l, a[l], next); }
        if l == p { BelowNext(lens, j, i, k, a[k], next); }
      }
      forall s: nat | Earlier(lens, j, i + 1, s)
        ensures PointsOn(lens, b, s)
      {
        EarlierOrThis(lens, j, i, val, s);
        PointsStill(lens, j, i, val, a, b, s);
      }
      forall k | 0x100 <= k < TABLE_SIZE && b[k] != 0
        ensures CellOwned(lens, j, i, b, k - 0x100)
      {
        CellStill(lens, j, i, a, b, k - 0x100);
      }
    }
  }

  lemma {:induction false} PointsStill(lens: seq<nat>, j: nat, i: nat, val: nat, a: seq<nat>, b: seq<nat>, s: nat)
    requires |a| == |b| == TABLE_SIZE && val < |lens| && s < |lens| && (s == val || PointsOn(lens, a, s))
    requires var p := Low(Reversed(lens, val), 8); p < 0x100 && b == a[p := b[p]] && IsPointer(b[p])
    ensures PointsOn(lens, b, s)
  {
    hide Low, Reversed, IsPointer;
  }

  /** What points below next does not reach the new table. */
  lemma {:induction false} BelowNext(lens: seq<nat>, j: nat, i: nat, k: nat, t: nat, next: nat)
    requires IsPointer(t) && PrimaryCell(lens, j, i, k, t, next)
    ensures Value(t) + Pow2(BitsField(t)) <= next
  {
    hide Low, Reversed, Value, BitsField, IsPointer, Pow2;
  }

  lemma {:induction false} NewCell(lens: seq<nat>, j: nat, i: nat, val: nat, t: nat, next: nat)
    requires j >= 9 && At(lens, j, i, val) && IsPointer(t) && Value(t) == next && BitsField(t) == j - 8
    ensures PrimaryCell(lens, j, i + 1, Low(Reversed(lens, val), 8), t, next + Pow2(j - 8))
  {
    hide Low, Reversed, CountIn, Value, BitsField, IsPointer, Pow2;
    assert Earlier(lens, j, i + 1, val);
  }

  /** An empty primary cell is that of no earlier code. */
  lemma {:induction false} NothingPoints(lens: seq<nat>, j: nat, i: nat, val: nat, table: seq<nat>, next: nat)
    requires Kraft(lens) && |table| == TABLE_SIZE && j >= 9 && At(lens, j, i, val)
    requires TablesOwned(lens, j, i, table, next)
    requires var p := Low(Reversed(lens, val), 8); p < 0x100 && table[p] == 0
    ensures Opens(lens, val)
  {
    hide Low, Reversed, CountIn, Kraft, Prefix, PrimaryCell, Disjoint, TakenBy;
    forall s | Earlier(lens, lens[val], Rank(lens, val), s)
      ensures Prefix(lens, s) != Prefix(lens, val)
    {
      assert PointsOn(lens, table, s);
      SamePrefix(lens, s, val);
    }
  }

  lemma {:induction false} SamePointer(table: seq<nat>, p: nat, q: nat, c: nat)
    requires |table| == TABLE_SIZE && p < 0x100 && q < 0x100 && IsPointer(table[p]) && IsPointer(table[q])
    requires forall k, l :: 0 <= k < l < 0x100 && IsPointer(table[k]) && IsPointer(table[l]) ==>
               Disjoint(table[k], table[l])
    requires Value(table[p]) <= c < Value(table[p]) + Pow2(BitsField(table[p]))
    requires Value(table[q]) <= c < Value(table[q]) + Pow2(BitsField(table[q]))
    ensures p == q
  {
    hide Value, BitsField, IsPointer, Pow2;
  }

  /** The cells that a code is to fill are empty. */
  lemma {:induction false} CellFree(lens: seq<nat>, j: nat, i: nat, val: nat, table: seq<nat>, next: nat, x: nat)
    requires Kraft(lens) && |table| == TABLE_SIZE && j >= 9 && At(lens, j, i, val)
    requires TablesOwned(lens, j, i + 1, table, next) && CellsOwned(lens, j, i, table)
    requires var p := Low(Reversed(lens, val), 8);
             && p < 0x100 && IsPointer(table[p]) && x < Pow2(BitsField(table[p]))
             && Value(table[p]) + x < TABLE_SIZE - 0x100 && Low(x, j - 8) == Shr(Reversed(lens, val), 8)
    ensures table[0x100 + Value(table[Low(Reversed(lens, val), 8)]) + x] == 0
  {
    hide Low, Reversed, CountIn, Kraft, Value, BitsField, IsPointer, Pow2, Shr, Shl, PrimaryCell, PointsOn, TakenBy;
    var p := Low(Reversed(lens, val), 8);
    var c := Value(table[p]) + x;
    if table[0x100 + c] != 0 {
      assert CellOwned(lens, j, i, table, c);
      var s: nat :| Earlier(lens, j, i, s) && GoesTo(lens, table, s, c);
      var q := Low(Reversed(lens, s), 8);
      SamePointer(table, p, q, c);
      CellIsCode(lens, s, x);
      CellIsCode(lens, val, x);
      CodesApart(lens, s, val, p + Shl(x, 8));
    }
  }

  /** Filling those cells. */
  lemma {:induction false} CellsStep(lens: seq<nat>, j: nat, i: nat, val: nat, a: seq<nat>, b: seq<nat>, next: nat)
    requires |a| == |b| == TABLE_SIZE && j >= 9 && At(lens, j, i, val)
    requires TablesOwned(lens, j, i + 1, a, next) && CellsOwned(lens, j, i, a)
    requires var p := Low(Reversed(lens, val), 8);
             && p < 0x100 && IsPointer(a[p])
             && forall k :: 0 <= k < TABLE_SIZE && b[k] != a[k] ==>
                  var base := 0x100 + Value(a[p]);
                  base <= k < base + Pow2(BitsField(a[p])) && Low(k - base, j - 8) == Shr(Reversed(lens, val), 8)
    ensures TablesOwned(lens, j, i + 1, b, next) && CellsOwned(lens, j, i + 1, b)
  {
    hide Low, Reversed, CountIn, Value, BitsField, IsPointer, Pow2, Shr, PrimaryCell, TakenBy, Disjoint, CellOwned;
    assert forall k :: 0 <= k < 0x100 ==> b[k] == a[k];
    forall k | 0x100 <= k < TABLE_SIZE && b[k] != 0
      ensures CellOwned(lens, j, i + 1, b, k - 0x100)
    {
      if b[k] == a[k] {
        CellStill(lens, j, i, a, b, k - 0x100);
      } else {
        assert GoesTo(lens, b, val, k - 0x100);
        CellHere(lens, j, i, val, b, k - 0x100);
      }
    }
  }

  lemma {:induction false} CellHere(lens: seq<nat>, j: nat, i: nat, val: nat, table: seq<nat>, c: nat)
    requires |table| == TABLE_SIZE && j >= 9 && At(lens, j, i, val) && GoesTo(lens, table, val, c)
    ensures CellOwned(lens, j, i + 1, table, c)
  {
    hide GoesTo, CountIn;
    assert Earlier(lens, j, i + 1, val);
  }

  /** All codes of one length are entered before the first of the next shorter length. */
  lemma {:induction false} SecondaryNext(lens: seq<nat>, j: nat, table: seq<nat>, next: nat)
    requires |table| == TABLE_SIZE && j >= 9
    requires TablesOwned(lens, j, Count(lens, j), table, next) && CellsOwned(lens, j, Count(lens, j), table)
    ensures TablesOwned(lens, j - 1, 0, table, next) && CellsOwned(lens, j - 1, 0, table)
  {
    hide CountIn, Low, Reversed, Value, BitsField, IsPointer, Pow2, TakenBy, GoesTo, Disjoint, ShortAt, PointsOn;
    TakenNext(lens, j, |lens|);
    forall s: nat
      ensures Earlier(lens, j - 1, 0, s) <==> Earlier(lens, j, Count(lens, j), s)
    {
      if s < |lens| && lens[s] == j { RankInRange(lens, s); }
    }
    forall k | 0x100 <= k < TABLE_SIZE && table[k] != 0
      ensures CellOwned(lens, j - 1, 0, table, k - 0x100)
    {
      assert CellOwned(lens, j, Count(lens, j), table, k - 0x100);
    }
    forall k | 0 <= k < 0x100 && table[k] != 0
      ensures PrimaryCell(lens, j - 1, 0, k, table[k], next)
    {
      assert PrimaryCell(lens, j, Count(lens, j), k, table[k], next);
    }
  }

  // ----- All cells -----

  /** Nothing but the codes before this one are in the table. */
  ghost predicate Owned(lens: seq<nat>, j: nat, i: nat, table: seq<nat>, next: nat)
    requires |table| == TABLE_SIZE
  {
    Kraft(lens) && TablesOwned(lens, j, i, table, next) && CellsOwned(lens, j, i, table)
  }

  /** The table that a code needs can be started, if it does not exist. */
  ghost predicate RoomFor(lens: seq<nat>, s: nat)
    requires s < |lens| && lens[s] >= 9
  {
    Opens(lens, s) ==> Taken(lens, lens[s], Rank(lens, s)) <= 0x1ff
  }

  lemma {:induction false} SelectOwned(lens: seq<nat>, j: nat, i: nat, val: nat, a: seq<nat>, next: nat)
    requires |a| == TABLE_SIZE && 9 <= j <= 15 && At(lens, j, i, val) && Owned(lens, j, i, a, next)
    requires Low(Reversed(lens, val), 8) < 0x100
    ensures var p := Low(Reversed(lens, val), 8);
            if a[p] == 0 then
              && (RoomFor(lens, val) <==> next <= 0x1ff)
              && (next <= 0x1ff ==> var b := a[p := Pointer(next, j - 8)];
                                    TablesOwned(lens, j, i + 1, b, next + Pow2(j - 8)) && CellsOwned(lens, j, i, b))
            else
              && RoomFor(lens, val) && IsPointer(a[p]) && BitsField(a[p]) >= j - 8
              && TablesOwned(lens, j, i + 1, a, next) && CellsOwned(lens, j, i, a)
  {
    hide Low, Reversed, CountIn, Kraft, TablesOwned, CellsOwned, Opens, TakenBy, Pointer, IsPointer, BitsField, Pow2;
    var p := Low(Reversed(lens, val), 8);
    if a[p] == 0 { NewTable(lens, j, i, val, a, next); } else { OldTable(lens, j, i, val, a, next); }
  }

  lemma {:induction false} OwnedNext(lens: seq<nat>, j: nat, table: seq<nat>, next: nat)
    requires |table| == TABLE_SIZE && j >= 9 && Owned(lens, j, Count(lens, j), table, next)
    ensures Owned(lens, j - 1, 0, table, next)
  {
    hide TablesOwned, CellsOwned, Kraft, CountIn;
    SecondaryNext(lens, j, table, next);
  }

  lemma {:induction false} NothingOwned(lens: seq<nat>, table: seq<nat>)
    requires |table| == TABLE_SIZE && forall k :: 0 <= k < TABLE_SIZE ==> table[k] == 0
    ensures PrimaryOwned(lens, 1, 0, table)
  {
    hide ShortAt;
  }

  lemma {:induction false} OwnedStarts(lens: seq<nat>, table: seq<nat>)
    requires |table| == TABLE_SIZE && PrimaryOwned(lens, 9, 0, table) && Kraft(lens)
    ensures Owned(lens, 15, 0, table, 0)
  {
    hide PrimaryOwned, TablesOwned, CellsOwned, Kraft;
    SecondaryStarts(lens, table);
  }

  // ----- Room for the tables, one length at a time -----

  /** There is room for all tables that the codes of length j, up to rank i, need. */
  ghost predicate RoomUpTo(lens: seq<nat>, j: nat, i: nat)
    requires j >= 9
  {
    forall s :: 0 <= s < |lens| && lens[s] == j && Rank(lens, s) < i ==> RoomFor(lens, s)
  }

  lemma {:induction false} RoomNone(lens: seq<nat>, j: nat)
    requires j >= 9
    ensures RoomUpTo(lens, j, 0)
  {
    hide RoomFor, CountIn;
  }

  lemma {:induction false} RoomOneMore(lens: seq<nat>, j: nat, i: nat, val: nat)
    requires j >= 9 && At(lens, j, i, val)
    ensures RoomUpTo(lens, j, i + 1) <==> RoomUpTo(lens, j, i) && RoomFor(lens, val)
  {
    hide RoomFor, CountIn;
    forall s | 0 <= s < |lens| && lens[s] == j && Rank(lens, s) < i + 1
      ensures s == val || Rank(lens, s) < i
    {
      if Rank(lens, s) == i { RankInjective(lens, s, val); }
    }
  }

  /** Room for the first codes is needed for all of them. */
  lemma {:induction false} RoomFewer(lens: seq<nat>, j: nat, i: nat, n: nat)
    requires j >= 9 && i <= n && RoomUpTo(lens, j, n)
    ensures RoomUpTo(lens, j, i)
  {
    hide RoomFor, CountIn;
  }

  /** There is room for all tables that codes longer than j need. */
  ghost predicate RoomAbove(lens: seq<nat>, j: nat)
    requires j >= 8
  {
    forall s :: 0 <= s < |lens| && lens[s] > j ==> RoomFor(lens, s)
  }

  lemma {:induction false} RoomOneLength(lens: seq<nat>, j: nat)
    requires j >= 9
    ensures RoomAbove(lens, j - 1) <==> RoomAbove(lens, j) && RoomUpTo(lens, j, Count(lens, j))
  {
    hide RoomFor, CountIn;
    forall s | 0 <= s < |lens| && lens[s] == j
      ensures Rank(lens, s) < Count(lens, j)
    {
      RankInRange(lens, s);
    }
  }

  lemma {:induction false} RoomForAll(lens: seq<nat>)
    ensures RoomAbove(lens, 8) <==> Room(lens)
    ensures (forall t :: 0 <= t < |lens| ==> lens[t] <= 15) ==> RoomAbove(lens, 15)
    ensures forall j :: j >= 8 && Room(lens) ==> RoomAbove(lens, j)
  {
    hide Opens, TakenBy, CountIn;
  }
}

/** Writing the DEFLATE format, from RFC 1951 (sections 3.2.3 to 3.2.7), and that what is written is what is decoded. */
module DeflateEncode {
  import opened Bits
  import opened BitStrings
  import opened CanonicalCode
  import opened Deflate
  import opened Options

  // ----- Numbers and symbols -----

  /** The code of a symbol. */
  function SymbolBits(lens: seq<nat>, s: nat): (r: seq<nat>)
    requires s < |lens|
    ensures |r| == lens[s]
  {
    CodeBits(Code(lens, s), lens[s])
  }

  lemma {:induction false} SymbolIsRead(lens: seq<nat>, mem: seq<Byte>, lim: nat, p: nat, s: nat)
    requires lim <= |mem| && Kraft(lens) && s < |lens| && lens[s] > 0
    requires BitsAre(mem, p, SymbolBits(lens, s)) && p + lens[s] <= 8 * lim
    ensures Symbol(lens, mem, lim, p) == Some(s)
  {
    hide Kraft, Code, BitsAre, CodeBits;
    CodeFits(lens, s);
    CodeIsRead(mem, p, Code(lens, s), lens[s]);
    SymbolIs(lens, mem, lim, p, s);
  }

  lemma {:induction false} NumberAt(mem: seq<Byte>, lim: nat, p: nat, v: nat, n: nat)
    requires lim <= |mem| && BitsAre(mem, p, NumberBits(v, n)) && v < Pow2(n) && p + n <= 8 * lim
    ensures Number(mem, lim, p, n) == Some(v)
  {
    hide BitsAre, Read, NumberBits;
    NumberIsRead(mem, p, v, n);
  }

  // ----- Section 3.2.7: code lengths -----

  /** One item of the compressed code lengths. */
  datatype Item = One(l: nat) | Again(n: nat) | Zeros(n: nat) | ManyZeros(n: nat) {
    predicate Valid(first: bool) {
      match this
      case One(l) => l <= 15
      case Again(n) => 3 <= n <= 6 && !first
      case Zeros(n) => 3 <= n <= 10
      case ManyZeros(n) => 11 <= n <= 138
    }

    function Symbol(): nat {
      match this
      case One(l) => l
      case Again(_) => 16
      case Zeros(_) => 17
      case ManyZeros(_) => 18
    }

    /** The bits after the symbol. */
    function Extra(): seq<nat>
      requires Valid(false)
    {
      match this
      case One(_) => []
      case Again(n) => NumberBits(n - 3, 2)
      case Zeros(n) => NumberBits(n - 3, 3)
      case ManyZeros(n) => NumberBits(n - 11, 7)
    }

    /** The code lengths so far, and those that the item stands for. */
    function Extend(lens: seq<nat>): (r: seq<nat>)
      requires Valid(lens == [])
      ensures |r| > |lens|
    {
      match this
      case One(l) => lens + [l]
      case Again(n) => lens + seq(n, _ => lens[|lens| - 1])
      case Zeros(n) => lens + seq(n, _ => 0)
      case ManyZeros(n) => lens + seq(n, _ => 0)
    }

    /** The item with the code for items. */
    function Bits(code: seq<nat>): seq<nat>
      requires Valid(false) && |code| == 19
    {
      SymbolBits(code, Symbol()) + Extra()
    }
  }

  /** Items whose symbols all have codes, the first one after `first` lengths being none yet. */
  predicate ValidItems(items: seq<Item>, code: seq<nat>, first: bool)
    requires |code| == 19
  {
    forall i :: 0 <= i < |items| ==> items[i].Valid(first && i == 0) && code[items[i].Symbol()] > 0
  }

  function Lengths(items: seq<Item>, lens: seq<nat>, code: seq<nat>): (r: seq<nat>)
    requires |code| == 19 && ValidItems(items, code, lens == [])
    ensures |r| >= |lens|
    decreases |items|
  {
    if items == [] then lens else Lengths(items[1..], items[0].Extend(lens), code)
  }

  function ItemBits(items: seq<Item>, code: seq<nat>): seq<nat>
    requires |code| == 19 && ValidItems(items, code, false)
    decreases |items|
  {
    if items == [] then [] else items[0].Bits(code) + ItemBits(items[1..], code)
  }

  lemma {:induction false} SameRepeat(x: nat, n: nat)
    ensures Repeat(x, n) == seq(n, _ => x)
  {
  }

  /** The symbol of an item is read. */
  lemma {:induction false} ItemSymbolIsRead(item: Item, code: seq<nat>, mem: seq<Byte>, lim: nat, p: nat)
    requires lim <= |mem| && |code| == 19 && Kraft(code) && item.Valid(false) && code[item.Symbol()] > 0
    requires BitsAre(mem, p, item.Bits(code)) && p + |item.Bits(code)| <= 8 * lim
    ensures Symbol(code, mem, lim, p) == Some(item.Symbol())
    ensures BitsAre(mem, p + code[item.Symbol()], item.Extra())
    ensures |item.Bits(code)| == code[item.Symbol()] + |item.Extra()|
  {
    hide BitsAre, Kraft, Deflate.Symbol, SymbolBits, Item.Extra;
    Split(mem, p, SymbolBits(code, item.Symbol()), item.Extra());
    SymbolIsRead(code, mem, lim, p, item.Symbol());
  }

  /** An item is read as what it stands for, here after its symbol, which ends at q. */
  lemma {:induction false} ZerosAreRead(item: Item, code: seq<nat>, mem: seq<Byte>, lim: nat, p: nat, q: nat, n: nat,
                                        lens: seq<nat>)
    requires lim <= |mem| && item.Valid(lens == []) && |lens| < n && |code| == 19 && q == p + code[item.Symbol()]
    requires Symbol(code, mem, lim, p) == Some(item.Symbol()) && (item.Zeros? || item.ManyZeros?)
    requires BitsAre(mem, q, item.Extra()) && q + |item.Extra()| <= 8 * lim
    ensures CodeLengths(code, mem, lim, p, n, lens)
            == CodeLengths(code, mem, lim, q + |item.Extra()|, n, item.Extend(lens))
  {
    hide BitsAre, Deflate.Symbol, Number, Repeat, NumberBits;
    assert Pow2(3) == 8 && Pow2(7) == 128 by { Powers(); }
    hide Pow2;
    match item
    case Zeros(c) =>
      NumberAt(mem, lim, q, c - 3, 3);
      SameRepeat(0, c);
    case ManyZeros(c) =>
      NumberAt(mem, lim, q, c - 11, 7);
      SameRepeat(0, c);
  }

  /** One item is read as what it stands for. */
  lemma {:induction false} ItemIsRead(item: Item, code: seq<nat>, mem: seq<Byte>, lim: nat, p: nat, n: nat,
                                      lens: seq<nat>)
    requires lim <= |mem| && |code| == 19 && Kraft(code) && item.Valid(lens == []) && code[item.Symbol()] > 0
    requires BitsAre(mem, p, item.Bits(code)) && p + |item.Bits(code)| <= 8 * lim && |lens| < n
    ensures CodeLengths(code, mem, lim, p, n, lens)
            == CodeLengths(code, mem, lim, p + |item.Bits(code)|, n, item.Extend(lens))
  {
    hide BitsAre, Kraft, Deflate.Symbol, Number, Repeat, NumberBits, SymbolBits, Item.Bits, Pow2;
    ItemSymbolIsRead(item, code, mem, lim, p);
    var q := p + code[item.Symbol()];
    match item
    case One(_) =>
    case Again(c) =>
      assert Pow2(2) == 4 by { Powers(); }
      NumberAt(mem, lim, q, c - 3, 2);
      SameRepeat(lens[|lens| - 1], c);
    case _ =>
      ZerosAreRead(item, code, mem, lim, p, q, n, lens);
  }

  lemma {:induction false} WeakerItems(items: seq<Item>, code: seq<nat>, first: bool)
    requires |code| == 19 && ValidItems(items, code, first)
    ensures ValidItems(items, code, false)
    ensures items != [] ==> items[0].Valid(first) && items[0].Valid(false) && ValidItems(items[1..], code, false)
    ensures items != [] ==> code[items[0].Symbol()] > 0
  {
  }

  lemma {:induction false} FirstItem(items: seq<Item>, code: seq<nat>, lens: seq<nat>)
    requires |code| == 19 && items != [] && ValidItems(items, code, lens == [])
    ensures ValidItems(items, code, false) && ValidItems(items[1..], code, false)
    ensures items[0].Valid(lens == []) && items[0].Valid(false) && code[items[0].Symbol()] > 0
    ensures items[0].Extend(lens) != []
    ensures Lengths(items, lens, code) == Lengths(items[1..], items[0].Extend(lens), code)
    ensures ItemBits(items, code) == items[0].Bits(code) + ItemBits(items[1..], code)
  {
    hide Item.Bits, Item.Extend, Item.Valid, Item.Symbol, ValidItems;
    WeakerItems(items, code, lens == []);
  }

  lemma {:induction false} ItemsAreRead(items: seq<Item>, code: seq<nat>, mem: seq<Byte>, lim: nat, p: nat,
                                        lens: seq<nat>)
    requires lim <= |mem| && |code| == 19 && Kraft(code) && ValidItems(items, code, lens == [])
    requires ValidItems(items, code, false)
    requires BitsAre(mem, p, ItemBits(items, code)) && p + |ItemBits(items, code)| <= 8 * lim
    ensures var all := Lengths(items, lens, code);
            CodeLengths(code, mem, lim, p, |all|, lens) == Some((all, p + |ItemBits(items, code)|))
    decreases |items|
  {
    hide BitsAre, Kraft, Item.Bits, Item.Extend, Item.Valid, Item.Symbol, ValidItems, Lengths, ItemBits, CodeLengths;
    if items == [] {
      NoItems(code, mem, lim, p, lens);
    } else {
      FirstItem(items, code, lens);
      var bits, rest := items[0].Bits(code), ItemBits(items[1..], code);
      Split(mem, p, bits, rest);
      var next := items[0].Extend(lens);
      ItemsAreRead(items[1..], code, mem, lim, p + |bits|, next);
      ItemIsRead(items[0], code, mem, lim, p, |Lengths(items, lens, code)|, lens);
    }
  }

  lemma {:induction false} NoItems(code: seq<nat>, mem: seq<Byte>, lim: nat, p: nat, lens: seq<nat>)
    requires lim <= |mem| && |code| == 19 && ValidItems([], code, lens == [])
    ensures ValidItems([], code, false) && Lengths([], lens, code) == lens && ItemBits([], code) == []
    ensures CodeLengths(code, mem, lim, p, |lens|, lens) == Some((lens, p))
  {
  }

  /** The lengths of the code for items, in the order in which they are transmitted. */
  function Ordered(code: seq<nat>): (r: seq<nat>)
    requires |code| == 19
    ensures |r| == 19
  {
    [code[16], code[17], code[18], code[0], code[8], code[7], code[9], code[6], code[10], code[5],
     code[11], code[4], code[12], code[3], code[13], code[2], code[14], code[1], code[15]]
  }

  function ThreeBits(lens: seq<nat>): (r: seq<nat>)
    ensures |r| == 3 * |lens|
  {
    if lens == [] then [] else ThreeBits(lens[..|lens| - 1]) + NumberBits(lens[|lens| - 1], 3)
  }

  /** The place at which the length of symbol s is transmitted. */
  const PLACE: seq<nat> := [3, 17, 15, 13, 11, 9, 7, 5, 4, 6, 8, 10, 12, 14, 16, 18, 0, 1, 2]

  lemma {:induction false} PlaceOf(code: seq<nat>, k: nat)
    requires |code| == 19 && k < 19
    ensures PLACE[Order(k)] == k && Ordered(code)[k] == code[Order(k)]
  {
  }

  lemma {:induction false} OrderOf(s: nat)
    requires s < 19
    ensures PLACE[s] < 19 && Order(PLACE[s]) == s
  {
  }

  /** The lengths of which the first n in the order of transmission are those of a code, and the others are zero. */
  predicate Received(got: seq<nat>, code: seq<nat>, n: nat)
    requires |code| == 19
  {
    |got| == 19 && forall s :: 0 <= s < 19 ==> got[s] == if PLACE[s] < n then code[s] else 0
  }

  lemma {:induction false} LengthIsRead(got: seq<nat>, code: seq<nat>, n: nat)
    requires |code| == 19 && n < 19 && Received(got, code, n)
    ensures Received(got[Order(n) := Ordered(code)[n]], code, n + 1)
  {
    hide Order, Ordered;
    PlaceOf(code, n);
    forall s | 0 <= s < 19 && s != Order(n)
      ensures PLACE[s] != n
    {
      OrderOf(s);
    }
  }

  lemma {:induction false} LengthCodeIsRead(code: seq<nat>, mem: seq<Byte>, p: nat, k: nat, n: nat, got: seq<nat>)
    requires |code| == 19 && k <= n <= 19 && Received(got, code, k) && p + 3 * n <= 8 * |mem|
    requires forall i :: k <= i < n ==> Read(mem, p + 3 * i, 3) == Ordered(code)[i]
    ensures Received(LengthCode(mem, p, k, n, got), code, n)
    decreases n - k
  {
    hide Order, Ordered, Read, Received;
    assert |got| == 19 by { ReceivedSize(got, code, k); }
    if k < n {
      LengthIsRead(got, code, k);
      LengthCodeIsRead(code, mem, p, k + 1, n, got[Order(k) := Read(mem, p + 3 * k, 3)]);
    }
  }

  lemma {:induction false} ReceivedSize(got: seq<nat>, code: seq<nat>, n: nat)
    requires |code| == 19 && Received(got, code, n)
    ensures |got| == 19
  {
  }

  lemma {:induction false} ThreeAreRead(lens: seq<nat>, mem: seq<Byte>, p: nat)
    requires BitsAre(mem, p, ThreeBits(lens)) && forall i :: 0 <= i < |lens| ==> lens[i] <= 7
    ensures p + 3 * |lens| <= 8 * |mem| && forall i :: 0 <= i < |lens| ==> Read(mem, p + 3 * i, 3) == lens[i]
    decreases |lens|
  {
    hide Read, BitAt, NumberBits;
    if lens != [] {
      var n := |lens| - 1;
      Split(mem, p, ThreeBits(lens[..n]), NumberBits(lens[n], 3));
      ThreeAreRead(lens[..n], mem, p);
      Powers();
      NumberIsRead(mem, p + 3 * n, lens[n], 3);
    }
  }

  /** The code lengths of a dynamic block as they are written: those of the code for items, and the items. */
  datatype Coded = Coded(code: seq<nat>, nclen: nat, items: seq<Item>) {
    /** The code fits its three bits each, and those that are not transmitted are zero. */
    ghost predicate Valid() {
      && |code| == 19 && Kraft(code) && 4 <= nclen <= 19 && ValidItems(items, code, true)
      && (forall s :: 0 <= s < 19 ==> code[s] <= 7)
      && (forall k :: nclen <= k < 19 ==> Ordered(code)[k] == 0)
    }
  }

  /** The coded items stand for the lengths of these two codes. */
  ghost predicate Describes(c: Coded, lit: seq<nat>, dist: seq<nat>) {
    && c.Valid() && Lengths(c.items, [], c.code) == lit + dist
    && Kraft(lit) && Kraft(dist) && 257 <= |lit| <= 286 && 1 <= |dist| <= 32
  }

  lemma {:induction false} ValidParts(c: Coded)
    requires c.Valid()
    ensures |c.code| == 19 && Kraft(c.code) && 4 <= c.nclen <= 19
    ensures ValidItems(c.items, c.code, true) && ValidItems(c.items, c.code, false)
    ensures forall k :: 0 <= k < 19 ==> Ordered(c.code)[k] <= 7
  {
    hide Kraft, ValidItems;
    WeakerItems(c.items, c.code, true);
  }

  /** What follows the three counts. */
  ghost function LengthsBits(c: Coded): seq<nat>
    requires c.Valid()
  {
    hide Kraft, ValidItems;
    ValidParts(c);
    ThreeBits(Ordered(c.code)[..c.nclen]) + ItemBits(c.items, c.code)
  }

  /** The lengths that were sent, however many of those of the code for items have been left out. */
  lemma {:induction false} AllReceived(c: Coded, mem: seq<Byte>, p: nat)
    requires c.Valid() && BitsAre(mem, p, LengthsBits(c))
    ensures p + 3 * c.nclen <= 8 * |mem| && LengthCode(mem, p, 0, c.nclen, Repeat(0, 19)) == c.code
  {
    hide Kraft, ValidItems, Ordered, Read, BitsAre, LengthCode, ItemBits;
    ValidParts(c);
    var sent := Ordered(c.code)[..c.nclen];
    Split(mem, p, ThreeBits(sent), ItemBits(c.items, c.code));
    ThreeAreRead(sent, mem, p);
    var got := LengthCode(mem, p, 0, c.nclen, Repeat(0, 19));
    LengthCodeIsRead(c.code, mem, p, 0, c.nclen, Repeat(0, 19));
    forall s | 0 <= s < 19
      ensures got[s] == c.code[s]
    {
      OrderOf(s);
      PlaceOf(c.code, PLACE[s]);
    }
  }

  lemma {:induction false} LengthsAreRead(c: Coded, lit: seq<nat>, dist: seq<nat>, mem: seq<Byte>, lim: nat, p: nat)
    requires lim <= |mem| && Describes(c, lit, dist)
    requires BitsAre(mem, p, LengthsBits(c)) && p + |LengthsBits(c)| <= 8 * lim
    ensures CodedLengths(mem, lim, p, |lit|, |dist|, c.nclen) == Some(Header(lit, dist, p + |LengthsBits(c)|))
  {
    hide Kraft, ValidItems, Ordered, Read, BitsAre, LengthCode, ItemBits, CodeLengths, Lengths, Repeat;
    ValidParts(c);
    AllReceived(c, mem, p);
    Split(mem, p, ThreeBits(Ordered(c.code)[..c.nclen]), ItemBits(c.items, c.code));
    ItemsAreRead(c.items, c.code, mem, lim, p + 3 * c.nclen, []);
    var all := lit + dist;
    assert all[..|lit|] == lit && all[|lit|..] == dist;
  }

  function CountBits(nlit: nat, ndist: nat, nclen: nat): (r: seq<nat>)
    requires 257 <= nlit && 1 <= ndist && 4 <= nclen
    ensures |r| == 14
  {
    NumberBits(nlit - 257, 5) + NumberBits(ndist - 1, 5) + NumberBits(nclen - 4, 4)
  }

  lemma {:induction false} CountsAreRead(nlit: nat, ndist: nat, nclen: nat, mem: seq<Byte>, lim: nat, p: nat)
    requires 257 <= nlit <= 286 && 1 <= ndist <= 32 && 4 <= nclen <= 19
    requires lim <= |mem| && BitsAre(mem, p, CountBits(nlit, ndist, nclen)) && p + 14 <= 8 * lim
    ensures DynamicHeader(mem, lim, p) == CodedLengths(mem, lim, p + 14, nlit, ndist, nclen)
  {
    hide BitsAre, NumberBits, Number, CodedLengths;
    Powers();
    var a, b, c := NumberBits(nlit - 257, 5), NumberBits(ndist - 1, 5), NumberBits(nclen - 4, 4);
    Split(mem, p, a + b, c);
    Split(mem, p, a, b);
    NumberAt(mem, lim, p, nlit - 257, 5);
    NumberAt(mem, lim, p + 5, ndist - 1, 5);
    NumberAt(mem, lim, p + 10, nclen - 4, 4);
  }

  /** The header of a dynamic block, after the three bits of a block header. */
  ghost function HeaderBits(c: Coded, lit: seq<nat>, dist: seq<nat>): seq<nat>
    requires Describes(c, lit, dist)
  {
    hide Kraft, ValidItems;
    CountBits(|lit|, |dist|, c.nclen) + LengthsBits(c)
  }

  /** The header of a dynamic block is decoded to the code lengths that were written. */
  lemma {:induction false} HeaderIsRead(c: Coded, lit: seq<nat>, dist: seq<nat>, mem: seq<Byte>, lim: nat, p: nat)
    requires lim <= |mem| && Describes(c, lit, dist)
    requires BitsAre(mem, p, HeaderBits(c, lit, dist)) && p + |HeaderBits(c, lit, dist)| <= 8 * lim
    ensures DynamicHeader(mem, lim, p) == Some(Header(lit, dist, p + |HeaderBits(c, lit, dist)|))
  {
    hide BitsAre, CodedLengths, LengthsBits, CountBits, Kraft, DynamicHeader, ValidItems;
    Split(mem, p, CountBits(|lit|, |dist|, c.nclen), LengthsBits(c));
    CountsAreRead(|lit|, |dist|, c.nclen, mem, lim, p);
    LengthsAreRead(c, lit, dist, mem, lim, p + 14);
  }

  // ----- Section 3.2.5: literals and matches -----

  lemma {:induction false} FirstEntries()
    ensures LengthEntry(257).0 == 3 && DistanceEntry(0).0 == 1
  {
  }

  /** The last length symbol from 257 to s whose base is not above len. */
  function LengthSymbol(len: nat, s: nat): (r: nat)
    requires 3 <= len && 257 <= s <= 285
    ensures 257 <= r <= s
  {
    FirstEntries();
    if LengthEntry(s).0 <= len then s else LengthSymbol(len, s - 1)
  }

  function DistanceSymbol(dist: nat, d: nat): (r: nat)
    requires 1 <= dist && d <= 29
    ensures r <= d
  {
    FirstEntries();
    if DistanceEntry(d).0 <= dist then d else DistanceSymbol(dist, d - 1)
  }

  lemma {:induction false} LengthSymbolIsLast(len: nat, s: nat)
    requires 3 <= len && 257 <= s <= 285
    ensures var r := LengthSymbol(len, s); LengthEntry(r).0 <= len && (r < s ==> len < LengthEntry(r + 1).0)
  {
    hide LengthEntry;
    FirstEntries();
    if LengthEntry(s).0 > len { LengthSymbolIsLast(len, s - 1); }
  }

  lemma {:induction false} DistanceSymbolIsLast(dist: nat, d: nat)
    requires 1 <= dist && d <= 29
    ensures var r := DistanceSymbol(dist, d); DistanceEntry(r).0 <= dist && (r < d ==> dist < DistanceEntry(r + 1).0)
  {
    hide DistanceEntry;
    FirstEntries();
    if DistanceEntry(d).0 > dist { DistanceSymbolIsLast(dist, d - 1); }
  }

  /** The lengths of one symbol end where those of the next begin. */
  lemma {:induction false} NextLength(s: nat)
    requires 257 <= s < 285
    ensures LengthEntry(s + 1).0 <= LengthEntry(s).0 + Pow2(LengthEntry(s).1)
  {
    hide Pow2;
    Powers();
  }

  lemma {:induction false} NextDistance(d: nat)
    requires d < 29
    ensures DistanceEntry(d + 1).0 <= DistanceEntry(d).0 + Pow2(DistanceEntry(d).1)
  {
    hide Pow2;
    Powers();
  }

  /** A byte, or a copy of len bytes from dist bytes back. */
  datatype Token = Literal(b: Byte) | Copy(len: nat, dist: nat) {
    /** The symbols that the token needs have codes. */
    predicate Writable(lit: seq<nat>, dist: seq<nat>) {
      match this
      case Literal(b) => b < |lit| && lit[b] > 0
      case Copy(n, m) =>
        && 3 <= n <= 258 && 1 <= m <= 0x8000
        && LengthSymbol(n, 285) < |lit| && lit[LengthSymbol(n, 285)] > 0
        && DistanceSymbol(m, 29) < |dist| && dist[DistanceSymbol(m, 29)] > 0
    }

    function Bits(lit: seq<nat>, dist: seq<nat>): seq<nat>
      requires Writable(lit, dist)
    {
      match this
      case Literal(b) => SymbolBits(lit, b)
      case Copy(n, m) => LengthBits(n, lit) + DistanceBits(m, dist)
    }

    function Size(): (n: nat)
      ensures Copy? || n == 1
    {
      if Literal? then 1 else len
    }

    /** The output with what the token stands for. */
    function Apply(out: seq<Byte>): (r: seq<Byte>)
      requires Copy? ==> 1 <= dist <= |out|
      ensures |r| == |out| + Size()
    {
      if Literal? then out + [b] else LzCopy(out, dist, len)
    }
  }

  function LengthBits(len: nat, lit: seq<nat>): seq<nat>
    requires 3 <= len <= 258 && LengthSymbol(len, 285) < |lit|
  {
    LengthSymbolIsLast(len, 285);
    var s := LengthSymbol(len, 285);
    SymbolBits(lit, s) + NumberBits(len - LengthEntry(s).0, LengthEntry(s).1)
  }

  function DistanceBits(m: nat, dist: seq<nat>): seq<nat>
    requires 1 <= m && DistanceSymbol(m, 29) < |dist|
  {
    DistanceSymbolIsLast(m, 29);
    var d := DistanceSymbol(m, 29);
    SymbolBits(dist, d) + NumberBits(m - DistanceEntry(d).0, DistanceEntry(d).1)
  }

  /** The extra bits are enough for every length and distance. */
  lemma {:induction false} LengthFits(len: nat)
    requires 3 <= len <= 258
    ensures var s := LengthSymbol(len, 285); 0 <= len - LengthEntry(s).0 < Pow2(LengthEntry(s).1)
  {
    hide LengthEntry, LengthSymbol, Pow2;
    LengthSymbolIsLast(len, 285);
    var s := LengthSymbol(len, 285);
    if s < 285 { NextLength(s); } else { LastEntries(); }
  }

  lemma {:induction false} DistanceFits(m: nat)
    requires 1 <= m <= 0x8000
    ensures var d := DistanceSymbol(m, 29); 0 <= m - DistanceEntry(d).0 < Pow2(DistanceEntry(d).1)
  {
    hide DistanceEntry, DistanceSymbol, Pow2;
    DistanceSymbolIsLast(m, 29);
    var d := DistanceSymbol(m, 29);
    if d < 29 { NextDistance(d); } else { LastEntries(); }
  }

  lemma {:induction false} LastEntries()
    ensures LengthEntry(285) == (258, 0) && DistanceEntry(29) == (24577, 13) && Pow2(0) == 1 && Pow2(13) == 8192
  {
    Powers();
  }

  lemma {:induction false} LengthIsDecoded(len: nat, mem: seq<Byte>, lim: nat, p: nat)
    requires 3 <= len <= 258 && lim <= |mem|
    requires LengthEntry(LengthSymbol(len, 285)).0 <= len
    requires var (b, n) := LengthEntry(LengthSymbol(len, 285));
             BitsAre(mem, p, NumberBits(len - b, n)) && p + n <= 8 * lim
    ensures Length(LengthSymbol(len, 285), mem, lim, p) == Some((len, p + LengthEntry(LengthSymbol(len, 285)).1))
  {
    hide LengthEntry, LengthSymbol, Pow2, NumberBits, BitsAre, Number;
    LengthFits(len);
    var (b, n) := LengthEntry(LengthSymbol(len, 285));
    NumberAt(mem, lim, p, len - b, n);
  }

  lemma {:induction false} DistanceIsDecoded(m: nat, dist: seq<nat>, mem: seq<Byte>, lim: nat, p: nat)
    requires 1 <= m <= 0x8000 && lim <= |mem| && Kraft(dist)
    requires DistanceSymbol(m, 29) < |dist| && dist[DistanceSymbol(m, 29)] > 0
    requires BitsAre(mem, p, DistanceBits(m, dist)) && p + |DistanceBits(m, dist)| <= 8 * lim
    ensures Distance(dist, mem, lim, p) == Some((m, p + |DistanceBits(m, dist)|))
  {
    hide DistanceEntry, DistanceSymbol, Pow2, NumberBits, BitsAre, Number, Symbol, SymbolBits, Kraft;
    DistanceFits(m);
    var d := DistanceSymbol(m, 29);
    var (b, n) := DistanceEntry(d);
    Split(mem, p, SymbolBits(dist, d), NumberBits(m - b, n));
    SymbolIsRead(dist, mem, lim, p, d);
    NumberAt(mem, lim, p + dist[d], m - b, n);
  }

  /** A match is decoded as it was written. */
  lemma {:induction false} CopyIsRead(t: Token, lit: seq<nat>, dist: seq<nat>, mem: seq<Byte>, lim: nat, p: nat)
    requires lim <= |mem| && Kraft(lit) && Kraft(dist) && t.Copy? && t.Writable(lit, dist)
    requires BitsAre(mem, p, t.Bits(lit, dist)) && p + |t.Bits(lit, dist)| <= 8 * lim
    ensures var s := LengthSymbol(t.len, 285);
            && Symbol(lit, mem, lim, p) == Some(s)
            && BackReference(s, dist, mem, lim, p + lit[s]) == Some(Match(t.len, t.dist, p + |t.Bits(lit, dist)|))
  {
    hide LengthEntry, LengthSymbol, NumberBits, BitsAre, Symbol, SymbolBits, Kraft, Length, Distance, DistanceBits;
    LengthFits(t.len);
    var s := LengthSymbol(t.len, 285);
    var (b, n) := LengthEntry(s);
    Split(mem, p, LengthBits(t.len, lit), DistanceBits(t.dist, dist));
    Split(mem, p, SymbolBits(lit, s), NumberBits(t.len - b, n));
    SymbolIsRead(lit, mem, lim, p, s);
    LengthIsDecoded(t.len, mem, lim, p + lit[s]);
    DistanceIsDecoded(t.dist, dist, mem, lim, p + lit[s] + n);
  }

  /** The tokens can be written, and no copy reaches back before the first of n bytes of output. */
  predicate ValidTokens(ts: seq<Token>, lit: seq<nat>, dist: seq<nat>, n: nat)
    decreases |ts|
  {
    ts != [] ==>
      && ts[0].Writable(lit, dist) && (ts[0].Copy? ==> 1 <= ts[0].dist <= n)
      && ValidTokens(ts[1..], lit, dist, n + ts[0].Size())
  }

  /** The output after the tokens. */
  function Plain(ts: seq<Token>, lit: seq<nat>, dist: seq<nat>, out: seq<Byte>): seq<Byte>
    requires ValidTokens(ts, lit, dist, |out|)
    decreases |ts|
  {
    if ts == [] then out else Plain(ts[1..], lit, dist, ts[0].Apply(out))
  }

  /** The tokens and the end-of-block symbol. */
  function TokenBits(ts: seq<Token>, lit: seq<nat>, dist: seq<nat>, n: nat): seq<nat>
    requires ValidTokens(ts, lit, dist, n) && |lit| > 256
    decreases |ts|
  {
    if ts == [] then SymbolBits(lit, 256) else ts[0].Bits(lit, dist) + TokenBits(ts[1..], lit, dist, n + ts[0].Size())
  }

  /** The symbols of a block are decoded to what its tokens stand for. */
  lemma {:induction false} TokensAreRead(ts: seq<Token>, lit: seq<nat>, dist: seq<nat>, mem: seq<Byte>, lim: nat,
                                         p: nat, out: seq<Byte>)
    requires lim <= |mem| && Kraft(lit) && Kraft(dist) && |lit| > 256 && lit[256] > 0
    requires ValidTokens(ts, lit, dist, |out|)
    requires BitsAre(mem, p, TokenBits(ts, lit, dist, |out|)) && p + |TokenBits(ts, lit, dist, |out|)| <= 8 * lim
    ensures Codes(lit, dist, mem, lim, p, out)
            == Some(Progress(p + |TokenBits(ts, lit, dist, |out|)|, Plain(ts, lit, dist, out)))
    decreases |ts|
  {
    hide Token.Bits, Token.Writable, LzCopy, BitsAre, Symbol, SymbolBits, Kraft, BackReference, Codes;
    if ts == [] {
      SymbolIsRead(lit, mem, lim, p, 256);
      LastSymbol(lit, dist, mem, lim, p, out);
    } else {
      var t := ts[0];
      Split(mem, p, t.Bits(lit, dist), TokenBits(ts[1..], lit, dist, |out| + t.Size()));
      TokensAreRead(ts[1..], lit, dist, mem, lim, p + |t.Bits(lit, dist)|, t.Apply(out));
      TokenIsRead(t, lit, dist, mem, lim, p, out);
    }
  }

  lemma {:induction false} LastSymbol(lit: seq<nat>, dist: seq<nat>, mem: seq<Byte>, lim: nat, p: nat, out: seq<Byte>)
    requires lim <= |mem| && Symbol(lit, mem, lim, p) == Some(256)
    ensures Codes(lit, dist, mem, lim, p, out) == Some(Progress(p + lit[256], out))
  {
    hide Symbol, BackReference, LzCopy;
  }

  lemma {:induction false} LiteralFirst(lit: seq<nat>, dist: seq<nat>, mem: seq<Byte>, lim: nat, p: nat, out: seq<Byte>,
                                         b: Byte)
    requires lim <= |mem| && Symbol(lit, mem, lim, p) == Some(b)
    ensures Codes(lit, dist, mem, lim, p, out) == Codes(lit, dist, mem, lim, p + lit[b], out + [b])
  {
    hide Symbol, BackReference, LzCopy;
  }

  lemma {:induction false} CopyFirst(lit: seq<nat>, dist: seq<nat>, mem: seq<Byte>, lim: nat, p: nat, out: seq<Byte>,
                                      s: nat)
    requires lim <= |mem| && Symbol(lit, mem, lim, p) == Some(s) && s > 256
    requires var m := BackReference(s, dist, mem, lim, p + lit[s]); m.Some? && m.value.dist <= |out|
    ensures var m := BackReference(s, dist, mem, lim, p + lit[s]).value;
            Codes(lit, dist, mem, lim, p, out) == Codes(lit, dist, mem, lim, m.p, LzCopy(out, m.dist, m.len))
  {
    hide Symbol, BackReference, LzCopy;
  }

  lemma {:induction false} TokenIsRead(t: Token, lit: seq<nat>, dist: seq<nat>, mem: seq<Byte>, lim: nat, p: nat,
                                       out: seq<Byte>)
    requires lim <= |mem| && Kraft(lit) && Kraft(dist) && t.Writable(lit, dist)
    requires t.Copy? ==> 1 <= t.dist <= |out|
    requires BitsAre(mem, p, t.Bits(lit, dist)) && p + |t.Bits(lit, dist)| <= 8 * lim
    ensures Codes(lit, dist, mem, lim, p, out) == Codes(lit, dist, mem, lim, p + |t.Bits(lit, dist)|, t.Apply(out))
  {
    hide LzCopy, BitsAre, Symbol, SymbolBits, Kraft, BackReference, LengthBits, DistanceBits, Codes, LengthSymbol;
    hide DistanceSymbol;
    if t.Copy? {
      CopyIsRead(t, lit, dist, mem, lim, p);
      CopyFirst(lit, dist, mem, lim, p, out, LengthSymbol(t.len, 285));
    } else {
      SymbolIsRead(lit, mem, lim, p, t.b);
      LiteralFirst(lit, dist, mem, lim, p, out, t.b);
    }
  }
}

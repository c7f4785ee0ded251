/** What the operations that create_patches writes do to a child of a document, or below one. */
module JsonEdit {
  import opened JsonTree
  import opened JsonPointer
  import opened JsonSort
  import opened JsonCompare
  import opened JsonPatch
  import opened JsonDiff
  import opened Options

  // ----- Operations below a child -----

  /** The operations that create_patches writes, on paths below the root. */
  predicate Inner(p: Patch) {
    && p.from.None? && (p.operation.Add? || p.operation.Remove? || p.operation.Replace?)
    && p.path != "" && p.path[0] == '/'
  }

  predicate AllInner(patches: seq<Patch>) { forall i :: 0 <= i < |patches| ==> Inner(patches[i]) }

  /** A child that its token selects. */
  predicate Selects(doc: Json, i: nat) {
    && i < |Children(doc)|
    && (doc.Object? ==> DistinctKeys(doc.members))
    && (doc.Array? ==> |doc.items| < SIZE_MAX_PLUS_1)
  }

  lemma {:induction false} LastSlashBelow(p: string, q: string)
    requires q != "" && q[0] == '/'
    ensures LastSlash(q) >= 0 && LastSlash(p + q) == |p| + LastSlash(q)
    decreases |q|
  {
    var s := p + q;
    assert s[|s| - 1] == q[|q| - 1];
    if q[|q| - 1] != '/' {
      assert s[..|s| - 1] == p + q[..|q| - 1];
      LastSlashBelow(p, q[..|q| - 1]);
    }
  }

  /** Below a child, a path leads where the rest of the path leads from the child. */
  lemma {:induction false} LocateBelow(doc: Json, i: nat, rest: string)
    requires i < |Children(doc)| && Selects(doc, i) && Tail(rest)
    ensures var below := Locate(Children(doc)[i], rest, true);
            Locate(doc, "/" + TokenOf(doc, i) + rest, true)
            == if below.None? then None else Some([i] + below.value)
  {
    hide FindChild, SkipToken, TokenOf, Children;
    var pointer := "/" + TokenOf(doc, i) + rest;
    assert pointer[1..] == TokenOf(doc, i) + rest;
    TokenFindsChild(doc, i, rest);
  }

  lemma {:induction false} SplitBelow(doc: Json, i: nat, rest: string)
    requires i < |Children(doc)| && Selects(doc, i) && rest != "" && rest[0] == '/'
    ensures var below := Split(Children(doc)[i], rest, true);
            Split(doc, "/" + TokenOf(doc, i) + rest, true)
            == if below.None? then None else Some(([i] + below.value.0, below.value.1))
  {
    hide Locate, TokenOf, Children, LastSlash, DecodeInPlace;
    var p := "/" + TokenOf(doc, i);
    var slash := LastSlash(rest);
    LastSlashBelow(p, rest);
    assert (p + rest)[..|p| + slash] == p + rest[..slash];
    assert (p + rest)[|p| + slash + 1..] == rest[slash + 1..];
    LocateBelow(doc, i, rest[..slash]);
  }

  /** What an operation on a child makes of the whole. */
  function Lift(doc: Json, i: nat, r: (nat, Json)): (nat, Json)
    requires i < |Children(doc)|
  {
    (r.0, WithChild(doc, i, r.1))
  }

  lemma {:induction false} DetachBelow(doc: Json, i: nat, rest: string)
    requires i < |Children(doc)| && Selects(doc, i) && rest != "" && rest[0] == '/'
    ensures var below := DetachPath(Children(doc)[i], rest, true);
            DetachPath(doc, "/" + TokenOf(doc, i) + rest, true)
            == if below.None? then None else Some((below.value.0, WithChild(doc, i, below.value.1)))
  {
    hide Split, TokenOf, DetachChild, Children, WithChild, Selects;
    SplitBelow(doc, i, rest);
    var below := Split(Children(doc)[i], rest, true);
    if below.Some? { PutBelow(doc, i, below.value.0); }
  }

  lemma {:induction false} AddBelow(doc: Json, i: nat, rest: string, value: Json)
    requires i < |Children(doc)| && Selects(doc, i) && rest != "" && rest[0] == '/'
    ensures AddPath(doc, "/" + TokenOf(doc, i) + rest, value, true)
            == Lift(doc, i, AddPath(Children(doc)[i], rest, value, true))
  {
    hide Split, TokenOf, AddChild, Children, WithChild, Selects;
    SplitBelow(doc, i, rest);
    var below := Split(Children(doc)[i], rest, true);
    if below.Some? {
      PutBelow(doc, i, below.value.0);
    } else {
      SameChild(doc, i);
    }
  }

  lemma {:induction false} SameChild(doc: Json, i: nat)
    requires i < |Children(doc)|
    ensures WithChild(doc, i, Children(doc)[i]) == doc
  {
  }

  lemma {:induction false} PutBelow(doc: Json, i: nat, pos: Position)
    requires i < |Children(doc)| && IsNode(Children(doc)[i], pos)
    ensures IsNode(doc, [i] + pos) && NodeAt(doc, [i] + pos) == NodeAt(Children(doc)[i], pos)
    ensures forall node :: Put(doc, [i] + pos, node) == WithChild(doc, i, Put(Children(doc)[i], pos, node))
  {
    hide Children, WithChild;
    assert ([i] + pos)[1..] == pos;
  }

  /** Replacing a child keeps the selection of children. */
  lemma {:induction false} StillSelects(doc: Json, i: nat, child: Json)
    requires i < |Children(doc)| && Selects(doc, i)
    ensures var d := WithChild(doc, i, child);
            i < |Children(d)| && Selects(d, i) && Children(d)[i] == child && TokenOf(d, i) == TokenOf(doc, i) &&
            SameType(d, doc)
    ensures forall again :: WithChild(WithChild(doc, i, child), i, again) == WithChild(doc, i, again)
  {
    hide Escape, Decimal;
  }

  lemma {:induction false} ApplyBelow(doc: Json, i: nat, p: Patch)
    requires i < |Children(doc)| && Selects(doc, i) && Inner(p)
    ensures Apply(doc, p.(path := "/" + TokenOf(doc, i) + p.path), true)
            == Lift(doc, i, Apply(Children(doc)[i], p, true))
  {
    hide AddPath, DetachPath, TokenOf, Children, WithChild, Selects;
    var child := Children(doc)[i];
    SameChild(doc, i);
    if p.operation.Add? {
      if p.value.Some? { AddBelow(doc, i, p.path, p.value.value); }
    } else {
      DetachBelow(doc, i, p.path);
      var below := DetachPath(child, p.path, true);
      if p.operation.Replace? && below.Some? && p.value.Some? {
        StillSelects(doc, i, below.value.1);
        AddBelow(WithChild(doc, i, below.value.1), i, p.path, p.value.value);
      }
    }
  }

  /** Operations below a child act on the child alone. */
  lemma {:induction false} ApplyAllBelow(doc: Json, i: nat, patches: seq<Patch>)
    requires i < |Children(doc)| && Selects(doc, i) && AllInner(patches)
    ensures ApplyAll(doc, Prefixed("/" + TokenOf(doc, i), patches), true)
            == Lift(doc, i, ApplyAll(Children(doc)[i], patches, true))
    decreases |patches|
  {
    hide Apply, TokenOf, Children, WithChild, Inner, Selects;
    if patches == [] {
      SameChild(doc, i);
    } else {
      var p := "/" + TokenOf(doc, i);
      ApplyBelow(doc, i, patches[0]);
      assert Prefixed(p, patches)[1..] == Prefixed(p, patches[1..]);
      var r := Apply(Children(doc)[i], patches[0], true);
      if r.0 == 0 {
        StillSelects(doc, i, r.1);
        ApplyAllBelow(WithChild(doc, i, r.1), i, patches[1..]);
      }
    }
  }

  // ----- Operations on a child -----

  predicate NoSlash(s: string) { forall i :: 0 <= i < |s| ==> s[i] != '/' }

  lemma {:induction false} EscapeNoSlash(s: string)
    ensures NoSlash(Escape(s))
  {
    if s != "" { EscapeNoSlash(s[1..]); }
  }

  lemma {:induction false} LastSlashNone(s: string)
    requires NoSlash(s)
    ensures LastSlash("/" + s) == 0
    decreases |s|
  {
    var p := "/" + s;
    if s == "" {
      assert p[..|p| - 1] == "";
    } else {
      assert p[..|p| - 1] == "/" + s[..|s| - 1];
      LastSlashNone(s[..|s| - 1]);
    }
  }

  lemma {:induction false} SplitHere(doc: Json, token: string)
    requires NoSlash(token)
    ensures Split(doc, "/" + token, true) == Some(([], DecodeInPlace(token)))
  {
    hide LastSlash, DecodeInPlace;
    LastSlashNone(token);
    assert ("/" + token)[..0] == "" && ("/" + token)[1..] == token;
  }

  lemma {:induction false} DecodeNothing(buffer: string, i: nat)
    requires i <= |buffer| && forall k :: i <= k < |buffer| ==> buffer[k] != '~'
    ensures DecodeFrom(buffer, i, i) == buffer
    decreases |buffer| - i
  {
    if i < |buffer| { DecodeNothing(buffer, i + 1); }
  }

  /** A plain token is its own name. */
  lemma {:induction false} PlainToken(doc: Json, token: string)
    requires Plain(token)
    ensures Escape(token) == token && Split(doc, "/" + token, true) == Some(([], token))
  {
    hide DecodeFrom, Split;
    EscapePlain(token);
    SplitHere(doc, token);
    DecodeNothing(token, 0);
  }

  lemma {:induction false} RemoveHere(doc: Json, token: string)
    requires NoSlash(token)
    ensures var detached := DetachChild(doc, DecodeInPlace(token));
            Apply(doc, RemoveAt("/" + token), true) == if detached.None? then (13, doc) else (0, detached.value.1)
  {
    hide Split, DetachChild, DecodeInPlace;
    SplitHere(doc, token);
  }

  lemma {:induction false} AddHere(doc: Json, token: string, value: Json)
    requires NoSlash(token)
    ensures Apply(doc, AddAt("/" + token, value), true) == AddChild(doc, DecodeInPlace(token), value, true)
  {
    hide Split, AddChild, DecodeInPlace;
    SplitHere(doc, token);
  }

  lemma {:induction false} ReplaceHere(doc: Json, token: string, value: Json)
    requires NoSlash(token)
    ensures var detached := DetachChild(doc, DecodeInPlace(token));
            Apply(doc, ReplaceBy("/" + token, value), true)
            == if detached.None? then (13, doc) else AddChild(detached.value.1, DecodeInPlace(token), value, true)
  {
    hide Split, DetachChild, AddChild, DecodeInPlace;
    SplitHere(doc, token);
    var detached := DetachChild(doc, DecodeInPlace(token));
    if detached.Some? { SplitHere(detached.value.1, token); }
  }

  // ----- Elements of arrays -----

  lemma {:induction false} DecimalToken(doc: Json, n: nat)
    requires n < SIZE_MAX_PLUS_1
    ensures var token := Decimal(n);
            NoSlash(token) && Escape(token) == token && DecodeInPlace(token) == token &&
            DecodeIndex(token) == Some(n) && token != "-"
  {
    hide DecodeFrom, Decimal, DecodeIndex;
    var token := Decimal(n);
    DecimalIsPlain(n);
    EscapePlain(token);
    DecodeNothing(token, 0);
    DecodesDecimal(n, "");
    DecimalHead(n);
    assert token + "" == token;
  }

  lemma {:induction false} RemoveItem(items: seq<Json>, n: nat)
    requires n < |items| && n < SIZE_MAX_PLUS_1
    ensures Apply(Array(items), RemoveAt("" + "/" + Escape(Decimal(n))), true) == (0, Array(Without(items, n)))
  {
    hide Apply, Decimal, Escape, DecodeIndex, DecodeInPlace;
    DecimalToken(Array(items), n);
    RemoveHere(Array(items), Decimal(n));
    assert "" + "/" + Decimal(n) == "/" + Decimal(n);
  }

  lemma {:induction false} ReplaceItem(items: seq<Json>, n: nat, value: Json)
    requires n < |items| && n < SIZE_MAX_PLUS_1
    ensures Apply(Array(items), ReplaceBy("/" + Decimal(n), value), true) == (0, Array(items[n := value]))
  {
    hide Apply, Decimal, Escape, DecodeIndex, DecodeInPlace;
    DecimalToken(Array(items), n);
    ReplaceHere(Array(items), Decimal(n), value);
    var rest := Without(items, n);
    assert rest[..n] + [value] + rest[n..] == items[n := value];
  }

  lemma {:induction false} AppendItem(items: seq<Json>, value: Json)
    ensures Apply(Array(items), AddAt("" + "/" + Escape("-"), value), true) == (0, Array(items + [value]))
  {
    hide Apply, Escape, DecodeIndex, DecodeFrom;
    EscapePlain("-");
    DecodeNothing("-", 0);
    AddHere(Array(items), "-", value);
    assert "" + "/" + "-" == "/" + "-";
  }

  // ----- Keys in paths -----

  /**
   * Escaping a key and decoding it in place gives the key back: the decoder, which moves what follows an escape but
   * does not copy it, finds the right character in each place, and there is no `/`.
   */
  predicate Survives(key: string) {
    EscapeLength(key);
    forall i :: 0 <= i < |key| ==> key[i] != '/' && (key[i] == '~' || Escape(key)[i] == key[i])
  }

  /** The same, up to upper and lower case. */
  predicate SurvivesIgnoringCase(key: string) {
    EscapeLength(key);
    forall i :: 0 <= i < |key| ==> key[i] != '/' && (key[i] == '~' || Lower(Escape(key)[i]) == Lower(key[i]))
  }

  lemma {:induction false} EscapeLength(key: string)
    ensures |Escape(key)| >= |key|
  {
    if key != "" { EscapeLength(key[1..]); }
  }

  /** One character of the key. */
  lemma {:induction false} DecodesOne(buffer: string, i: nat, j: nat, rest: string) returns (next: string, n: nat)
    requires j <= i <= |buffer| && buffer[i..] == Escape(rest) && rest != ""
    ensures |next| == |buffer| && i < n <= |next| && DecodeFrom(buffer, i, j) == DecodeFrom(next, n, j + 1)
    ensures next[n..] == Escape(rest[1..]) && next[..j] == buffer[..j]
    ensures next[j] == if rest[0] == '~' then '~' else buffer[j]
    ensures rest[0] != '/' ==> next[j + 1..] == buffer[j + 1..]
  {
    EscapeHead(rest, "");
    assert Escape(rest) + "" == Escape(rest) && Escape(rest[1..]) + "" == Escape(rest[1..]);
    assert buffer[i] == buffer[i..][0];
    if rest[0] == '/' {
      assert buffer[i + 1] == buffer[i..][1];
      next, n := buffer[j + 1 := '/'], i + 2;
      assert next[n..] == buffer[i..][2..];
    } else if rest[0] == '~' {
      assert buffer[i + 1] == buffer[i..][1];
      next, n := buffer[j := '~'], i + 2;
      assert next[n..] == buffer[i..][2..];
    } else {
      next, n := buffer, i + 1;
      assert next[n..] == buffer[i..][1..];
    }
  }

  /** What decode_pointer_inplace makes of an escaped key of which rest is left, up to the first `/`. */
  lemma {:induction false} DecodesRest(buffer: string, i: nat, j: nat, rest: string)
    requires j <= i <= |buffer| && buffer[i..] == Escape(rest)
    ensures var r := DecodeFrom(buffer, i, j);
            && |r| == j + |rest| <= |buffer| && r[..j] == buffer[..j]
            && forall k :: 0 <= k < |rest| && NoSlash(rest[..k]) ==>
                 r[j + k] == if rest[k] == '~' then '~' else buffer[j + k]
    decreases |rest|
  {
    if rest != "" {
      hide Escape, DecodeFrom;
      var next, n := DecodesOne(buffer, i, j, rest);
      DecodesRest(next, n, j + 1, rest[1..]);
      var r := DecodeFrom(buffer, i, j);
      assert r[..j] == r[..j + 1][..j] == next[..j + 1][..j];
      forall k | 0 <= k < |rest| && NoSlash(rest[..k])
        ensures r[j + k] == if rest[k] == '~' then '~' else buffer[j + k]
      {
        if k == 0 {
          assert r[j] == r[..j + 1][j];
        } else {
          assert rest[..k][0] == rest[0];
          assert rest[1..][..k - 1] == rest[..k][1..];
          assert next[j + k] == next[j + 1..][k - 1] && buffer[j + k] == buffer[j + 1..][k - 1];
        }
      }
    }
  }

  lemma {:induction false} DecodesEscaped(key: string)
    ensures |DecodeInPlace(Escape(key))| == |key| <= |Escape(key)|
    ensures forall k :: 0 <= k < |key| && NoSlash(key[..k]) ==>
              DecodeInPlace(Escape(key))[k] == if key[k] == '~' then '~' else Escape(key)[k]
  {
    hide Escape, DecodeFrom;
    assert Escape(key)[0..] == Escape(key);
    DecodesRest(Escape(key), 0, 0, key);
    EscapeLength(key);
  }

  /** Where the first `/` is. */
  lemma {:induction false} FirstSlash(key: string) returns (f: nat)
    requires !NoSlash(key)
    ensures f < |key| && key[f] == '/' && NoSlash(key[..f])
  {
    f := 0;
    while key[f] != '/'
      invariant f < |key| && NoSlash(key[..f]) && exists k :: f <= k < |key| && key[k] == '/'
      decreases |key| - f
    {
      f := f + 1;
    }
  }

  lemma {:induction false} BeforeNoSlash(key: string, k: nat)
    requires NoSlash(key) && k <= |key|
    ensures NoSlash(key[..k])
  {
  }

  /** A key comes back from a path exactly if it survives; one with a `/` never does. */
  lemma {:induction false} SurvivesIff(key: string)
    ensures DecodeInPlace(Escape(key)) == key <==> Survives(key)
    ensures !NoSlash(key) ==> DecodeInPlace(Escape(key)) != key
  {
    hide Escape, DecodeInPlace;
    DecodesEscaped(key);
    EscapeNoSlash(key);
    if NoSlash(key) {
      forall k | 0 <= k < |key|
        ensures DecodeInPlace(Escape(key))[k] == if key[k] == '~' then '~' else Escape(key)[k]
      {
        BeforeNoSlash(key, k);
      }
    } else {
      var f := FirstSlash(key);
      assert DecodeInPlace(Escape(key))[f] == Escape(key)[f];
    }
  }

  lemma {:induction false} LowerAllAt(s: string)
    ensures |LowerAll(s)| == |s| && forall i :: 0 <= i < |s| ==> LowerAll(s)[i] == Lower(s[i])
  {
    if s != "" { LowerAllAt(s[1..]); }
  }

  lemma {:induction false} SameIgnoringCase(a: string, b: string)
    ensures LowerAll(a) == LowerAll(b) <==> |a| == |b| && forall i :: 0 <= i < |a| ==> Lower(a[i]) == Lower(b[i])
  {
    hide LowerAll, Lower;
    LowerAllAt(a);
    LowerAllAt(b);
    if LowerAll(a) == LowerAll(b) {
      forall i | 0 <= i < |a|
        ensures Lower(a[i]) == Lower(b[i])
      {
        assert LowerAll(a)[i] == LowerAll(b)[i];
      }
    }
  }

  lemma {:induction false} SlashIsNoLetter(c: char)
    ensures Lower(c) == '/' <==> c == '/'
  {
  }

  /** A key comes back from a path as the same one, up to case, exactly if it survives up to case. */
  lemma {:induction false} SurvivesIgnoringCaseIff(key: string)
    ensures LowerAll(DecodeInPlace(Escape(key))) == LowerAll(key) <==> SurvivesIgnoringCase(key)
  {
    hide Escape, DecodeInPlace, LowerAll, Lower;
    DecodesEscaped(key);
    EscapeNoSlash(key);
    var name := DecodeInPlace(Escape(key));
    SameIgnoringCase(name, key);
    if NoSlash(key) {
      forall k | 0 <= k < |key|
        ensures name[k] == if key[k] == '~' then '~' else Escape(key)[k]
      {
        BeforeNoSlash(key, k);
      }
    } else {
      var f := FirstSlash(key);
      assert name[f] == Escape(key)[f];
      SlashIsNoLetter(name[f]);
      SlashIsNoLetter(key[f]);
    }
  }

  // ----- Members of objects -----

  /** No earlier member has the same key up to upper and lower case. */
  predicate FirstIgnoringCase(ms: seq<Member>, key: string) {
    forall i :: 0 <= i < IndexOf(ms, key) ==> LowerAll(ms[i].key) != LowerAll(key)
  }

  /** A path with this key leads detach_path, which ignores case, to the member with this key. */
  predicate FindsItself(ms: seq<Member>, key: string) { SurvivesIgnoringCase(key) && FirstIgnoringCase(ms, key) }

  lemma {:induction false} IndexIgnoringCaseMeans(ms: seq<Member>, name: string)
    ensures var i := IndexIgnoringCase(ms, name);
            && (i < |ms| ==> LowerAll(ms[i].key) == LowerAll(name))
            && forall j :: 0 <= j < i ==> LowerAll(ms[j].key) != LowerAll(name)
  {
    hide LowerAll;
    if ms != [] { IndexIgnoringCaseMeans(ms[1..], name); }
  }

  lemma {:induction false} FindsItselfIff(ms: seq<Member>, key: string)
    requires Has(ms, key)
    ensures IndexIgnoringCase(ms, DecodeInPlace(Escape(key))) == IndexOf(ms, key) <==> FindsItself(ms, key)
  {
    hide Escape, DecodeInPlace, LowerAll, IndexIgnoringCase, SurvivesIgnoringCase;
    IndexIgnoringCaseMeans(ms, DecodeInPlace(Escape(key)));
    SurvivesIgnoringCaseIff(key);
  }

  lemma {:induction false} WithoutKey(ms: seq<Member>, key: string, k: string)
    requires DistinctKeys(ms) && Has(ms, key)
    ensures var r := Without(ms, IndexOf(ms, key));
            && DistinctKeys(r)
            && (Has(r, k) <==> Has(ms, k) && k != key)
            && (Has(ms, k) && k != key ==> Value(r, k) == Value(ms, k))
  {
    hide IndexOf, LowerAll;
    var n := IndexOf(ms, key);
    var r := Without(ms, n);
    assert forall i :: 0 <= i < |r| ==> r[i] == if i < n then ms[i] else ms[i + 1];
    HasMeans(ms, k);
    HasMeans(r, k);
    if Has(ms, k) && k != key {
      var i := IndexOf(ms, k);
      var j := if i < n then i else i - 1;
      assert r[j] == ms[i];
      HasAt(r, j);
    }
  }

  lemma {:induction false} PlusKey(ms: seq<Member>, key: string, value: Json, k: string)
    requires DistinctKeys(ms) && !Has(ms, key)
    ensures var r := ms + [Member(key, value)];
            && DistinctKeys(r)
            && (Has(r, k) <==> Has(ms, k) || k == key)
            && (Has(r, k) ==> Value(r, k) == if k == key then value else Value(ms, k))
  {
    hide IndexOf, LowerAll;
    var r := ms + [Member(key, value)];
    HasMeans(ms, k);
    HasMeans(r, k);
    HasMeans(ms, key);
    HasAt(r, |ms|);
    if Has(ms, k) {
      var i := IndexOf(ms, k);
      assert r[i] == ms[i];
      HasAt(r, i);
    }
  }

  // ----- Where the keys matter -----

  /** Keys without `~` and `/` survive. */
  lemma {:induction false} PlainKeySurvives(key: string)
    requires Plain(key)
    ensures Survives(key) && SurvivesIgnoringCase(key)
  {
    hide Escape;
    EscapePlain(key);
    EscapeLength(key);
  }

  /** `remove` removes the member it names exactly if its path finds it; otherwise it removes another, or fails. */
  lemma {:induction false} RemovesItselfIff(ms: seq<Member>, key: string)
    requires DistinctKeys(ms) && Has(ms, key)
    ensures Apply(Object(ms), RemoveAt("/" + Escape(key)), true) == (0, Object(Without(ms, IndexOf(ms, key))))
            <==> FindsItself(ms, key)
  {
    hide Apply, Escape, DecodeInPlace, IndexOf, IndexIgnoringCase, FindsItself;
    EscapeNoSlash(key);
    RemoveHere(Object(ms), Escape(key));
    FindsItselfIff(ms, key);
    var n := IndexOf(ms, key);
    var i := IndexIgnoringCase(ms, DecodeInPlace(Escape(key)));
    if i < |ms| && i != n {
      var r := Without(ms, i);
      var j := if n < i then n else n - 1;
      assert r[j] == ms[n];
      WithoutKey(ms, key, key);
      HasMeans(r, key);
      HasMeans(Without(ms, n), key);
    }
  }

  /** `add` adds a member of the name in the path exactly if that name survives being escaped and decoded. */
  lemma {:induction false} AddsItselfIff(ms: seq<Member>, key: string, value: Json)
    requires DistinctKeys(ms) && !Has(ms, key)
    ensures Apply(Object(ms), AddAt("/" + Escape(key), value), true) == (0, Object(ms + [Member(key, value)]))
            <==> Survives(key)
    ensures !NoSlash(key) ==> !Survives(key)
  {
    hide Apply, Escape, DecodeInPlace, IndexOf, Survives;
    SurvivesIff(key);
    EscapeNoSlash(key);
    AddHere(Object(ms), Escape(key), value);
    var name := DecodeInPlace(Escape(key));
    var r := AddChild(Object(ms), name, value, true).1;
    assert r.Object? && r.members[|r.members| - 1] == Member(name, value);
    assert (ms + [Member(key, value)])[|ms|] == Member(key, value);
  }

  /** An upper-case and a lower-case key of the same name: removing the second removes the first. */
  lemma {:induction false} CaseCounterexample(ms: seq<Member>, one: Json, two: Json)
    requires ms == [Member("A", one), Member("a", two)]
    ensures DistinctKeys(ms) && !FindsItself(ms, "a")
    ensures Apply(Object(ms), RemoveAt("/a"), true) == (0, Object([Member("a", two)]))
  {
    hide Apply, DecodeFrom, Split;
    var a := "a";
    PlainToken(Object(ms), a);
    DecodeNothing(a, 0);
    assert a[1..] == "" && "A"[1..] == "";
    assert LowerAll("A") == "a" && LowerAll(a) == "a";
    RemoveHere(Object(ms), a);
    assert "/" + a == "/a";
    assert IndexIgnoringCase(ms, a) == 0;
    assert Without(ms, 0) == [Member("a", two)];
    assert IndexOf(ms, a) == 1 && LowerAll(ms[0].key) == LowerAll(a);
  }

  /** A key with text after `~`: it comes back from a path as another key. */
  lemma {:induction false} TildeCounterexample()
    ensures Escape("~b") == "~0b" && DecodeInPlace("~0b") == "~0" && !Survives("~b")
  {
    var key := "~b";
    assert key[1..] == "b" && "b"[1..] == "";
    assert Escape("") == "" && Escape("b") == "b";
    var buffer := "~0b";
    assert buffer[0 := '~'] == buffer;
    assert DecodeFrom(buffer, 3, 2) == buffer[..2];
    assert DecodeFrom(buffer, 2, 1) == DecodeFrom(buffer, 3, 2);
  }
}

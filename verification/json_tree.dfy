/** JSON values as cJSON keeps them, without the links between the nodes. */
module JsonTree {
  /** A number has an integer and a floating-point form; a string has no NUL in it. */
  datatype Json =
    | Invalid  // what is left of a document whose root was removed
    | Null
    | False
    | True
    | Number(int32: int, double: real)
    | String(text: string)
    | Array(items: seq<Json>)
    | Object(members: seq<Member>)

  datatype Member = Member(key: string, value: Json)

  // ----- Members of an object -----

  /** Where the first member with this key is, or the number of members. */
  function IndexOf(ms: seq<Member>, key: string): (i: nat)
    ensures i <= |ms| && (i < |ms| ==> ms[i].key == key)
    ensures forall j :: 0 <= j < i ==> ms[j].key != key
  {
    if ms == [] || ms[0].key == key then 0 else 1 + IndexOf(ms[1..], key)
  }

  predicate Has(ms: seq<Member>, key: string) { IndexOf(ms, key) < |ms| }

  function Value(ms: seq<Member>, key: string): Json
    requires Has(ms, key)
  {
    ms[IndexOf(ms, key)].value
  }

  predicate DistinctKeys(ms: seq<Member>) {
    forall i, j :: 0 <= i < j < |ms| ==> ms[i].key != ms[j].key
  }

  /** Every object has at most one member for a key. */
  predicate Distinct(j: Json)
    decreases j
  {
    match j
    case Array(items) => forall i :: 0 <= i < |items| ==> Distinct(items[i])
    case Object(members) => DistinctKeys(members) && forall i :: 0 <= i < |members| ==> Distinct(members[i].value)
    case _ => true
  }

  lemma {:induction false} HasAt(ms: seq<Member>, i: nat)
    requires i < |ms|
    ensures Has(ms, ms[i].key)
    ensures DistinctKeys(ms) ==> IndexOf(ms, ms[i].key) == i && Value(ms, ms[i].key) == ms[i].value
  {
  }

  // ----- Equality -----

  /** The two numbers differ by no more than the larger magnitude divided by 2^52. */
  predicate NearlyEqual(a: real, b: real) {
    var d := 4503599627370496.0 * (a - b);
    && (d <= a || d <= -a || d <= b || d <= -b)
    && (-d <= a || -d <= -a || -d <= b || -d <= -b)
  }

  const DBL_EPSILON: real := 1.0 / 4503599627370496.0

  function Abs(x: real): real { if x < 0.0 then -x else x }

  /** compare_double, in exact arithmetic */
  predicate SameDouble(a: real, b: real)
    ensures SameDouble(a, b) <==> NearlyEqual(a, b)
  {
    Abs(a - b) <= (if Abs(a) > Abs(b) then Abs(a) else Abs(b)) * DBL_EPSILON
  }

  /**
   * The tolerance is relative: it separates numbers that differ by more than the larger magnitude divided by 2^52, and
   * zero and the two signs from each other.
   */
  lemma {:induction false} ToleranceSeparates(a: real, b: real)
    ensures SameDouble(a, b) && 0.0 <= a <= b ==> b <= a + b / 4503599627370496.0
    ensures SameDouble(a, b) && a <= 0.0 <= b ==> a == b == 0.0
    ensures SameDouble(a, b) <==> SameDouble(b, a)
    ensures SameDouble(a, b) <==> SameDouble(-a, -b)
  {
  }

  /** Equal up to the order of the members of an object, with numbers that have the same integer form and are close. */
  ghost predicate Matches(a: Json, b: Json)
    decreases b
  {
    match b
    case Number(i, d) => a.Number? && a.int32 == i && NearlyEqual(a.double, d)
    case Array(items) =>
      a.Array? && |a.items| == |items| && forall i :: 0 <= i < |items| ==> Matches(a.items[i], items[i])
    case Object(members) => a.Object? && MembersMatch(a.members, b)
    case _ => a == b
  }

  /** The same keys, with matching values. */
  ghost predicate MembersMatch(ms: seq<Member>, b: Json)
    requires b.Object?
    decreases b, 0
  {
    && (forall key :: Has(ms, key) <==> Has(b.members, key))
    && (forall i :: 0 <= i < |b.members| && Has(ms, b.members[i].key) ==>
          Matches(Value(ms, b.members[i].key), b.members[i].value))
  }

  lemma {:induction false} MatchesItself(j: Json)
    requires Distinct(j)
    ensures Matches(j, j)
    decreases j
  {
    match j
    case Array(items) =>
      forall i | 0 <= i < |items|
        ensures Matches(items[i], items[i])
      {
        MatchesItself(items[i]);
      }
    case Object(members) =>
      forall i | 0 <= i < |members|
        ensures Matches(Value(members, members[i].key), members[i].value)
      {
        HasAt(members, i);
        MatchesItself(members[i].value);
      }
    case Number(i, d) => SameDoubleItself(d);
    case _ =>
  }

  lemma {:induction false} SameDoubleItself(d: real)
    ensures SameDouble(d, d)
  {
  }
}

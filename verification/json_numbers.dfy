/** What parse_number takes for a number, and the integer that it keeps beside it. */
module JsonNumbers {
  import opened JsonText

  const NUMBER_CHARS: set<char> :=
    {'0', '1', '2', '3', '4', '5', '6', '7', '8', '9', '+', '-', 'e', 'E', '.'}

  /** The text of a number is as long as there are digits, signs, exponents and points, up to 63 of them. */
  lemma {:induction false} NumberEndIs(c: string, o: nat, limit: nat)
    requires o <= |c|
    ensures var e := NumberEnd(c, o, limit);
            && (forall i :: o <= i < e ==> c[i] in NUMBER_CHARS)
            && (e < o + limit && e < |c| ==> c[e] !in NUMBER_CHARS)
    decreases limit
  {
    if limit > 0 && o < |c| && IsNumberChar(c[o]) { NumberEndIs(c, o + 1, limit - 1); }
  }

  /** The integer is the number without its fraction, or the bound of `int` that it has passed. */
  lemma {:induction false} SaturateIs(d: real)
    ensures var i := Saturate(d);
            && -0x8000_0000 <= i <= 0x7fff_ffff
            && (d >= 0x7fff_ffff as real ==> i == 0x7fff_ffff)
            && (d <= -0x8000_0000 as real ==> i == -0x8000_0000)
            && (0.0 <= d < 0x7fff_ffff as real ==> 0 <= i && i as real <= d < (i + 1) as real)
            && (-0x8000_0000 as real < d <= 0.0 ==> i <= 0 && (i - 1) as real < d <= i as real)
  {
  }
}

// Match identifiers are strings: "R" round "-M" position+1, and "TP-M1" for the third place.
// Looking a match up by its id finds the right one because the ids are all different.

module MatchIds {
  const THIRD_PLACE_ID := "TP-M1"

  function Digit(d: nat): char
    requires d < 10
  {
    '0' + d as char
  }

  function Decimal(k: nat): (s: string)
    ensures s != [] && forall i | 0 <= i < |s| :: '0' <= s[i] <= '9'
  {
    if k < 10 then [Digit(k)] else Decimal(k / 10) + [Digit(k % 10)]
  }

  function Parse(s: string): int {
    if s == [] then 0 else 10 * Parse(s[..|s| - 1]) + (s[|s| - 1] as int - '0' as int)
  }

  lemma {:induction false} ParseDecimal(k: nat)
    ensures Parse(Decimal(k)) == k
  {
    if k < 10 {
      assert Decimal(k)[..0] == [];
    } else {
      ParseDecimal(k / 10);
      assert Decimal(k)[..|Decimal(k)| - 1] == Decimal(k / 10);
    }
  }

  function MatchId(round: nat, position: nat): string {
    "R" + (Decimal(round) + ("-M" + Decimal(position + 1)))
  }

  // Digits up to the first '-' can be read off in one way only.
  lemma SplitAtDash(d: string, rest: string, d': string, rest': string)
    requires '-' !in d && '-' !in d'
    requires rest != [] && rest' != [] && rest[0] == '-' && rest'[0] == '-'
    requires d + rest == d' + rest'
    ensures d == d' && rest == rest'
  {
    var all := d + rest;
    assert all[|d|] == '-' && all[|d'|] == '-';
    assert |d| == |d'|;
    assert d == all[..|d|] && rest == all[|d|..];
  }

  lemma SamePrefix(prefix: string, s: string, s': string)
    requires prefix + s == prefix + s'
    ensures s == s'
  {
    assert s == (prefix + s)[|prefix|..];
    assert s' == (prefix + s')[|prefix|..];
  }

  lemma DecimalInjective(k: nat, k': nat)
    requires Decimal(k) == Decimal(k')
    ensures k == k'
  {
    ParseDecimal(k);
    ParseDecimal(k');
  }

  lemma DecimalHasNoDash(k: nat)
    ensures '-' !in Decimal(k)
  {
  }

  lemma MatchIdInjective(r: nat, p: nat, r': nat, p': nat)
    requires MatchId(r, p) == MatchId(r', p')
    ensures r == r' && p == p'
  {
    var tail, tail' := "-M" + Decimal(p + 1), "-M" + Decimal(p' + 1);
    SamePrefix("R", Decimal(r) + tail, Decimal(r') + tail');
    DecimalHasNoDash(r);
    DecimalHasNoDash(r');
    SplitAtDash(Decimal(r), tail, Decimal(r'), tail');
    SamePrefix("-M", Decimal(p + 1), Decimal(p' + 1));
    DecimalInjective(r, r');
    DecimalInjective(p + 1, p' + 1);
  }

  lemma MatchIdIsNotThirdPlace(r: nat, p: nat)
    ensures MatchId(r, p) != THIRD_PLACE_ID
  {
    assert MatchId(r, p)[0] == 'R';
  }
}

/**
 * Text helpers the bot relies on: ASCII lower-casing (standing in for
 * Python's str.lower), substring search (Python's `in` on strings) and
 * decimal rendering of integers. Python's str.startswith is Dafny's
 * prefix test `prefix <= s` on sequences.
 */
module Strings {

  /** Lower-cases one ASCII capital; every other character is kept. */
  function LowerChar(c: char): (r: char)
    ensures 'A' <= c <= 'Z' ==> 'a' <= r <= 'z' && r as int - c as int == 32
    ensures !('A' <= c <= 'Z') ==> r == c
  {
    if 'A' <= c <= 'Z' then (c as int + 32) as char else c
  }

  function Lower(s: string): (r: string)
  {
    seq(|s|, i requires 0 <= i < |s| => LowerChar(s[i]))
  }

  /** Lower-casing keeps the length, maps every character, and leaves no capital behind. */
  lemma LowerShape(s: string)
    ensures |Lower(s)| == |s|
    ensures forall i :: 0 <= i < |s| ==> Lower(s)[i] == LowerChar(s[i])
    ensures forall i :: 0 <= i < |s| ==> !('A' <= Lower(s)[i] <= 'Z')
  {
  }

  /** `pat` occurs in `text` starting at position `i`. */
  ghost predicate OccursAt(text: string, pat: string, i: int)
  {
    0 <= i && i + |pat| <= |text| && text[i..i + |pat|] == pat
  }

  /** Python's `pat in text`: the empty pattern is in every string. */
  predicate Contains(text: string, pat: string)
    decreases |text|
  {
    pat <= text || (|text| > 0 && Contains(text[1..], pat))
  }

  /** Every occurrence is found by Contains. */
  lemma {:induction false} OccursContains(text: string, pat: string, i: int)
    requires OccursAt(text, pat, i)
    ensures Contains(text, pat)
    decreases i
  {
    if i == 0 {
      assert pat == text[..|pat|];
    } else {
      assert text[1..][i - 1..i - 1 + |pat|] == text[i..i + |pat|];
      OccursContains(text[1..], pat, i - 1);
    }
  }

  /** What Contains finds is an occurrence. */
  lemma {:induction false} ContainsOccurs(text: string, pat: string) returns (i: int)
    requires Contains(text, pat)
    ensures OccursAt(text, pat, i)
    decreases |text|
  {
    if pat <= text {
      i := 0;
    } else {
      var j := ContainsOccurs(text[1..], pat);
      assert text[1..][j..j + |pat|] == text[j + 1..j + 1 + |pat|];
      i := j + 1;
    }
  }

  /** Contains agrees with the positional definition of a substring, in both directions. */
  lemma ContainsIffOccurs(text: string, pat: string)
    ensures Contains(text, pat) <==> exists i :: OccursAt(text, pat, i)
  {
    if Contains(text, pat) {
      var i := ContainsOccurs(text, pat);
    }
    forall i | OccursAt(text, pat, i) ensures Contains(text, pat) {
      OccursContains(text, pat, i);
    }
  }

  /** `pat` occurs in `text` at position `i` in some mixture of ASCII cases. */
  ghost predicate OccursAnyCase(text: string, pat: string, i: int)
  {
    0 <= i && i + |pat| <= |text| && Lower(text[i..i + |pat|]) == Lower(pat)
  }

  /**
   * Lower-casing the text turns an occurrence in any case into an occurrence
   * of the lower-cased pattern, so `pat.lower() in text.lower()` holds.
   */
  lemma LowerFindsAnyCase(text: string, pat: string, i: int)
    requires OccursAnyCase(text, pat, i)
    ensures OccursAt(Lower(text), Lower(pat), i)
    ensures Contains(Lower(text), Lower(pat))
  {
    assert Lower(text)[i..i + |pat|] == Lower(text[i..i + |pat|]);
    OccursContains(Lower(text), Lower(pat), i);
  }

  function DigitChar(d: nat): (c: char)
    requires d < 10
    ensures '0' <= c <= '9' && c as int - '0' as int == d
  {
    "0123456789"[d]
  }

  /** Decimal rendering of a natural number, as Python's str(int). */
  function NatToDecimal(n: nat): (s: string)
    ensures |s| >= 1
    ensures forall i :: 0 <= i < |s| ==> '0' <= s[i] <= '9'
    decreases n
  {
    if n < 10 then [DigitChar(n)] else NatToDecimal(n / 10) + [DigitChar(n % 10)]
  }

  /** Decimal rendering of an integer, with a leading '-' when negative. */
  function IntToDecimal(i: int): (s: string)
    ensures |s| >= 1
  {
    if i < 0 then "-" + NatToDecimal(-i) else NatToDecimal(i)
  }

  function Pow10(w: nat): (p: nat)
    ensures p >= 1
  {
    if w == 0 then 1 else 10 * Pow10(w - 1)
  }

  /** A number below 10^w has at most w decimal digits. */
  lemma {:induction false} NatToDecimalLength(n: nat, w: nat)
    requires 1 <= w && n < Pow10(w)
    ensures |NatToDecimal(n)| <= w
    decreases w
  {
    if n >= 10 {
      assert w >= 2;
      assert n / 10 < Pow10(w - 1);
      NatToDecimalLength(n / 10, w - 1);
    }
  }

  /** Reads a string of decimal digits back (the inverse of NatToDecimal). */
  function ParseNat(s: string): int
  {
    if s == [] then 0 else ParseNat(s[..|s| - 1]) * 10 + (s[|s| - 1] as int - '0' as int)
  }

  function ParseInt(s: string): int
  {
    if |s| > 0 && s[0] == '-' then -ParseNat(s[1..]) else ParseNat(s)
  }

  lemma {:induction false} ParseNatRoundTrip(n: nat)
    ensures ParseNat(NatToDecimal(n)) == n
    decreases n
  {
    if n >= 10 {
      var s := NatToDecimal(n);
      assert s[..|s| - 1] == NatToDecimal(n / 10);
      ParseNatRoundTrip(n / 10);
    }
  }

  /** Rendering an integer in decimal loses nothing: parsing it back gives the integer. */
  lemma {:induction false} IntRoundTrip(i: int)
    ensures ParseInt(IntToDecimal(i)) == i
  {
    var s := IntToDecimal(i);
    if i < 0 {
      var d := NatToDecimal(-i);
      assert s == "-" + d;
      assert s[1..] == d;
      ParseNatRoundTrip(-i);
      assert ParseInt(s) == -ParseNat(d);
    } else {
      var d := NatToDecimal(i);
      assert s == d && '0' <= d[0] <= '9';
      ParseNatRoundTrip(i);
      assert ParseInt(s) == ParseNat(d);
    }
  }

  /** Distinct integers have distinct decimal renderings. */
  lemma IntToDecimalInjective(i: int, j: int)
    requires IntToDecimal(i) == IntToDecimal(j)
    ensures i == j
  {
    IntRoundTrip(i);
    IntRoundTrip(j);
  }
}

/** Decimal numerals as text. */
module Digits {
  predicate IsDigit(c: char) {
    '0' <= c <= '9'
  }

  predicate AllDigits(s: string) {
    forall i :: 0 <= i < |s| ==> IsDigit(s[i])
  }

  function Value(s: string): nat
    requires AllDigits(s)
  {
    if s == [] then 0 else 10 * Value(s[..|s| - 1]) + (s[|s| - 1] as int - '0' as int)
  }

  /** The ten digits and their values, and no other character. */
  lemma TenDigits(c: char)
    ensures IsDigit(c) <==> c in "0123456789"
    ensures forall i :: 0 <= i < 10 ==> AllDigits(["0123456789"[i]]) && Value(["0123456789"[i]]) == i
  {
    var digits := "0123456789";
    if IsDigit(c) {
      assert digits[c as int - '0' as int] == c;
    }
    forall i | 0 <= i < 10 ensures AllDigits([digits[i]]) && Value([digits[i]]) == i {
      assert [digits[i]][..0] == [] && digits[i] as int - '0' as int == i;
    }
  }
}

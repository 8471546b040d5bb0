/** `normalize_phone` as written, over ASCII digits (Python's `\d` and `\D`
    also take other Unicode decimal digits as digits, which this module does
    not), and the area-code table behind the fourth phone pattern. */
module Phone {
  import opened Strings
  import opened Ordering

  /** The three outcomes of `normalize_phone`: a string, `None`, or the
      `IndexError` raised by `digits[0]` when no digit is left. */
  datatype Normalized = Canonical(phone: string) | Rejected | NoDigitsLeft

  /** The digits `normalize_phone` classifies: every non-digit removed, then one
      leading `977` and then one leading `0` dropped. */
  function Significant(phone: string): (d: string)
    ensures AllDigits(d)
  {
    var digits := DigitsOf(phone);
    var local := if StartsWith(digits, "977") then digits[3..] else digits;
    if StartsWith(local, "0") then local[1..] else local
  }

  /** A canonical phone: `0`, then a digit from 1 to 9, then only digits. */
  predicate IsCanonical(c: string)
  {
    |c| >= 2 && c[0] == '0' && '1' <= c[1] <= '9' && AllDigits(c)
  }

  /** Python's `s[n:]`, which is empty once `n` passes the end. */
  function Drop(s: string, n: int): string
  {
    if n <= 0 then s else if n <= |s| then s[n..] else []
  }

  /** Python's `s[:n]`. */
  function Take(s: string, n: int): string
  {
    if n <= 0 then [] else if n <= |s| then s[..n] else s
  }

  /** `normalize_phone` branch by branch.  The length guard is the chained
      comparison `7 > n > 15`, which no length satisfies; the `8`/`9` branch
      cannot be reached because the branch before it already takes `2`..`9`.
      What is left: no digit means failure, a leading `0` means `None`, and
      otherwise the answer is `0` followed by the significant digits. */
  function NormalizePhone(phone: string): Normalized
  {
    var digits := Significant(phone);
    if 7 > |digits| > 15 then Rejected
    else if digits == [] then NoDigitsLeft
    else
      var first := digits[0];
      if first == '1' then Canonical("01" + Drop(digits, 1))
      else if '2' <= first <= '9' then Canonical("0" + Take(digits, 2) + Drop(digits, 2))
      else if first == '8' || first == '9' then
        if first == '9' then Canonical("9" + Drop(digits, 1)) else Canonical(digits)
      else Rejected
  }

  /** No digit left after the prefixes is the IndexError, a `0` left in front
      is `None`, and otherwise the answer is `0` followed by the significant
      digits, which is canonical. */
  lemma NormalizeOutcomes(phone: string)
    ensures var r := NormalizePhone(phone);
      var d := Significant(phone);
      && (r == NoDigitsLeft <==> d == [])
      && (r == Rejected <==> d != [] && d[0] == '0')
      && (r.Canonical? ==> r.phone == "0" + d && IsCanonical(r.phone))
  {
    var d := Significant(phone);
    if d != [] && d[0] != '0' {
      if d[0] == '1' {
        assert "01" + Drop(d, 1) == "0" + d;
      } else {
        assert "0" + Take(d, 2) + Drop(d, 2) == "0" + d;
      }
      assert ("0" + d)[1..] == d;
    }
  }

  /** The canonical strings are exactly the fixed points of the normaliser. */
  lemma FixedPointsAreCanonical(c: string)
    ensures NormalizePhone(c) == Canonical(c) <==> IsCanonical(c)
  {
    NormalizeOutcomes(c);
    if IsCanonical(c) {
      DigitsOfAllDigits(c);
      assert !StartsWith(c, "977");
      assert Significant(c) == c[1..];
      assert "0" + c[1..] == c;
    }
  }

  /** Normalising twice is normalising once. */
  lemma NormalizeIdempotent(phone: string)
    requires NormalizePhone(phone).Canonical?
    ensures NormalizePhone(NormalizePhone(phone).phone) == NormalizePhone(phone)
  {
    FixedPointsAreCanonical(NormalizePhone(phone).phone);
  }

  /** The outcome once the significant digits are known. */
  lemma NormalizeBySignificant(phone: string, d: string)
    requires Significant(phone) == d
    ensures d == [] ==> NormalizePhone(phone) == NoDigitsLeft
    ensures d != [] && d[0] == '0' ==> NormalizePhone(phone) == Rejected
    ensures d != [] && d[0] != '0' ==> NormalizePhone(phone) == Canonical("0" + d)
  {
    NormalizeOutcomes(phone);
  }

  /** The significant digits of a string whose digits are `digits` and begin `977`. */
  lemma SignificantAfterCountryCode(phone: string, digits: string)
    requires DigitsOf(phone) == digits && |digits| >= 4
    requires digits[..3] == "977" && digits[3] != '0'
    ensures Significant(phone) == digits[3..]
  {
  }

  /** The significant digits of a string whose digits are `digits`, beginning with neither `977` nor `0`. */
  lemma SignificantPlain(phone: string, digits: string)
    requires DigitsOf(phone) == digits && |digits| >= 3
    requires digits[..3] != "977" && digits[0] != '0'
    ensures Significant(phone) == digits
  {
  }

  /** A digit string that begins with neither `977` nor `0` only gains a leading `0`. */
  lemma NormalizePlainDigits(phone: string)
    requires AllDigits(phone) && |phone| >= 3
    requires phone[..3] != "977" && phone[0] != '0'
    ensures NormalizePhone(phone) == Canonical("0" + phone)
  {
    DigitsOfAllDigits(phone);
    SignificantPlain(phone, phone);
    NormalizeBySignificant(phone, phone);
  }

  /** Spaces, dashes, dots, brackets and the `+` play no part: only the digits count. */
  lemma SeparatorsIgnored(phone: string)
    ensures NormalizePhone(phone) == NormalizePhone(DigitsOf(phone))
  {
    DigitsOfAllDigits(DigitsOf(phone));
    assert Significant(phone) == Significant(DigitsOf(phone));
  }

  /** A leading `977` is dropped as the country code, and the rest gets a `0` in front. */
  lemma CountryCodeDropped(rest: string)
    requires AllDigits(rest) && rest != [] && rest[0] != '0'
    ensures NormalizePhone("977" + rest) == Canonical("0" + rest)
  {
    var digits := "977" + rest;
    assert AllDigits(digits);
    DigitsOfAllDigits(digits);
    assert digits[..3] == "977" && digits[3..] == rest;
    SignificantAfterCountryCode(digits, digits);
    NormalizeBySignificant(digits, rest);
  }

  /** A Kathmandu landline written with its leading `0` is already canonical. */
  lemma ExampleKathmandu()
    ensures NormalizePhone("014261234") == Canonical("014261234")
  {
    assert IsCanonical("014261234");
    FixedPointsAreCanonical("014261234");
  }

  /** A ten-digit mobile number gets a `0` in front of it (the mobile branch that
      would keep it is unreachable). */
  lemma ExampleMobile()
    ensures NormalizePhone("9841234567") == Canonical("09841234567")
  {
    assert "0" + "9841234567" == "09841234567";
    assert "9841234567"[..3] == "984";
    NormalizePlainDigits("9841234567");
  }

  /** A mobile number beginning `977` loses those digits as if they were the country code. */
  lemma ExampleMobileLikeCountryCode()
    ensures NormalizePhone("9771234567") == Canonical("01234567")
  {
    assert "977" + "1234567" == "9771234567";
    assert "0" + "1234567" == "01234567";
    CountryCodeDropped("1234567");
  }

  lemma SignificantOneDigitExample()
    ensures Significant("5") == "5"
  {
    DigitsOfAllDigits("5");
  }

  /** There is no length check: a single digit is accepted ... */
  lemma ExampleOneDigit()
    ensures NormalizePhone("5") == Canonical("05")
  {
    SignificantOneDigitExample();
    NormalizeBySignificant("5", "5");
    assert "0" + "5" == "05";
  }

  lemma SignificantZeroExamples()
    ensures Significant("0") == []
    ensures Significant("(0 0)") == "0"
  {
    DigitsOfAllDigits("0");
    DigitsOfAppend("(0", " 0)");
    assert "(0" + " 0)" == "(0 0)";
    assert DigitsOf("(0") == "0";
    assert DigitsOf(" 0)") == "0";
    assert DigitsOf("(0 0)") == "00";
  }

  /** A lone `0` leaves no digit (IndexError); `00` leaves a `0` (None). */
  lemma ExampleFailures()
    ensures NormalizePhone("0") == NoDigitsLeft
    ensures NormalizePhone("(0 0)") == Rejected
  {
    SignificantZeroExamples();
    NormalizeBySignificant("0", []);
    NormalizeBySignificant("(0 0)", "0");
  }
}

/** `_VALID_AREA_CODES` and the alternation `_AREA_CODE_PATTERN` built from it. */
module AreaCodes {
  import opened Strings
  import opened Ordering

  /** `_VALID_AREA_CODES`: the 2-digit codes and the 3-digit "0xx" family. */
  const ValidAreaCodes: set<string> := {
    "01", "10", "11", "19", "21", "23", "24", "25", "26", "27", "29",
    "31", "33", "35", "36", "37", "38", "41", "44", "46", "47", "48", "49",
    "51", "53", "55", "56", "57", "61", "63", "64", "65", "66", "67", "68",
    "69", "71", "75", "76", "77", "78", "79", "81", "82", "83", "84", "86",
    "87", "88", "89", "91", "92", "93", "94", "95", "96", "97", "99",
    "010", "011", "019", "021", "023", "024", "025", "026", "027", "029",
    "031", "033", "035", "036", "037", "038", "041", "044", "046", "047",
    "048", "049", "051", "053", "055", "056", "057", "061", "063", "064",
    "065", "066", "067", "068", "069", "071", "075", "076", "077", "078",
    "079", "081", "082", "083", "084", "086", "087", "088", "089", "091",
    "092", "093", "094", "095", "096", "097", "099"
  }

  predicate LongestFirstOrdered(s: seq<string>)
  {
    forall i, j :: 0 <= i < j < |s| ==> |s[i]| >= |s[j]|
  }

  /** A string no shorter than the head of a longest-first list can go in front. */
  lemma ConsOrdered(h: string, s: seq<string>)
    requires LongestFirstOrdered(s) && (s != [] ==> |s[0]| <= |h|)
    ensures LongestFirstOrdered([h] + s)
  {
    var r := [h] + s;
    forall i, j | 0 <= i < j < |r| ensures |r[i]| >= |r[j]| {
      assert r[j] == s[j - 1];
      if i == 0 {
        assert |s[0]| >= |s[j - 1]|;
      } else {
        assert r[i] == s[i - 1];
      }
    }
  }

  /** Puts `x` after every element at least as long as it (stable). */
  function InsertByLength(x: string, s: seq<string>): (r: seq<string>)
    requires LongestFirstOrdered(s)
    ensures LongestFirstOrdered(r)
    ensures multiset(r) == multiset(s) + multiset{x}
    ensures r[0] == x || (s != [] && r[0] == s[0])
    decreases |s|
  {
    if s == [] then [x]
    else if |x| > |s[0]| then
      ConsOrdered(x, s);
      [x] + s
    else
      var tail := InsertByLength(x, s[1..]);
      ConsOrdered(s[0], tail);
      assert s == [s[0]] + s[1..];
      [s[0]] + tail
  }

  /** `sorted(codes, key=len, reverse=True)`: a stable sort, longest first. */
  function LongestFirst(codes: seq<string>): (r: seq<string>)
    ensures LongestFirstOrdered(r)
    ensures multiset(r) == multiset(codes)
    decreases |codes|
  {
    if codes == [] then []
    else
      assert codes == codes[..|codes| - 1] + [codes[|codes| - 1]];
      InsertByLength(codes[|codes| - 1], LongestFirst(codes[..|codes| - 1]))
  }

  function JoinAll(parts: seq<string>, sep: char): string
  {
    if parts == [] then "" else Join(parts, sep)
  }

  /** `_AREA_CODE_PATTERN`, for the order in which the set's codes are iterated. */
  function AreaCodePattern(order: seq<string>): string
    requires IsEnumeration(order, ValidAreaCodes)
  {
    JoinAll(LongestFirst(order), '|')
  }

  /** Sorting by length keeps an enumeration an enumeration of the same set. */
  lemma LongestFirstEnumerates(order: seq<string>, codes: set<string>)
    requires IsEnumeration(order, codes)
    ensures IsEnumeration(LongestFirst(order), codes)
  {
    var r := LongestFirst(order);
    forall x ensures x in r <==> x in order {
      assert x in multiset(r) <==> x in multiset(order);
    }
    NoDupByMultiset(r, order);
  }

  /** Sorting an enumeration by length puts every 3-digit code before every
      shorter one, and so `010` before `01`. */
  lemma LongestFirstShape(order: seq<string>, codes: set<string>)
    requires IsEnumeration(order, codes)
    ensures var r := LongestFirst(order);
      && IsEnumeration(r, codes)
      && (forall i, j :: 0 <= i < j < |r| && |r[j]| == 3 ==> |r[i]| >= 3)
      && (forall i, j :: 0 <= i < |r| && 0 <= j < |r| && r[i] == "010" && r[j] == "01" ==> i < j)
  {
    var r := LongestFirst(order);
    LongestFirstEnumerates(order, codes);
    forall i, j | 0 <= i < |r| && 0 <= j < |r| && r[i] == "010" && r[j] == "01"
      ensures i < j
    {
      assert |r[i]| == 3 && |r[j]| == 2;
    }
  }

  /** Whatever order the set is iterated in, the alternation lists each code once
      and every 3-digit code before every shorter one, so `010` is tried before `01`. */
  lemma ThreeDigitCodesFirst(order: seq<string>)
    requires IsEnumeration(order, ValidAreaCodes)
    ensures var r := LongestFirst(order);
      && IsEnumeration(r, ValidAreaCodes)
      && (forall i, j :: 0 <= i < j < |r| && |r[j]| == 3 ==> |r[i]| >= 3)
      && (forall i, j :: 0 <= i < |r| && 0 <= j < |r| && r[i] == "010" && r[j] == "01" ==> i < j)
  {
    LongestFirstShape(order, ValidAreaCodes);
  }
}

/** Duplicate-freedom, set enumerations, and Python's `sorted` on strings
    (code-point lexicographic order). */
module Ordering {

  predicate NoDup<T(==)>(s: seq<T>)
  {
    forall i, j :: 0 <= i < j < |s| ==> s[i] != s[j]
  }

  function Elements<T>(s: seq<T>): set<T>
  {
    set x | x in s
  }

  /** `s` lists every member of `of` exactly once: iterating a Python set yields this. */
  predicate IsEnumeration<T(==)>(s: seq<T>, of: set<T>)
  {
    NoDup(s) && Elements(s) == of
  }

  lemma {:induction false} NoDupMultiset<T>(s: seq<T>)
    requires NoDup(s)
    ensures multiset(s) == multiset(Elements(s))
    decreases |s|
  {
    if s != [] {
      var t := s[1..];
      assert NoDup(t);
      NoDupMultiset(t);
      assert s == [s[0]] + t;
      assert s[0] !in t;
      assert Elements(s) == {s[0]} + Elements(t);
      assert multiset(Elements(s)) == multiset{s[0]} + multiset(Elements(t));
    }
  }

  /** Two enumerations of one set hold the same elements the same number of times. */
  lemma EnumerationsAgree<T>(a: seq<T>, b: seq<T>, of: set<T>)
    requires IsEnumeration(a, of) && IsEnumeration(b, of)
    ensures multiset(a) == multiset(b)
  {
    NoDupMultiset(a);
    NoDupMultiset(b);
  }

  /** Python's `a <= b` on `str`. */
  predicate StrLe(a: string, b: string)
    decreases |a|
  {
    a == [] || (b != [] && (a[0] < b[0] || (a[0] == b[0] && StrLe(a[1..], b[1..]))))
  }

  lemma {:induction false} StrLeTotal(a: string, b: string)
    ensures StrLe(a, b) || StrLe(b, a)
    decreases |a|
  {
    if a != [] && b != [] && a[0] == b[0] {
      StrLeTotal(a[1..], b[1..]);
    }
  }

  lemma {:induction false} StrLeReflexive(a: string)
    ensures StrLe(a, a)
    decreases |a|
  {
    if a != [] {
      StrLeReflexive(a[1..]);
    }
  }

  lemma {:induction false} StrLeAntisymmetric(a: string, b: string)
    requires StrLe(a, b) && StrLe(b, a)
    ensures a == b
    decreases |a|
  {
    if a != [] {
      StrLeAntisymmetric(a[1..], b[1..]);
      assert a == [a[0]] + a[1..] && b == [b[0]] + b[1..];
    }
  }

  lemma {:induction false} StrLeTransitive(a: string, b: string, c: string)
    requires StrLe(a, b) && StrLe(b, c)
    ensures StrLe(a, c)
    decreases |a|
  {
    if a != [] && a[0] == b[0] && b[0] == c[0] {
      StrLeTransitive(a[1..], b[1..], c[1..]);
    }
  }

  predicate Sorted(s: seq<string>)
  {
    forall i, j :: 0 <= i < j < |s| ==> StrLe(s[i], s[j])
  }

  /** Puts `x` into the sorted sequence `s` in front of the first element not below it. */
  function Insert(x: string, s: seq<string>): (r: seq<string>)
    ensures multiset(r) == multiset(s) + multiset{x}
    decreases |s|
  {
    if s == [] then [x]
    else if StrLe(x, s[0]) then [x] + s
    else
      assert s == [s[0]] + s[1..];
      [s[0]] + Insert(x, s[1..])
  }

  lemma {:induction false} InsertKeepsSorted(x: string, s: seq<string>)
    requires Sorted(s)
    ensures Sorted(Insert(x, s))
    decreases |s|
  {
    if s != [] {
      if StrLe(x, s[0]) {
        forall j | 0 <= j < |s| ensures StrLe(x, s[j]) {
          if j > 0 { StrLeTransitive(x, s[0], s[j]); }
        }
      } else {
        StrLeTotal(x, s[0]);
        InsertKeepsSorted(x, s[1..]);
        var tail := Insert(x, s[1..]);
        forall k | 0 <= k < |tail| ensures StrLe(s[0], tail[k]) {
          assert tail[k] in multiset(tail);
          if tail[k] != x {
            assert tail[k] in multiset(s[1..]);
            var j :| 0 <= j < |s[1..]| && s[1..][j] == tail[k];
            assert s[j + 1] == tail[k];
          }
        }
      }
    }
  }

  /** Python's `sorted(s)` for a list of strings. */
  function Sort(s: seq<string>): (r: seq<string>)
    ensures Sorted(r) && multiset(r) == multiset(s)
    decreases |s|
  {
    if s == [] then []
    else
      var init := s[..|s| - 1];
      var sortedInit := Sort(init);
      InsertKeepsSorted(s[|s| - 1], sortedInit);
      assert s == init + [s[|s| - 1]];
      Insert(s[|s| - 1], sortedInit)
  }

  /** The head of a sorted sequence is below all of its elements. */
  lemma HeadIsLeast(a: seq<string>, x: string)
    requires Sorted(a) && x in multiset(a)
    ensures StrLe(a[0], x)
  {
    var k :| 0 <= k < |a| && a[k] == x;
    if k == 0 { StrLeReflexive(x); }
  }

  lemma Uncons(a: seq<string>)
    requires a != []
    ensures multiset(a[1..]) == multiset(a) - multiset{a[0]}
  {
    assert a == [a[0]] + a[1..];
  }

  /** A sorted arrangement of given elements is unique: the order the elements
      arrived in does not matter. */
  lemma {:induction false} SortedUnique(a: seq<string>, b: seq<string>)
    requires Sorted(a) && Sorted(b) && multiset(a) == multiset(b)
    ensures a == b
    decreases |a|
  {
    if a == [] {
      assert |multiset(b)| == 0;
    } else {
      assert |b| == |a| by { assert |multiset(b)| == |multiset(a)|; }
      HeadIsLeast(b, a[0]);
      HeadIsLeast(a, b[0]);
      StrLeAntisymmetric(a[0], b[0]);
      Uncons(a);
      Uncons(b);
      SortedUnique(a[1..], b[1..]);
      assert a == [a[0]] + a[1..] && b == [b[0]] + b[1..];
    }
  }

  /** A repeated element occurs at least twice in the multiset. */
  lemma RepeatCounts<T>(s: seq<T>, i: nat, j: nat)
    requires i < j < |s|
    ensures s[i] == s[j] ==> multiset(s)[s[i]] >= 2
  {
    assert s == s[..j] + s[j..];
    assert s[i] in s[..j];
    assert s[j..][0] == s[j];
    assert multiset(s) == multiset(s[..j]) + multiset(s[j..]);
  }

  /** A sequence with the same multiset as a duplicate-free one is duplicate-free. */
  lemma NoDupByMultiset<T>(r: seq<T>, s: seq<T>)
    requires NoDup(s) && multiset(r) == multiset(s)
    ensures NoDup(r)
  {
    NoDupMultiset(s);
    forall i, j | 0 <= i < j < |r| ensures r[i] != r[j] {
      RepeatCounts(r, i, j);
      assert multiset(Elements(s))[r[i]] <= 1;
    }
  }

  /** Sorting any enumeration of a set lists the set in strictly increasing order,
      and every enumeration gives the same list. */
  lemma SortEnumeration(order: seq<string>, other: seq<string>, of: set<string>)
    requires IsEnumeration(order, of) && IsEnumeration(other, of)
    ensures IsEnumeration(Sort(order), of) && Sorted(Sort(order))
    ensures Sort(order) == Sort(other)
  {
    var r := Sort(order);
    forall x ensures x in r <==> x in order {
      assert x in multiset(r) <==> x in multiset(order);
    }
    NoDupByMultiset(r, order);
    EnumerationsAgree(order, other, of);
    SortedUnique(r, Sort(other));
  }
}

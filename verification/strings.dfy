/** The string operations the dashboard scripts rely on: Python's ordering of
    `str` values (code point by code point, a proper prefix first), ordered
    insertion, and the first piece of `s.split(sep)`. */
module Strings {
  import opened Dict

  /** Python's `a < b` on strings: a proper prefix comes first, and a string
      never comes before one of its prefixes. */
  predicate Below(a: string, b: string)
    ensures a < b ==> Below(a, b)
    ensures b <= a ==> !Below(a, b)
  {
    if |a| == 0 then |b| > 0
    else if |b| == 0 then false
    else if a[0] != b[0] then a[0] < b[0]
    else Below(a[1..], b[1..])
  }

  /** Otherwise the first code point at which the two strings differ
      decides. */
  lemma {:induction false} BelowAtFirstDifference(a: string, b: string, k: nat)
    requires k < |a| && k < |b| && a[..k] == b[..k] && a[k] != b[k]
    ensures Below(a, b) <==> a[k] < b[k]
  {
    if k > 0 {
      assert a[0] == a[..k][0] == b[..k][0] == b[0];
      assert a[1..][..k - 1] == a[..k][1..] == b[..k][1..] == b[1..][..k - 1];
      BelowAtFirstDifference(a[1..], b[1..], k - 1);
    }
  }

  lemma {:induction false} BelowIrreflexive(a: string)
    ensures !Below(a, a)
  {
    if |a| > 0 {
      BelowIrreflexive(a[1..]);
    }
  }

  lemma {:induction false} BelowTransitive(a: string, b: string, c: string)
    requires Below(a, b) && Below(b, c)
    ensures Below(a, c)
  {
    if |a| > 0 && |b| > 0 && |c| > 0 && a[0] == b[0] && b[0] == c[0] {
      BelowTransitive(a[1..], b[1..], c[1..]);
    }
  }

  /** Distinct strings are always comparable, so sorting is well defined. */
  lemma {:induction false} BelowTotal(a: string, b: string)
    requires a != b
    ensures Below(a, b) || Below(b, a)
  {
    if |a| > 0 && |b| > 0 && a[0] == b[0] {
      assert a == [a[0]] + a[1..] && b == [b[0]] + b[1..];
      BelowTotal(a[1..], b[1..]);
    }
  }

  /** Ascending with no duplicates. */
  predicate StrictlySorted(s: seq<string>) {
    forall i, j :: 0 <= i < j < |s| ==> Below(s[i], s[j])
  }

  /** A strictly ascending sequence has no repetitions. */
  lemma SortedIsDistinct(s: seq<string>)
    requires StrictlySorted(s)
    ensures Distinct(s)
  {
    forall i, j | 0 <= i < j < |s|
      ensures s[i] != s[j]
    {
      BelowIrreflexive(s[i]);
    }
  }

  /** Adds `x` to a strictly sorted sequence at its place; a string already
      present is not added twice. */
  function InsertSorted(s: seq<string>, x: string): (r: seq<string>)
    requires StrictlySorted(s)
    ensures StrictlySorted(r)
    ensures forall y :: y in r <==> y in s || y == x
    ensures x in s ==> |r| == |s|
    ensures x !in s ==> |r| == |s| + 1
  {
    if |s| == 0 then [x]
    else if x == s[0] then s
    else if Below(x, s[0]) then
      InsertSortedHead(s, x);
      [x] + s
    else
      BelowTotal(x, s[0]);
      var tail := InsertSorted(s[1..], x);
      assert forall j :: 0 <= j < |tail| ==> Below(s[0], tail[j]) by {
        forall j | 0 <= j < |tail|
          ensures Below(s[0], tail[j])
        {
          if tail[j] != x {
            assert tail[j] in tail;
            assert tail[j] in s[1..];
            var k :| 0 <= k < |s[1..]| && s[1..][k] == tail[j];
            assert s[k + 1] == tail[j];
          }
        }
      }
      assert x !in s ==> x !in s[1..];
      [s[0]] + tail
  }

  lemma InsertSortedHead(s: seq<string>, x: string)
    requires StrictlySorted(s) && |s| > 0 && Below(x, s[0])
    ensures StrictlySorted([x] + s)
    ensures x !in s
  {
    forall j | 0 < j < |s|
      ensures Below(x, s[j])
    {
      BelowTransitive(x, s[0], s[j]);
    }
    BelowIrreflexive(x);
  }

  /** `s.split(sep)[0]`: everything before the first `sep`, or all of `s`. */
  function PrefixBefore(s: string, sep: char): (r: string)
    ensures |r| <= |s| && r == s[..|r|]
    ensures sep !in r
    ensures |r| < |s| ==> s[|r|] == sep
  {
    if |s| == 0 || s[0] == sep then ""
    else [s[0]] + PrefixBefore(s[1..], sep)
  }
}

/**
 * Python's default string order (lexicographic by code point) and
 * `sorted(set_of_strings)`, the shape in which the dashboard builds its
 * entity lists.
 */
module Ordering {

  /** `a < b` on Python strings: a proper prefix comes first, otherwise the first differing character decides. */
  predicate Less(a: string, b: string)
    decreases |a|
  {
    if |a| == 0 then |b| > 0
    else if |b| == 0 then false
    else a[0] < b[0] || (a[0] == b[0] && Less(a[1..], b[1..]))
  }

  lemma {:induction false} LessIrreflexive(a: string)
    ensures !Less(a, a)
    decreases |a|
  {
    if |a| > 0 {
      LessIrreflexive(a[1..]);
    }
  }

  lemma {:induction false} LessTransitive(a: string, b: string, c: string)
    requires Less(a, b) && Less(b, c)
    ensures Less(a, c)
    decreases |a|
  {
    if |a| > 0 && a[0] == b[0] && b[0] == c[0] {
      LessTransitive(a[1..], b[1..], c[1..]);
    }
  }

  /** The order is total: any two different strings are ordered one way or the other. */
  lemma {:induction false} LessTotal(a: string, b: string)
    requires a != b
    ensures Less(a, b) || Less(b, a)
    decreases |a|
  {
    if |a| > 0 && |b| > 0 && a[0] == b[0] {
      assert a == [a[0]] + a[1..] && b == [b[0]] + b[1..];
      LessTotal(a[1..], b[1..]);
    }
  }

  lemma LessAsymmetric(a: string, b: string)
    requires Less(a, b)
    ensures !Less(b, a)
  {
    if Less(b, a) {
      LessTransitive(a, b, a);
      LessIrreflexive(a);
    }
  }

  /** Increasing with no repeats: what `sorted(...unique())` returns. */
  predicate StrictlySorted(s: seq<string>) {
    forall i, j :: 0 <= i < j < |s| ==> Less(s[i], s[j])
  }

  lemma StrictlySortedDistinct(s: seq<string>, i: int, j: int)
    requires StrictlySorted(s)
    requires 0 <= i < |s| && 0 <= j < |s| && i != j
    ensures s[i] != s[j]
  {
    if i < j {
      LessIrreflexive(s[i]);
    } else {
      LessIrreflexive(s[j]);
    }
  }

  /** Inserts `x` into a strictly sorted list unless it is already there. */
  function Insert(x: string, s: seq<string>): (r: seq<string>)
    requires StrictlySorted(s)
    ensures StrictlySorted(r)
    ensures forall e :: e in r <==> e == x || e in s
  {
    if |s| == 0 then [x]
    else if x == s[0] then s
    else if Less(x, s[0]) then
      assert forall j :: 0 <= j < |s| ==> Less(x, s[j]) by {
        forall j | 0 <= j < |s| ensures Less(x, s[j]) {
          if j > 0 { LessTransitive(x, s[0], s[j]); }
        }
      }
      [x] + s
    else
      LessTotal(x, s[0]);
      var t := Insert(x, s[1..]);
      assert forall e :: e in t ==> Less(s[0], e);
      [s[0]] + t
  }

  /** The sorted list of the distinct elements of `s`. */
  function SortUnique(s: seq<string>): (r: seq<string>)
    ensures StrictlySorted(r)
    ensures forall e :: e in r <==> e in s
  {
    if |s| == 0 then [] else Insert(s[|s| - 1], SortUnique(s[..|s| - 1]))
  }

  /** Two strictly sorted lists with the same elements: the head of one is not below the head of the other. */
  lemma HeadNotBelow(s: seq<string>, t: seq<string>)
    requires StrictlySorted(s) && StrictlySorted(t)
    requires forall e :: e in s <==> e in t
    requires |s| > 0 && |t| > 0
    ensures !Less(s[0], t[0])
  {
    if Less(s[0], t[0]) {
      assert s[0] in s;
      var j :| 0 <= j < |t| && t[j] == s[0];
      if j == 0 {
        LessIrreflexive(s[0]);
      } else {
        LessAsymmetric(t[0], t[j]);
      }
    }
  }

  /** A strictly sorted list is determined by its elements, so SortUnique is the one such list. */
  lemma {:induction false} StrictlySortedUnique(s: seq<string>, t: seq<string>)
    requires StrictlySorted(s) && StrictlySorted(t)
    requires forall e :: e in s <==> e in t
    ensures s == t
    decreases |s|
  {
    assert |s| > 0 ==> s[0] in t;
    assert |t| > 0 ==> t[0] in s;
    if |s| > 0 && |t| > 0 {
      HeadNotBelow(s, t);
      HeadNotBelow(t, s);
      if s[0] != t[0] {
        LessTotal(s[0], t[0]);
      }
      forall e ensures e in s[1..] <==> e in t[1..] {
        if e in s[1..] {
          var i :| 1 <= i < |s| && s[i] == e;
          StrictlySortedDistinct(s, 0, i);
          assert e in t && e != t[0];
          var k :| 0 <= k < |t| && t[k] == e;
          assert t[1..][k - 1] == e;
        }
        if e in t[1..] {
          var i :| 1 <= i < |t| && t[i] == e;
          StrictlySortedDistinct(t, 0, i);
          assert e in s && e != s[0];
          var k :| 0 <= k < |s| && s[k] == e;
          assert s[1..][k - 1] == e;
        }
      }
      StrictlySortedUnique(s[1..], t[1..]);
      assert s == [s[0]] + s[1..] && t == [t[0]] + t[1..];
    }
  }

  lemma SortUniqueCanonical(s: seq<string>, t: seq<string>)
    requires StrictlySorted(t)
    requires forall e :: e in t <==> e in s
    ensures SortUnique(s) == t
  {
    StrictlySortedUnique(SortUnique(s), t);
  }
}

/**
 * Character-level string operations the dashboard relies on: lower-casing
 * (Python's `str.lower`, restricted to ASCII letters) and the literal
 * substring test behind `'NCT' in node` and pandas' `str.contains`.
 */
module Text {

  predicate IsUpper(c: char) {
    'A' <= c <= 'Z'
  }

  /** A string with no upper-case ASCII letter. */
  predicate IsLowerCase(s: string) {
    forall i :: 0 <= i < |s| ==> !IsUpper(s[i])
  }

  function LowerChar(c: char): (d: char)
    ensures !IsUpper(d)
    ensures IsUpper(c) ==> d as int == c as int + 32
    ensures !IsUpper(c) ==> d == c
  {
    if IsUpper(c) then (c as int + 32) as char else c
  }

  function Lower(s: string): (r: string)
    ensures |r| == |s|
    ensures forall i :: 0 <= i < |s| ==> r[i] == LowerChar(s[i])
  {
    seq(|s|, i requires 0 <= i < |s| => LowerChar(s[i]))
  }

  /** Lower-casing leaves no upper-case letter and changes exactly the strings that had one. */
  lemma LowerIsLowerCase(s: string)
    ensures IsLowerCase(Lower(s))
    ensures Lower(s) == s <==> IsLowerCase(s)
  {
    if IsLowerCase(s) {
      assert Lower(s) == s;
    } else {
      var i :| 0 <= i < |s| && IsUpper(s[i]);
      assert Lower(s)[i] != s[i];
    }
  }

  lemma LowerIdempotent(s: string)
    ensures Lower(Lower(s)) == Lower(s)
  {
    LowerIsLowerCase(Lower(s));
    LowerIsLowerCase(s);
  }

  predicate StartsWith(s: string, p: string) {
    |p| <= |s| && s[..|p|] == p
  }

  /** `p in s` for Python strings: `p` occurs in `s` as a contiguous substring. */
  predicate Contains(s: string, p: string)
    ensures Contains(s, p) ==> |p| <= |s|
    ensures p == [] ==> Contains(s, p)
    decreases |s|
  {
    StartsWith(s, p) || (|s| > 0 && Contains(s[1..], p))
  }

  /** `p` occurs in `s` starting at position `i`. */
  predicate OccursAt(s: string, p: string, i: int) {
    0 <= i <= |s| - |p| && s[i..i + |p|] == p
  }

  /** The recursive test agrees with the positional definition of a substring occurrence. */
  lemma {:induction false} ContainsAt(s: string, p: string)
    ensures Contains(s, p) <==> exists i :: OccursAt(s, p, i)
    decreases |s|
  {
    if StartsWith(s, p) {
      assert OccursAt(s, p, 0);
    } else if |s| == 0 {
      assert !OccursAt(s, p, 0);
    } else {
      ContainsAt(s[1..], p);
      if Contains(s[1..], p) {
        var i :| OccursAt(s[1..], p, i);
        assert s[i + 1..i + 1 + |p|] == s[1..][i..i + |p|];
        assert OccursAt(s, p, i + 1);
      } else {
        forall i | OccursAt(s, p, i) ensures OccursAt(s[1..], p, i - 1) {
          assert i != 0 by { assert s[..|p|] == s[0..0 + |p|]; }
          assert s[1..][i - 1..i - 1 + |p|] == s[i..i + |p|];
        }
      }
    }
  }

  /** An occurrence of `p` in `s` is still there once both are lower-cased. */
  lemma LowerKeepsOccurrence(s: string, p: string)
    ensures Contains(s, p) ==> Contains(Lower(s), Lower(p))
  {
    if Contains(s, p) {
      ContainsAt(s, p);
      var i :| OccursAt(s, p, i);
      assert Lower(s)[i..i + |p|] == Lower(p) by {
        forall k | 0 <= k < |p| ensures Lower(s)[i..i + |p|][k] == Lower(p)[k] {
          assert s[i..i + |p|][k] == p[k];
        }
      }
      assert OccursAt(Lower(s), Lower(p), i);
      ContainsAt(Lower(s), Lower(p));
    }
  }

  /**
   * pandas' `str.contains(p, case=False)`: a case-insensitive substring test,
   * on ASCII letters. It accepts every case-sensitive match.
   */
  predicate ContainsIgnoreCase(s: string, p: string)
    ensures Contains(s, p) ==> ContainsIgnoreCase(s, p)
    ensures ContainsIgnoreCase(s, p) ==> |p| <= |s|
  {
    LowerKeepsOccurrence(s, p);
    Contains(Lower(s), Lower(p))
  }
}

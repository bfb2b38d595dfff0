/**
 * The two string operations the `#[security_test]` macro relies on:
 * substring search (Rust's `str::contains`) and upper-casing (Rust's
 * `str::to_uppercase`, restricted here to ASCII).
 */
module Text {

  /** `s` begins with `p`. */
  predicate StartsWith(s: string, p: string)
  {
    |p| <= |s| && s[..|p|] == p
  }

  /**
   * Substring search as `str::contains` answers it: `k` is tried at every
   * position of `s` from the left. The empty needle is found in any text.
   */
  predicate Contains(s: string, k: string)
    decreases |s|
  {
    StartsWith(s, k) || (|s| > 0 && Contains(s[1..], k))
  }

  /** `k` sits in `s` at index `i`. */
  ghost predicate OccursAt(s: string, k: string, i: nat)
  {
    i + |k| <= |s| && s[i..i + |k|] == k
  }

  /** Reference definition of "`k` is a substring of `s`": some index holds it. */
  ghost predicate Occurs(s: string, k: string)
  {
    exists i: nat :: OccursAt(s, k, i)
  }

  /** The left-to-right search finds `k` exactly when `k` occurs somewhere in `s`. */
  lemma {:induction false} ContainsIffOccurs(s: string, k: string)
    ensures Contains(s, k) <==> Occurs(s, k)
    decreases |s|
  {
    if StartsWith(s, k) {
      assert OccursAt(s, k, 0);
    } else if |s| > 0 {
      ContainsIffOccurs(s[1..], k);
      if Occurs(s[1..], k) {
        var j: nat :| OccursAt(s[1..], k, j);
        assert s[1..][j..j + |k|] == s[j + 1..j + 1 + |k|];
        assert OccursAt(s, k, j + 1);
      }
      if Occurs(s, k) {
        var i: nat :| OccursAt(s, k, i);
        assert i > 0 by {
          assert s[0..|k|] == s[..|k|];
        }
        assert s[1..][i - 1..i - 1 + |k|] == s[i..i + |k|];
        assert OccursAt(s[1..], k, i - 1);
      }
    }
  }

  /** A substring of a substring of `s` is a substring of `s`. */
  lemma OccursTransitive(s: string, m: string, k: string)
    requires Occurs(s, m) && Occurs(m, k)
    ensures Occurs(s, k)
  {
    var i: nat :| OccursAt(s, m, i);
    var j: nat :| OccursAt(m, k, j);
    assert s[i + j..i + j + |k|] == k by {
      forall t | 0 <= t < |k|
        ensures s[i + j + t] == k[t]
      {
        assert k[t] == m[j..j + |k|][t] == m[j + t];
        assert m[j + t] == s[i..i + |m|][j + t] == s[i + j + t];
      }
    }
    assert OccursAt(s, k, i + j);
  }

  /** A word holding a character that `s` lacks cannot occur in `s`. */
  lemma AbsentWhenCharMissing(s: string, k: string, j: nat)
    requires j < |k| && k[j] !in s
    ensures !Occurs(s, k)
  {
  }

  /**
   * Joining two texts with a character that `k` does not contain creates no
   * new occurrence of `k`: it occurs in the whole exactly when it occurs in
   * one of the parts.
   */
  lemma OccursAcrossSeparator(a: string, c: char, b: string, k: string)
    requires c !in k
    ensures Occurs(a + [c] + b, k) <==> Occurs(a, k) || Occurs(b, k)
  {
    var s := a + [c] + b;
    if Occurs(a, k) {
      var i: nat :| OccursAt(a, k, i);
      assert s[i..i + |k|] == a[i..i + |k|];
      assert OccursAt(s, k, i);
    }
    if Occurs(b, k) {
      var j: nat :| OccursAt(b, k, j);
      assert s[|a| + 1 + j..|a| + 1 + j + |k|] == b[j..j + |k|];
      assert OccursAt(s, k, |a| + 1 + j);
    }
    if Occurs(s, k) {
      var i: nat :| OccursAt(s, k, i);
      if i + |k| <= |a| {
        assert a[i..i + |k|] == s[i..i + |k|];
        assert OccursAt(a, k, i);
      } else if i >= |a| + 1 {
        assert b[i - |a| - 1..i - |a| - 1 + |k|] == s[i..i + |k|];
        assert OccursAt(b, k, i - |a| - 1);
      } else {
        SeparatorInside(a, c, b, k, i);
        assert false;
      }
    }
  }

  /** An occurrence that spans the joint of `a + [c] + b` holds `c`. */
  lemma SeparatorInside(a: string, c: char, b: string, k: string, i: nat)
    requires OccursAt(a + [c] + b, k, i) && i <= |a| < i + |k|
    ensures k[|a| - i] == c
  {
    assert (a + [c] + b)[i..i + |k|][|a| - i] == (a + [c] + b)[|a|];
  }

  predicate IsAsciiLower(c: char)
  {
    'a' <= c <= 'z'
  }

  /** ASCII upper-casing of one character; every other character is kept. */
  function ToAsciiUpper(c: char): (u: char)
    ensures !IsAsciiLower(u)
    ensures u == c || (IsAsciiLower(c) && u as int == c as int - 32)
  {
    if IsAsciiLower(c) then (c as int - 32) as char else c
  }

  /** Upper-casing a string character by character. */
  function ToUpper(s: string): (r: string)
    ensures |r| == |s|
    ensures forall i :: 0 <= i < |s| ==> r[i] == ToAsciiUpper(s[i])
  {
    if s == [] then [] else [ToAsciiUpper(s[0])] + ToUpper(s[1..])
  }

  /** `x` and `y` are the same character up to ASCII letter case. */
  predicate SameIgnoringCase(x: char, y: char)
  {
    x == y
    || (IsAsciiLower(x) && y as int == x as int - 32)
    || (IsAsciiLower(y) && x as int == y as int - 32)
  }

  lemma ToAsciiUpperEqualIff(x: char, y: char)
    ensures ToAsciiUpper(x) == ToAsciiUpper(y) <==> SameIgnoringCase(x, y)
  {
  }

  /** Strings that differ in letter case only upper-case to the same text. */
  lemma SameIgnoringCaseUpperEqual(a: string, b: string)
    requires |a| == |b|
    requires forall i :: 0 <= i < |a| ==> SameIgnoringCase(a[i], b[i])
    ensures ToUpper(a) == ToUpper(b)
  {
    forall i | 0 <= i < |a|
      ensures ToUpper(a)[i] == ToUpper(b)[i]
    {
      ToAsciiUpperEqualIff(a[i], b[i]);
    }
  }

  /** Strings that upper-case to the same text differ in letter case only. */
  lemma UpperEqualSameIgnoringCase(a: string, b: string)
    requires ToUpper(a) == ToUpper(b)
    ensures |a| == |b|
    ensures forall i :: 0 <= i < |a| ==> SameIgnoringCase(a[i], b[i])
  {
    forall i | 0 <= i < |a|
      ensures SameIgnoringCase(a[i], b[i])
    {
      ToAsciiUpperEqualIff(a[i], b[i]);
    }
  }

  /** Two strings upper-case to the same text exactly when they differ in letter case only. */
  lemma ToUpperEqualIff(a: string, b: string)
    ensures ToUpper(a) == ToUpper(b)
        <==> |a| == |b| && forall i :: 0 <= i < |a| ==> SameIgnoringCase(a[i], b[i])
  {
    if ToUpper(a) == ToUpper(b) {
      UpperEqualSameIgnoringCase(a, b);
    } else if |a| == |b| && forall i :: 0 <= i < |a| ==> SameIgnoringCase(a[i], b[i]) {
      SameIgnoringCaseUpperEqual(a, b);
    }
  }
}

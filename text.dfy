/** The string operations the record store relies on: `length` (the filter threshold),
    `localeCompare` (sorting the text columns) and `indexOf` (filtering). A Dafny string is
    a sequence of Unicode scalar values; JavaScript measures strings in UTF-16 code units. */
module Text {

  /** The number of UTF-16 code units a scalar value takes: two (a surrogate pair) above
      U+FFFF, one otherwise. */
  function CodeUnits(ch: char): nat {
    if ch as int > 0xFFFF then 2 else 1
  }

  /** String.prototype.length: the number of UTF-16 code units of the string. It is at
      least the number of scalar values, at most twice that, and equal to it exactly when
      every scalar value lies in the Basic Multilingual Plane. */
  function JsLength(s: string): (n: nat)
    ensures |s| <= n <= 2 * |s|
    ensures n == |s| <==> forall i :: 0 <= i < |s| ==> s[i] as int <= 0xFFFF
  {
    if s == [] then 0
    else
      var n := CodeUnits(s[0]) + JsLength(s[1..]);
      assert forall i :: 1 <= i < |s| ==> s[1..][i - 1] == s[i];
      n
  }

  /** String.prototype.localeCompare, modelled as plain lexicographic order on scalar
      values (code points): negative when `a` sorts first, zero when equal, positive otherwise. */
  function LocaleCompare(a: string, b: string): (r: int)
    ensures -1 <= r <= 1
    ensures r == 0 <==> a == b
  {
    if a == [] then (if b == [] then 0 else -1)
    else if b == [] then 1
    else if a[0] < b[0] then -1
    else if a[0] > b[0] then 1
    else
      var r := LocaleCompare(a[1..], b[1..]);
      assert a == [a[0]] + a[1..] && b == [b[0]] + b[1..];
      r
  }

  /** Lexicographic order stated directly: `a` is a prefix of `b`, or at the first
      position where they differ `a` has the smaller code unit. */
  ghost predicate LexLe(a: string, b: string) {
    (|a| <= |b| && a == b[..|a|]) ||
    exists k :: 0 <= k < |a| && k < |b| && a[..k] == b[..k] && a[k] < b[k]
  }

  /** The comparator agrees with the direct definition of lexicographic order. */
  lemma {:induction false} LocaleCompareIsLex(a: string, b: string)
    ensures LocaleCompare(a, b) <= 0 <==> LexLe(a, b)
  {
    if a == [] || b == [] {
    } else if a[0] < b[0] {
      assert a[..0] == b[..0];
    } else if a[0] > b[0] {
    } else {
      LocaleCompareIsLex(a[1..], b[1..]);
      if LexLe(a[1..], b[1..]) {
        if |a[1..]| <= |b[1..]| && a[1..] == b[1..][..|a[1..]|] {
          assert a == [a[0]] + a[1..];
          assert b[..|a|] == [b[0]] + b[1..][..|a[1..]|];
        } else {
          var k :| 0 <= k < |a[1..]| && k < |b[1..]| && a[1..][..k] == b[1..][..k] && a[1..][k] < b[1..][k];
          assert a[..k + 1] == [a[0]] + a[1..][..k];
          assert b[..k + 1] == [b[0]] + b[1..][..k];
        }
      }
      if LexLe(a, b) {
        if |a| <= |b| && a == b[..|a|] {
          assert a[1..] == b[1..][..|a[1..]|];
        } else {
          var k :| 0 <= k < |a| && k < |b| && a[..k] == b[..k] && a[k] < b[k];
          assert k > 0;
          assert a[1..][..k - 1] == a[..k][1..] == b[..k][1..] == b[1..][..k - 1];
          assert a[1..][k - 1] < b[1..][k - 1];
        }
      }
    }
  }

  /** Swapping the operands negates the comparison. */
  lemma {:induction false} LocaleCompareAntisymmetric(a: string, b: string)
    ensures LocaleCompare(a, b) == -LocaleCompare(b, a)
  {
    if a != [] && b != [] && a[0] == b[0] {
      LocaleCompareAntisymmetric(a[1..], b[1..]);
    }
  }

  /** "Sorts no later than" is transitive. */
  lemma {:induction false} LocaleCompareTransitive(a: string, b: string, c: string)
    requires LocaleCompare(a, b) <= 0 && LocaleCompare(b, c) <= 0
    ensures LocaleCompare(a, c) <= 0
  {
    if a != [] && b != [] && c != [] && a[0] == b[0] == c[0] {
      LocaleCompareTransitive(a[1..], b[1..], c[1..]);
    }
  }

  /** `q` occurs in `s` starting at position `k`. */
  predicate OccursAt(q: string, s: string, k: nat) {
    k + |q| <= |s| && s[k..k + |q|] == q
  }

  /** `q` is a (case-sensitive) substring of `s`. */
  ghost predicate Contains(s: string, q: string) {
    exists k: nat :: OccursAt(q, s, k)
  }

  /** An occurrence at a known position makes `q` a substring of `s`. */
  lemma OccursAtWitness(q: string, s: string, k: nat)
    requires OccursAt(q, s, k)
    ensures Contains(s, q)
  {
  }

  /** The search behind String.prototype.indexOf, from a position inside the string: the
      first position at or after `from` where `q` occurs, or -1 when there is none. */
  function IndexOfFrom(s: string, q: string, from: nat): (r: int)
    requires from <= |s|
    ensures r == -1 || (from <= r && OccursAt(q, s, r))
    ensures forall k: nat :: from <= k && (r == -1 || k < r) ==> !OccursAt(q, s, k)
    decreases |s| - from
  {
    if from + |q| > |s| then -1
    else if OccursAt(q, s, from) then from
    else IndexOfFrom(s, q, from + 1)
  }

  /** String.prototype.indexOf: the first occurrence of `q` in `s`, or -1. */
  function IndexOf(s: string, q: string): (r: int)
    ensures r >= 0 <==> Contains(s, q)
    ensures r >= 0 ==> OccursAt(q, s, r) && forall k: nat :: k < r ==> !OccursAt(q, s, k)
  {
    IndexOfFrom(s, q, 0)
  }
}

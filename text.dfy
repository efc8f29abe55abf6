/**
 * The three pieces of Python string behaviour the rule layer relies on:
 * `str.lower()` (ASCII letters), `str.strip()` with no argument, and the
 * substring test `t in s`.
 */
module Text {

  /** The characters for which Python's `str.isspace()` is true; `str.strip()` removes exactly these. */
  predicate IsSpace(c: char) {
    || ('\t' <= c <= '\r')
    || ('\U{1C}' <= c <= ' ')
    || c == '\U{85}' || c == '\U{A0}' || c == '\U{1680}'
    || ('\U{2000}' <= c <= '\U{200A}')
    || c == '\U{2028}' || c == '\U{2029}' || c == '\U{202F}' || c == '\U{205F}' || c == '\U{3000}'
  }

  /** Lower-cases an ASCII letter and leaves every other character alone. */
  function LowerChar(c: char): char {
    if 'A' <= c <= 'Z' then (c as int + 32) as char else c
  }

  /** `s.lower()`, restricted to ASCII letters. */
  function Lower(s: string): (r: string)
    ensures |r| == |s|
    ensures forall i :: 0 <= i < |r| ==> !('A' <= r[i] <= 'Z')
    ensures forall i :: 0 <= i < |s| && !('A' <= s[i] <= 'Z') ==> r[i] == s[i]
    ensures forall i :: 0 <= i < |s| && 'A' <= s[i] <= 'Z' ==> r[i] as int == s[i] as int + 32
  {
    seq(|s|, i requires 0 <= i < |s| => LowerChar(s[i]))
  }

  /** `Lower(s)` is `t` as soon as the two agree character by character. */
  lemma LowerIs(s: string, t: string)
    requires |s| == |t|
    requires forall i :: 0 <= i < |s| ==> LowerChar(s[i]) == t[i]
    ensures Lower(s) == t
  {
  }

  /** Python's `t in s`, by the usual scan: `t` is a prefix of `s` or of some tail of `s`. */
  predicate Contains(s: string, t: string)
    decreases |s|
  {
    t <= s || (|s| > 0 && Contains(s[1..], t))
  }

  /** `t` occurs in `s` starting at index `i`: the reference meaning of `t in s`. */
  ghost predicate OccursAt(s: string, t: string, i: int) {
    0 <= i && i + |t| <= |s| && s[i..i + |t|] == t
  }

  lemma {:induction false} ContainsIffOccurs(s: string, t: string)
    ensures Contains(s, t) <==> exists i :: OccursAt(s, t, i)
  {
    if Contains(s, t) {
      ContainsThenOccurs(s, t);
    }
    if exists i :: OccursAt(s, t, i) {
      var i :| OccursAt(s, t, i);
      OccursThenContains(s, t, i);
    }
  }

  /** The scan only succeeds at a real occurrence. */
  lemma {:induction false} ContainsThenOccurs(s: string, t: string)
    requires Contains(s, t)
    ensures exists i :: OccursAt(s, t, i)
    decreases |s|
  {
    if t <= s {
      assert s[0..|t|] == t;
      assert OccursAt(s, t, 0);
    } else {
      ContainsThenOccurs(s[1..], t);
      var i :| OccursAt(s[1..], t, i);
      assert s[1..][i..i + |t|] == s[i + 1..i + 1 + |t|];
      assert OccursAt(s, t, i + 1);
    }
  }

  /** A witness occurrence is enough to establish `t in s`. */
  lemma {:induction false} OccursThenContains(s: string, t: string, i: int)
    requires OccursAt(s, t, i)
    ensures Contains(s, t)
    decreases i
  {
    if i == 0 {
      assert s[..|t|] == t;
    } else {
      assert s[1..][i - 1..i - 1 + |t|] == s[i..i + |t|];
      OccursThenContains(s[1..], t, i - 1);
    }
  }

  /** `t in (a + t + b)` always holds. */
  lemma ContainsInfix(a: string, t: string, b: string)
    ensures Contains(a + t + b, t)
  {
    assert (a + t + b)[|a|..|a| + |t|] == t;
    OccursThenContains(a + t + b, t, |a|);
  }

  /** Every character of an occurrence of `t` is a character of `s`. */
  lemma OccurrenceChars(s: string, t: string)
    ensures forall i, j :: OccursAt(s, t, i) && 0 <= j < |t| ==> t[j] in s
  {
    forall i, j | OccursAt(s, t, i) && 0 <= j < |t| ensures t[j] in s {
      assert s[i..i + |t|][j] == s[i + j];
    }
  }

  /** `t in s` is false as soon as some character of `t` appears nowhere in `s`. */
  lemma MissingCharNotContained(s: string, t: string, j: nat)
    requires j < |t| && t[j] !in s
    ensures !Contains(s, t)
  {
    OccurrenceChars(s, t);
    ContainsIffOccurs(s, t);
  }

  /** The scan from the left in `str.strip()`: the first index at or after `i` that is not whitespace. */
  function SkipSpaceFrom(s: string, i: nat): (n: nat)
    requires i <= |s|
    ensures i <= n <= |s|
    ensures forall k :: i <= k < n ==> IsSpace(s[k])
    ensures n < |s| ==> !IsSpace(s[n])
    decreases |s| - i
  {
    if i < |s| && IsSpace(s[i]) then SkipSpaceFrom(s, i + 1) else i
  }

  /** The scan from the right in `str.strip()`: the end index, not below `lo`, once trailing whitespace before `j` is dropped. */
  function SkipSpaceBefore(s: string, lo: nat, j: nat): (m: nat)
    requires lo <= j <= |s|
    ensures lo <= m <= j
    ensures forall k :: m <= k < j ==> IsSpace(s[k])
    ensures m > lo ==> !IsSpace(s[m - 1])
    decreases j
  {
    if j > lo && IsSpace(s[j - 1]) then SkipSpaceBefore(s, lo, j - 1) else j
  }

  /** Where the block kept by `s.strip()` begins. */
  function StripStart(s: string): nat {
    SkipSpaceFrom(s, 0)
  }

  /**
   * `s.strip()`: the result is the block of `s` left after removing whitespace
   * at both ends; it is empty exactly when `s` is all whitespace.
   */
  function Strip(s: string): (r: string)
    ensures var start := StripStart(s);
      && start + |r| <= |s|
      && r == s[start..start + |r|]
      && (forall k :: 0 <= k < start ==> IsSpace(s[k]))
      && (forall k :: start + |r| <= k < |s| ==> IsSpace(s[k]))
    ensures r == [] || (!IsSpace(r[0]) && !IsSpace(r[|r| - 1]))
    ensures r == [] <==> forall k :: 0 <= k < |s| ==> IsSpace(s[k])
  {
    var i := SkipSpaceFrom(s, 0);
    var j := SkipSpaceBefore(s, i, |s|);
    assert i < |s| ==> j > i;
    s[i..j]
  }

  /** Stripping a string that neither starts nor ends with whitespace leaves it unchanged. */
  lemma StripUntrimmed(m: string)
    requires m == [] || (!IsSpace(m[0]) && !IsSpace(m[|m| - 1]))
    ensures Strip(m) == m
  {
    if m != [] {
      assert StripStart(m) == 0;
    }
  }

  /** `s.strip()` is idempotent. */
  lemma StripIdempotent(s: string)
    ensures Strip(Strip(s)) == Strip(s)
  {
    StripUntrimmed(Strip(s));
  }

  /** Whitespace padding on either side of `m` is exactly what `strip()` removes. */
  lemma {:induction false} StripPadded(a: string, m: string, b: string)
    requires forall k :: 0 <= k < |a| ==> IsSpace(a[k])
    requires forall k :: 0 <= k < |b| ==> IsSpace(b[k])
    requires m != [] && !IsSpace(m[0]) && !IsSpace(m[|m| - 1])
    ensures Strip(a + m + b) == m
  {
    var s := a + m + b;
    var start := StripStart(s);
    var r := Strip(s);
    assert forall k :: 0 <= k < |a| ==> s[k] == a[k];
    assert forall k :: 0 <= k < |b| ==> s[|a| + |m| + k] == b[k];
    assert s[|a|] == m[0] && s[|a| + |m| - 1] == m[|m| - 1];
    // The block kept by strip() starts at m[0] and ends at m[|m| - 1].
    assert !IsSpace(s[|a|]) && !IsSpace(s[|a| + |m| - 1]);
    assert r != [];
    assert r[0] == s[start] && r[|r| - 1] == s[start + |r| - 1];
    assert start == |a|;
    assert start + |r| == |a| + |m|;
    assert s[|a|..|a| + |m|] == m;
  }
}

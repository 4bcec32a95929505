/** String helpers the classifiers are built from: Python's `in` on strings,
    `str.lower`, `str.strip`, slicing `s[:n]` and decimal rendering of a
    non-negative integer. `lower` and `strip` are ASCII approximations of
    Python's Unicode-aware methods. */
module Text {

  /* ---------------- substring search (Python `p in s`) ---------------- */

  /** `p` occurs in `s` starting at index `i`. */
  predicate OccursAt(s: string, p: string, i: int) {
    0 <= i && i + |p| <= |s| && s[i..i + |p|] == p
  }

  predicate StartsWith(s: string, p: string) {
    |p| <= |s| && s[..|p|] == p
  }

  /** Python's `p in s`: try every start position from the left. */
  predicate Contains(s: string, p: string)
    decreases |s|
  {
    StartsWith(s, p) || (|s| > 0 && Contains(s[1..], p))
  }

  /** The search agrees with the positional definition of an occurrence. */
  lemma {:induction false} ContainsIffOccurs(s: string, p: string)
    ensures Contains(s, p) <==> exists i :: OccursAt(s, p, i)
    decreases |s|
  {
    if StartsWith(s, p) {
      assert OccursAt(s, p, 0);
    } else if |s| > 0 {
      ContainsIffOccurs(s[1..], p);
      if Contains(s[1..], p) {
        var i :| OccursAt(s[1..], p, i);
        assert s[1..][i..i + |p|] == s[i + 1..i + 1 + |p|];
        assert OccursAt(s, p, i + 1);
      }
      forall i | 0 < i && OccursAt(s, p, i) ensures OccursAt(s[1..], p, i - 1) {
        assert s[1..][i - 1..i - 1 + |p|] == s[i..i + |p|];
      }
    }
  }

  /** An occurrence of `q` in `s` carries every occurrence inside `q` with it. */
  lemma ContainsThrough(s: string, q: string, p: string)
    requires Contains(s, q) && Contains(q, p)
    ensures Contains(s, p)
  {
    ContainsIffOccurs(s, q);
    ContainsIffOccurs(q, p);
    var i :| OccursAt(s, q, i);
    var j :| OccursAt(q, p, j);
    forall k | 0 <= k < |p| ensures s[i + j + k] == p[k] {
      assert s[i..i + |q|][j + k] == q[j + k];
      assert q[j..j + |p|][k] == q[j + k];
    }
    assert s[i + j..i + j + |p|] == p;
    assert OccursAt(s, p, i + j);
    ContainsIffOccurs(s, p);
  }

  /* ---------------- ASCII lower-casing (Python `str.lower`) ---------------- */

  predicate IsUpper(c: char) {
    'A' <= c <= 'Z'
  }

  function LowerChar(c: char): char {
    if IsUpper(c) then (c as int + 32) as char else c
  }

  const UpperAlphabet: string := "ABCDEFGHIJKLMNOPQRSTUVWXYZ"
  const LowerAlphabet: string := "abcdefghijklmnopqrstuvwxyz"

  /** The `k`-th capital and the `k`-th small letter are 32 code points
      apart, so `LowerChar` maps each capital to its own small letter. */
  lemma AlphabetsAligned()
    ensures |UpperAlphabet| == |LowerAlphabet| == 26
    ensures forall k :: 0 <= k < 26 ==> UpperAlphabet[k] as int == 'A' as int + k
    ensures forall k :: 0 <= k < 26 ==> LowerAlphabet[k] as int == 'a' as int + k
  {
  }

  /** Lower-cases the ASCII letters of `s` and keeps every other character. */
  function ToLower(s: string): (r: string)
    ensures |r| == |s|
    ensures forall i :: 0 <= i < |s| ==> r[i] == LowerChar(s[i])
  {
    seq(|s|, i requires 0 <= i < |s| => LowerChar(s[i]))
  }

  /** Against the alphabet: the capital at position `k` of "A".."Z" becomes
      the letter at position `k` of "a".."z", and every other character is
      kept. */
  lemma ToLowerMapsAlphabet(s: string)
    ensures |ToLower(s)| == |s|
    ensures forall i, k :: 0 <= i < |s| && 0 <= k < |UpperAlphabet| && s[i] == UpperAlphabet[k] ==> ToLower(s)[i] == LowerAlphabet[k]
    ensures forall i :: 0 <= i < |s| && s[i] !in UpperAlphabet ==> ToLower(s)[i] == s[i]
  {
    AlphabetsAligned();
  }

  /** Lower-casing leaves no upper-case letter and is idempotent. */
  lemma ToLowerNormalises(s: string)
    ensures forall i :: 0 <= i < |s| ==> !IsUpper(ToLower(s)[i])
    ensures ToLower(ToLower(s)) == ToLower(s)
  {
  }

  /** Two strings lower-case alike exactly when they agree letter by letter up
      to ASCII case. */
  lemma ToLowerEqIff(s: string, t: string)
    ensures ToLower(s) == t <==>
              |s| == |t| && forall i :: 0 <= i < |s| ==> LowerChar(s[i]) == t[i]
  {
    if |s| == |t| && forall i :: 0 <= i < |s| ==> LowerChar(s[i]) == t[i] {
      assert forall i :: 0 <= i < |s| ==> ToLower(s)[i] == t[i];
    }
  }

  /** Lower-casing keeps every occurrence, lower-cased. */
  lemma ContainsToLower(s: string, p: string)
    requires Contains(s, p)
    ensures Contains(ToLower(s), ToLower(p))
  {
    ContainsIffOccurs(s, p);
    var i :| OccursAt(s, p, i);
    forall k | 0 <= k < |p| ensures ToLower(s)[i + k] == ToLower(p)[k] {
      assert s[i..i + |p|][k] == s[i + k];
    }
    assert ToLower(s)[i..i + |p|] == ToLower(p);
    assert OccursAt(ToLower(s), ToLower(p), i);
    ContainsIffOccurs(ToLower(s), ToLower(p));
  }

  /* ---------------- whitespace strip (Python `str.strip()`) ---------------- */

  /** The ASCII characters for which Python's `str.isspace` holds. */
  predicate IsSpace(c: char) {
    c == ' ' || '\t' <= c <= '\r' || '\U{1C}' <= c <= '\U{1F}'
  }

  predicate AllSpace(s: string) {
    forall i :: 0 <= i < |s| ==> IsSpace(s[i])
  }

  /** Every character of `s[lo..hi]` is whitespace. */
  predicate SpaceBetween(s: string, lo: int, hi: int) {
    0 <= lo && hi <= |s| && forall k :: lo <= k < hi ==> IsSpace(s[k])
  }

  /** The first index from `i` on that does not hold whitespace (or `|s|`). */
  function SkipSpace(s: string, i: nat): (r: nat)
    requires i <= |s|
    ensures i <= r <= |s| && SpaceBetween(s, i, r)
    ensures r == |s| || !IsSpace(s[r])
    decreases |s| - i
  {
    if i < |s| && IsSpace(s[i]) then SkipSpace(s, i + 1) else i
  }

  /** The end of `s[lo..j]` once its trailing whitespace is dropped. */
  function SkipSpaceBack(s: string, lo: nat, j: nat): (r: nat)
    requires lo <= j <= |s|
    ensures lo <= r <= j && SpaceBetween(s, r, j)
    ensures r == lo || !IsSpace(s[r - 1])
    decreases j - lo
  {
    if lo < j && IsSpace(s[j - 1]) then SkipSpaceBack(s, lo, j - 1) else j
  }

  /** `r` is `s[i..j]` with only whitespace outside it. */
  predicate SliceWithin(s: string, r: string, i: int, j: int) {
    0 <= i <= j <= |s| && r == s[i..j] && SpaceBetween(s, 0, i) && SpaceBetween(s, j, |s|)
  }

  /** Python's `s.strip()`: scan past the leading whitespace, then back over
      the trailing whitespace. */
  function Strip(s: string): string {
    var i := SkipSpace(s, 0);
    s[i..SkipSpaceBack(s, i, |s|)]
  }

  /** `s.strip()` is a slice `s[i..j]` of `s` with only whitespace outside it
      and no whitespace at either end of it. */
  lemma StripSlice(s: string)
    ensures exists i, j :: SliceWithin(s, Strip(s), i, j)
    ensures Strip(s) == [] || (!IsSpace(Strip(s)[0]) && !IsSpace(Strip(s)[|Strip(s)| - 1]))
  {
    var i := SkipSpace(s, 0);
    var j := SkipSpaceBack(s, i, |s|);
    assert SliceWithin(s, Strip(s), i, j);
  }

  /** `not s.strip()` holds exactly for all-whitespace strings. */
  lemma StripEmptyIff(s: string)
    ensures Strip(s) == [] <==> AllSpace(s)
  {
    var i := SkipSpace(s, 0);
    var j := SkipSpaceBack(s, i, |s|);
    if i < j {
      assert s[i] == Strip(s)[0];
    }
  }

  /** Stripping `core` padded with whitespace gives `core` back when `core`
      neither starts nor ends with whitespace. */
  lemma StripPadded(s: string, i: nat, j: nat)
    requires i < j <= |s| && SpaceBetween(s, 0, i) && SpaceBetween(s, j, |s|)
    requires !IsSpace(s[i]) && !IsSpace(s[j - 1])
    ensures Strip(s) == s[i..j]
  {
    var a := SkipSpace(s, 0);
    assert a == i by {
      assert !(a < i) by { assert IsSpace(s[a]) || a >= i; }
    }
    var b := SkipSpaceBack(s, i, |s|);
    assert b == j by {
      assert !(b > j) by { assert IsSpace(s[b - 1]) || b <= j; }
    }
  }

  /* ---------------- slicing (Python `s[:n]`) ---------------- */

  /** The first `n` characters of `s`, or all of it when it is shorter. */
  function Take(s: string, n: nat): (r: string)
    ensures |r| == if |s| <= n then |s| else n
    ensures StartsWith(s, r)
  {
    if |s| <= n then s else s[..n]
  }

  /* ---------------- decimal rendering (Python `str(n)` / f-strings) ---------------- */

  predicate IsDigit(c: char) {
    '0' <= c <= '9'
  }

  function DigitChar(d: nat): (c: char)
    requires d < 10
    ensures IsDigit(c)
  {
    ('0' as int + d) as char
  }

  /** The value of a digit character. */
  function DigitValue(c: char): nat {
    if IsDigit(c) then c as int - '0' as int else 0
  }

  /** The number a string of decimal digits denotes, most significant first. */
  ghost function DecimalValue(s: string): nat
    decreases |s|
  {
    if |s| == 0 then 0 else 10 * DecimalValue(s[..|s| - 1]) + DigitValue(s[|s| - 1])
  }

  /** Decimal digits of `n`, most significant first, without leading zeros. */
  function NatToString(n: nat): (r: string)
    ensures |r| > 0
    ensures forall i :: 0 <= i < |r| ==> IsDigit(r[i])
    ensures DecimalValue(r) == n
    ensures r[0] == '0' <==> n == 0
    ensures |r| > 1 ==> r[0] != '0'
    ensures n >= 10 ==> |r| >= 2
    decreases n
  {
    if n < 10 then [DigitChar(n)]
    else
      var head := NatToString(n / 10);
      var r := head + [DigitChar(n % 10)];
      assert r[..|r| - 1] == head;
      r
  }

  /** Different numbers render differently. */
  lemma {:induction false} NatToStringInjective(a: nat, b: nat)
    requires NatToString(a) == NatToString(b)
    ensures a == b
    decreases a
  {
    if a < 10 && b < 10 {
      assert NatToString(a)[0] == DigitChar(a);
    } else if a >= 10 && b >= 10 {
      var sa, sb := NatToString(a), NatToString(b);
      assert sa[|sa| - 1] == DigitChar(a % 10);
      assert sb[|sb| - 1] == DigitChar(b % 10);
      assert sa[..|sa| - 1] == NatToString(a / 10);
      assert sb[..|sb| - 1] == NatToString(b / 10);
      NatToStringInjective(a / 10, b / 10);
    }
  }
}

/** The few `java.lang.String` operations the core relies on:
    prefixes, decimal rendering of integers, `trim` and `equalsIgnoreCase`. */
module Text {

  /** `s.startsWith(prefix)`. */
  predicate StartsWith(s: string, prefix: string) {
    |prefix| <= |s| && s[..|prefix|] == prefix
  }

  predicate IsDigit(c: char) { '0' <= c <= '9' }

  predicate AllDigits(s: string) { forall i :: 0 <= i < |s| ==> IsDigit(s[i]) }

  function DigitChar(d: nat): (c: char)
    requires d < 10
    ensures IsDigit(c) && c as int - '0' as int == d
  {
    ['0', '1', '2', '3', '4', '5', '6', '7', '8', '9'][d]
  }

  /** `String.valueOf(n)` for a non-negative integer: its shortest decimal form. */
  function NatToString(n: nat): (s: string)
    ensures |s| >= 1 && AllDigits(s)
    ensures |s| > 1 ==> s[0] != '0'
  {
    if n < 10 then [DigitChar(n)] else NatToString(n / 10) + [DigitChar(n % 10)]
  }

  /** `String.valueOf(i)` (and string concatenation `"..." + i`) for any integer. */
  function IntToString(i: int): (s: string)
    ensures |s| >= 1
    ensures i >= 0 ==> AllDigits(s)
    ensures i < 0 ==> s[0] == '-' && AllDigits(s[1..])
  {
    if i < 0 then "-" + NatToString(-i) else NatToString(i)
  }

  /** The value of a string of decimal digits: the reference reading of `NatToString`. */
  function DigitsValue(s: string): nat
    requires AllDigits(s)
  {
    if s == [] then 0 else 10 * DigitsValue(s[..|s| - 1]) + (s[|s| - 1] as int - '0' as int)
  }

  /** Reading back a rendered number gives the number. */
  lemma {:induction false} NatToStringRoundTrip(n: nat)
    ensures DigitsValue(NatToString(n)) == n
  {
    var s := NatToString(n);
    if n >= 10 {
      NatToStringRoundTrip(n / 10);
      assert s[..|s| - 1] == NatToString(n / 10);
    }
  }

  /** Distinct numbers render to distinct strings. */
  lemma NatToStringInjective(m: nat, n: nat)
    requires NatToString(m) == NatToString(n)
    ensures m == n
  {
    NatToStringRoundTrip(m);
    NatToStringRoundTrip(n);
  }

  /** A number with `k + 1` decimal digits renders to exactly `k + 1` characters. */
  lemma {:induction false} NatToStringLength(n: nat, k: nat)
    requires Pow10(k) <= n < Pow10(k + 1) || (k == 0 && n < 10)
    ensures |NatToString(n)| == k + 1
  {
    if k > 0 {
      NatToStringLength(n / 10, k - 1);
    }
  }

  function Pow10(k: nat): (p: nat)
    ensures p >= 1
  {
    if k == 0 then 1 else 10 * Pow10(k - 1)
  }

  /** Every number in [100000, 999999] renders to exactly six digits. */
  lemma SixDigits(n: nat)
    requires 100000 <= n <= 999999
    ensures |NatToString(n)| == 6 && AllDigits(NatToString(n))
  {
    assert Pow10(5) == 100000 && Pow10(6) == 1000000;
    NatToStringLength(n, 5);
  }

  /** `String.trim`: whether `c` is stripped (every code point up to U+0020). */
  predicate IsTrimmed(c: char) { c as int <= ' ' as int }

  /** `s.trim()`: drops the characters at or below U+0020 at both ends. */
  function Trim(s: string): (r: string)
    ensures |r| <= |s|
    ensures r != [] ==> !IsTrimmed(r[0]) && !IsTrimmed(r[|r| - 1])
    ensures exists i, j :: 0 <= i <= j <= |s| && r == s[i..j]
              && (forall k :: 0 <= k < i ==> IsTrimmed(s[k]))
              && (forall k :: j <= k < |s| ==> IsTrimmed(s[k]))
  {
    var i := TrimStart(s, 0);
    var j := TrimEnd(s, i, |s|);
    s[i..j]
  }

  /** The index of the first character at or after `i` that `trim` keeps, or `|s|`. */
  function TrimStart(s: string, i: nat): (k: nat)
    requires i <= |s|
    requires forall m :: 0 <= m < i ==> IsTrimmed(s[m])
    ensures i <= k <= |s|
    ensures forall m :: 0 <= m < k ==> IsTrimmed(s[m])
    ensures k < |s| ==> !IsTrimmed(s[k])
    decreases |s| - i
  {
    if i == |s| || !IsTrimmed(s[i]) then i else TrimStart(s, i + 1)
  }

  /** The end of the kept region: the last kept character lies before `k`. */
  function TrimEnd(s: string, lo: nat, j: nat): (k: nat)
    requires lo <= j <= |s|
    requires lo < |s| ==> !IsTrimmed(s[lo])
    requires forall m :: j <= m < |s| ==> IsTrimmed(s[m])
    ensures lo <= k <= j
    ensures forall m :: k <= m < |s| ==> IsTrimmed(s[m])
    ensures k > lo ==> !IsTrimmed(s[k - 1])
    ensures lo < |s| ==> k > lo
    decreases j
  {
    if j == lo || !IsTrimmed(s[j - 1]) then j else TrimEnd(s, lo, j - 1)
  }

  /** `Character.toUpperCase` on the characters that can fold onto the letters of
      "ping": ASCII letters, and U+0131 (dotless i), whose upper case is 'I'. */
  function ToUpper(c: char): char {
    if 'a' <= c <= 'z' then (c as int - 32) as char
    else if c == '\U{131}' then 'I'
    else c
  }

  /** `Character.toLowerCase` on ASCII letters, and U+0130 (dotted capital I),
      whose lower case is 'i'. */
  function ToLower(c: char): char {
    if 'A' <= c <= 'Z' then (c as int + 32) as char
    else if c == '\U{130}' then 'i'
    else c
  }

  /** The per-character test of `String.equalsIgnoreCase`: equal, equal after
      upper-casing, or equal after lower-casing the upper-cased characters. */
  predicate CharEqualsIgnoreCase(a: char, b: char) {
    a == b || ToUpper(a) == ToUpper(b) || ToLower(ToUpper(a)) == ToLower(ToUpper(b))
  }

  /** `s.equalsIgnoreCase(t)`. */
  predicate EqualsIgnoreCase(s: string, t: string) {
    |s| == |t| && forall i :: 0 <= i < |s| ==> CharEqualsIgnoreCase(s[i], t[i])
  }
}

/**
 * String helpers the checker relies on: decimal rendering of numbers (Java's
 * string concatenation of an int), and the java.lang.String predicates
 * startsWith, endsWith, contains and split("=")[0].
 */
module Strings {

  predicate IsDigit(c: char) { '0' <= c <= '9' }

  predicate AllDigits(s: string) { forall k :: 0 <= k < |s| ==> IsDigit(s[k]) }

  function DigitChar(d: nat): (c: char)
    requires d < 10
    ensures IsDigit(c) && DigitValue(c) == d
  { "0123456789"[d] }

  /** The value of a decimal digit. */
  function DigitValue(c: char): nat
    requires IsDigit(c)
  { c as int - '0' as int }

  /** The number a string of decimal digits denotes. */
  function ParseNat(s: string): nat
    requires AllDigits(s)
  {
    if s == [] then 0 else 10 * ParseNat(s[..|s| - 1]) + DigitValue(s[|s| - 1])
  }

  /** Decimal rendering of a natural number, without leading zeros. */
  function NatToString(n: nat): (s: string)
    ensures |s| > 0 && AllDigits(s)
    ensures ParseNat(s) == n
    ensures n > 0 ==> s[0] != '0'
  {
    if n < 10 then [DigitChar(n)]
    else
      var prefix := NatToString(n / 10);
      var s := prefix + [DigitChar(n % 10)];
      assert s[..|s| - 1] == prefix;
      s
  }

  /** Two numbers render alike only when they are equal. */
  lemma NatToStringInjective(m: nat, n: nat)
    requires NatToString(m) == NatToString(n)
    ensures m == n
  {
  }

  /** Decimal rendering of an int as Java's Integer.toString gives it. */
  function IntToString(i: int): (s: string)
    ensures |s| > 0
    ensures i >= 0 ==> AllDigits(s) && ParseNat(s) == i
    ensures i < 0 ==> s[0] == '-' && AllDigits(s[1..]) && ParseNat(s[1..]) == -i
  {
    if i < 0 then
      var s := "-" + NatToString(-i);
      assert s[1..] == NatToString(-i);
      s
    else NatToString(i)
  }

  predicate StartsWith(s: string, prefix: string) {
    |prefix| <= |s| && s[..|prefix|] == prefix
  }

  predicate EndsWith(s: string, suffix: string) {
    |suffix| <= |s| && s[|s| - |suffix|..] == suffix
  }

  /** s contains p as a contiguous substring. */
  predicate Contains(s: string, p: string)
    decreases |s|
  {
    StartsWith(s, p) || (|s| > 0 && Contains(s[1..], p))
  }

  /** The text before the first occurrence of c (the whole string when c is absent). */
  function BeforeFirst(s: string, c: char): (r: string)
    ensures StartsWith(s, r)
    ensures c !in r
    ensures |r| < |s| ==> s[|r|] == c
  {
    if s == [] || s[0] == c then [] else [s[0]] + BeforeFirst(s[1..], c)
  }

  /** u + v starts with u, and dropping |u| characters leaves v. */
  lemma JoinedParts(u: string, v: string)
    ensures StartsWith(u + v, u) && (u + v)[|u|..] == v
  {
  }

  /** Splitting u + c + v at its first c gives back u when c does not occur in u. */
  lemma {:induction false} BeforeFirstOfJoined(u: string, c: char, v: string)
    requires c !in u
    ensures BeforeFirst(u + [c] + v, c) == u
  {
    if u != [] {
      assert (u + [c] + v)[1..] == u[1..] + [c] + v;
      BeforeFirstOfJoined(u[1..], c, v);
    }
  }

  /** s repeated k times: it starts with s and repeats with period |s|. */
  function Repeat(s: string, k: nat): (r: string)
    ensures |r| == k * |s|
    ensures k > 0 ==> r[..|s|] == s
    ensures forall j :: |s| <= j < |r| ==> r[j] == r[j - |s|]
  {
    if k == 0 then []
    else
      var prev := Repeat(s, k - 1);
      var r := prev + s;
      assert k - 1 > 0 ==> r[..|s|] == prev[..|s|];
      r
  }

  function Concat(parts: seq<string>): string {
    if parts == [] then [] else Concat(parts[..|parts| - 1]) + parts[|parts| - 1]
  }

  /** The parts separated by sep. */
  function Join(parts: seq<string>, sep: string): string {
    if parts == [] then []
    else if |parts| == 1 then parts[0]
    else Join(parts[..|parts| - 1], sep) + sep + parts[|parts| - 1]
  }
}

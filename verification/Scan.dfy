/** Decimal text: the `%d` conversions of the kernel's sscanf and sprintf. */
module Scan {
  import opened Options

  predicate IsDigit(c: char) {
    '0' <= c <= '9'
  }

  predicate IsSpace(c: char) {
    c == ' ' || '\t' <= c <= '\r' || c == '\U{00A0}'
  }

  function Digit(n: nat): (c: char)
    requires n < 10
    ensures IsDigit(c) && DigitValue(c) == n
  {
    '0' + n as char
  }

  function DigitValue(c: char): (n: nat)
    requires IsDigit(c)
    ensures n < 10
  {
    (c - '0') as int
  }

  function SkipSpaces(s: string): string {
    if s != "" && IsSpace(s[0]) then SkipSpaces(s[1..]) else s
  }

  /** Length of the longest prefix of digits. */
  function DigitRun(s: string): (n: nat)
    ensures n <= |s|
    ensures forall k :: 0 <= k < n ==> IsDigit(s[k])
    ensures n < |s| ==> !IsDigit(s[n])
  {
    if s != "" && IsDigit(s[0]) then 1 + DigitRun(s[1..]) else 0
  }

  /** The number a string of digits spells. */
  function Number(s: string): nat
    requires forall k :: 0 <= k < |s| ==> IsDigit(s[k])
  {
    if s == "" then 0 else Number(s[..|s| - 1]) * 10 + DigitValue(s[|s| - 1])
  }

  /** Truncation to a signed 32-bit integer. */
  function S32(x: int): int {
    (x + 0x8000_0000) % 0x1_0000_0000 - 0x8000_0000
  }

  /** One `%d`: skips spaces, accepts a minus sign, needs a digit; yields the value and the rest. */
  function ScanInt(s: string): Option<(int, string)> {
    var t := SkipSpaces(s);
    var neg := t != "" && t[0] == '-';
    var u := if neg then t[1..] else t;
    var n := DigitRun(u);
    if n == 0 then None
    else Some((S32(if neg then 0 - Number(u[..n]) else Number(u[..n])), u[n..]))
  }

  /** The digits `%d` prints for a non-negative number. */
  function Decimal(n: nat): (s: string)
    ensures |s| > 0 && forall k :: 0 <= k < |s| ==> IsDigit(s[k])
  {
    if n < 10 then [Digit(n)] else Decimal(n / 10) + [Digit(n % 10)]
  }

  lemma {:induction false} NumberOfDecimal(n: nat)
    ensures Number(Decimal(n)) == n
  {
    if n >= 10 {
      NumberOfDecimal(n / 10);
      assert Decimal(n)[..|Decimal(n)| - 1] == Decimal(n / 10);
    }
  }

  lemma {:induction false} DigitRunIs(s: string, n: nat)
    requires n <= |s|
    requires forall k :: 0 <= k < n ==> IsDigit(s[k])
    requires n < |s| ==> !IsDigit(s[n])
    ensures DigitRun(s) == n
  {
    if n > 0 {
      DigitRunIs(s[1..], n - 1);
    }
  }

  /** What one `%d` reads of text that starts with digits `d` and goes on with something else. */
  lemma ScanDigits(s: string, d: string, rest: string)
    requires |d| > 0 && (forall k :: 0 <= k < |d| ==> IsDigit(d[k])) && s == d + rest
    requires rest != "" ==> !IsDigit(rest[0])
    ensures ScanInt(s) == Some((S32(Number(d)), rest))
  {
    SplitAt(d, rest);
    NoSpaces(s);
    DigitRunIs(s, |d|);
  }

  lemma NoSpaces(s: string)
    requires s != "" && IsDigit(s[0])
    ensures SkipSpaces(s) == s
  {
  }

  lemma SplitAt(d: string, rest: string)
    ensures (d + rest)[..|d|] == d && (d + rest)[|d|..] == rest
    ensures forall k :: 0 <= k < |d| ==> (d + rest)[k] == d[k]
    ensures rest != "" ==> (d + rest)[|d|] == rest[0]
  {
  }

  lemma S32Small(n: nat)
    requires n < 0x8000_0000
    ensures S32(n) == n
  {
  }

  /** Scanning what was printed gives the number back and stops right behind it. */
  lemma ScanPrinted(n: nat, rest: string)
    requires n < 0x8000_0000
    requires rest == "" || !IsDigit(rest[0])
    ensures ScanInt(Decimal(n) + rest) == Some((n, rest))
  {
    NumberOfDecimal(n);
    ScanDigits(Decimal(n) + rest, Decimal(n), rest);
    S32Small(n);
  }

  /** Spaces before a number are skipped. */
  lemma ScanSpace(c: char, s: string)
    requires IsSpace(c)
    ensures ScanInt([c] + s) == ScanInt(s)
  {
    assert ([c] + s)[1..] == s;
  }

  /** A minus sign in front of a printed number negates it. */
  lemma {:induction false} ScanNegative(n: nat, rest: string)
    requires n <= 0x8000_0000
    requires rest == "" || !IsDigit(rest[0])
    ensures ScanInt("-" + (Decimal(n) + rest)) == Some((0 - n, rest))
  {
    NumberOfDecimal(n);
    ScanMinus(Decimal(n), rest);
    S32Negative(n);
  }

  lemma S32Negative(n: nat)
    requires n <= 0x8000_0000
    ensures S32(0 - n) == 0 - n
  {
  }

  lemma {:induction false} ScanMinus(d: string, rest: string)
    requires |d| > 0 && (forall k :: 0 <= k < |d| ==> IsDigit(d[k])) && (rest != "" ==> !IsDigit(rest[0]))
    ensures ScanInt("-" + (d + rest)) == Some((S32(0 - Number(d)), rest))
  {
    var s := "-" + (d + rest);
    assert s[0] == '-' && SkipSpaces(s) == s && s[1..] == d + rest;
    SplitAt(d, rest);
    DigitRunIs(d + rest, |d|);
  }

  /** Text that starts with neither a space, a sign nor a digit scans as nothing. */
  lemma ScanNothing(s: string)
    requires s == "" || !(IsSpace(s[0]) || s[0] == '-' || IsDigit(s[0]))
    ensures ScanInt(s).None?
  {
  }
}

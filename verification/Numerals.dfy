/** Number text as the C++ library reads and writes it: `std::to_string`, `std::stoi` and
    `std::strtoul(..., 16)`, with the saturation and range checks of those functions. */
module Numerals {
  import opened Machine
  import opened Wrappers

  predicate IsSpace(c: char) {
    c == ' ' || c == '\t' || c == '\n' || c == '\r' || c == 11 as char || c == 12 as char
  }

  /** The value of a digit in bases up to 16, or None for a character that is no digit. */
  function DigitValue(c: char): (v: Option<nat>)
    ensures v.Some? ==> v.value < 16
  {
    if '0' <= c <= '9' then Some((c - '0') as nat)
    else if 'a' <= c <= 'f' then Some(10 + (c - 'a') as nat)
    else if 'A' <= c <= 'F' then Some(10 + (c - 'A') as nat)
    else None
  }

  predicate IsDigit(c: char, base: nat) {
    DigitValue(c).Some? && DigitValue(c).value < base
  }

  predicate AllDigits(s: string, base: nat) {
    forall k :: 0 <= k < |s| ==> IsDigit(s[k], base)
  }

  /** Positional value of a string of digits. */
  function Value(s: string, base: nat): nat
    requires AllDigits(s, base)
  {
    if s == [] then 0
    else Value(s[..|s| - 1], base) * base + DigitValue(s[|s| - 1]).value
  }

  /** How many digits `s` starts with. */
  function LeadingDigits(s: string, base: nat): (n: nat)
    ensures n <= |s| && AllDigits(s[..n], base)
    ensures n < |s| ==> !IsDigit(s[n], base)
  {
    if s == [] || !IsDigit(s[0], base) then 0
    else
      var n := 1 + LeadingDigits(s[1..], base);
      assert forall k :: 0 < k < n ==> s[k] == s[1..][k - 1];
      n
  }

  /** `s` without its leading white space. */
  function SkipSpace(s: string): (r: string)
    ensures |r| <= |s|
    ensures r != [] ==> !IsSpace(r[0])
  {
    if s == [] || !IsSpace(s[0]) then s else SkipSpace(s[1..])
  }

  /** `std::stoi`: None is the exception thrown when no digit is found or the value does not
      fit an `int`. */
  function Stoi(s: string): (r: Option<int>)
    ensures r.Some? ==> INT_MIN <= r.value <= INT_MAX
  {
    var t := SkipSpace(s);
    var negative := t != [] && t[0] == '-';
    var u := if t != [] && (t[0] == '-' || t[0] == '+') then t[1..] else t;
    var n := LeadingDigits(u, 10);
    if n == 0 then None
    else
      var v: int := Value(u[..n], 10);
      var signed: int := if negative then -v else v;
      if INT_MIN <= signed <= INT_MAX then Some(signed) else None
  }

  /** `std::strtoul(s, NULL, 16)` with a 64-bit `unsigned long`: an optional sign and `0x`
      prefix, 0 when there is no digit, the maximum on overflow, and negation modulo 2^64. */
  function StrToULHex(s: string): (r: nat)
    ensures r <= SIZE_MAX
  {
    var t := SkipSpace(s);
    var negative := t != [] && t[0] == '-';
    var u := if t != [] && (t[0] == '-' || t[0] == '+') then t[1..] else t;
    var v := UnsignedHex(u);
    if v > SIZE_MAX then SIZE_MAX
    else if negative && v > 0 then SIZE_MAX + 1 - v
    else v
  }

  function UnsignedHex(u: string): nat {
    var prefixed := |u| >= 3 && u[0] == '0' && (u[1] == 'x' || u[1] == 'X') && IsDigit(u[2], 16);
    var w := if prefixed then u[2..] else u;
    Value(w[..LeadingDigits(w, 16)], 16)
  }

  /** `std::to_string` of an unsigned number. */
  function Decimal(n: nat): (s: string)
    ensures s != [] && AllDigits(s, 10)
  {
    var last := [('0' as int + n % 10) as char];
    if n < 10 then last else Decimal(n / 10) + last
  }

  lemma {:induction false} DecimalValue(n: nat)
    ensures Value(Decimal(n), 10) == n
  {
    if n >= 10 {
      DecimalValue(n / 10);
      var s := Decimal(n);
      assert s[..|s| - 1] == Decimal(n / 10);
    } else {
      assert Decimal(n)[..0] == [];
    }
  }

  /** Digits followed by something that is no digit are read up to that point. */
  lemma {:induction false} LeadingDigitsStop(s: string, t: string, base: nat)
    requires AllDigits(s, base)
    requires t != [] ==> !IsDigit(t[0], base)
    ensures LeadingDigits(s + t, base) == |s|
  {
    if s == [] {
      assert s + t == t;
    } else {
      assert (s + t)[1..] == s[1..] + t;
      assert AllDigits(s[1..], base);
      LeadingDigitsStop(s[1..], t, base);
    }
  }

  lemma StoiUnsigned(u: string, n: nat)
    requires u != [] && IsDigit(u[0], 10)
    requires n == LeadingDigits(u, 10) && 0 < n && Value(u[..n], 10) <= INT_MAX
    ensures Stoi(u) == Some(Value(u[..n], 10))
  {
  }

  /** Reading a printed number gives the number back, whatever non-digit text follows it. */
  lemma StoiDecimal(n: nat, t: string)
    requires n <= INT_MAX
    requires t != [] ==> !IsDigit(t[0], 10)
    ensures Stoi(Decimal(n) + t) == Some(n)
  {
    var s := Decimal(n);
    var u := s + t;
    assert IsDigit(u[0], 10) by { assert u[0] == s[0]; }
    LeadingDigitsStop(s, t, 10);
    assert u[..|s|] == s;
    DecimalValue(n);
    StoiUnsigned(u, |s|);
  }

  lemma UnprefixedHex(u: string, n: nat)
    requires |u| >= 2 ==> u[1] != 'x' && u[1] != 'X'
    requires n == LeadingDigits(u, 16)
    ensures UnsignedHex(u) == Value(u[..n], 16)
  {
  }

  /** Any spelling of a size in hex digits, in either case and with leading zeros, is read as
      its value; only the text after it must not continue the number. */
  lemma StrToULHexDigits(s: string, t: string)
    requires s != [] && AllDigits(s, 16) && Value(s, 16) <= SIZE_MAX
    requires t != [] ==> !IsDigit(t[0], 16) && t[0] != 'x' && t[0] != 'X'
    ensures StrToULHex(s + t) == Value(s, 16)
  {
    var u := s + t;
    assert u[0] == s[0];
    assert |u| >= 2 ==> u[1] == if |s| > 1 then s[1] else t[0];
    LeadingDigitsStop(s, t, 16);
    assert u[..|s|] == s;
    UnprefixedHex(u, |s|);
    hide Value, UnsignedHex;
    assert SkipSpace(u) == u;
  }

  /** Every size has such a spelling. */
  function Hex(n: nat): (s: string)
    ensures s != [] && AllDigits(s, 16)
  {
    var d := n % 16;
    var last := [if d < 10 then ('0' as int + d) as char else ('a' as int + d - 10) as char];
    if n < 16 then last else Hex(n / 16) + last
  }

  lemma {:induction false} HexValue(n: nat)
    ensures Value(Hex(n), 16) == n
  {
    if n >= 16 {
      HexValue(n / 16);
      var s := Hex(n);
      assert s[..|s| - 1] == Hex(n / 16);
    } else {
      assert Hex(n)[..0] == [];
    }
  }

  /** What is left of a printed number when the digits of another are taken off its end is a printed
      number again, and not 0. */
  lemma {:induction false} FrontOfDecimal(m: nat, front: string, n: nat) returns (k: nat)
    requires front != [] && Decimal(m) == front + Decimal(n)
    ensures k >= 1 && front == Decimal(k)
    decreases n
  {
    var s := Decimal(m);
    assert m >= 10;
    assert s[..|s| - 1] == Decimal(m / 10);
    if n < 10 {
      assert s[..|s| - 1] == front;
      k := m / 10;
    } else {
      assert s[..|s| - 1] == front + Decimal(n / 10);
      k := FrontOfDecimal(m / 10, front, n / 10);
    }
  }

  /** Two names with counters behind them are the same text only if names and counters are the same,
      or the longer name is the shorter one with a number behind it. */
  lemma SameNumberedName(a: string, m: nat, b: string, n: nat) returns (k: nat)
    requires a + Decimal(m) == b + Decimal(n) && |a| <= |b|
    ensures (k == 0 && a == b && m == n) || (k >= 1 && b == a + Decimal(k))
  {
    hide Decimal;
    var s := a + Decimal(m);
    assert a == s[..|a|] && b == s[..|b|];
    if |a| == |b| {
      assert Decimal(m) == s[|a|..] == Decimal(n);
      DecimalValue(m);
      DecimalValue(n);
      k := 0;
    } else {
      var front := b[|a|..];
      assert Decimal(m) == s[|a|..] == front + Decimal(n);
      k := FrontOfDecimal(m, front, n);
      assert b == a + front;
    }
  }

  /** Ten times a number is printed with a 0 behind it. */
  lemma TenTimes(k: nat)
    requires k >= 1
    ensures Decimal(10 * k) == Decimal(k) + "0" && Decimal(0) == "0"
  {
    assert 10 * k / 10 == k;
  }
}

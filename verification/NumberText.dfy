/** What `std::stoi` and `std::strtoul(..., 16)` make of a text, by the parts it is put together
    from: white space, a sign, a prefix, digits out of a literal table, and anything behind them. */
module NumberText {
  import opened Machine
  import opened Wrappers
  import opened Numerals

  const LOWER: string := "0123456789abcdef"
  const UPPER: string := "0123456789ABCDEF"
  const SPACES: string := " \t\n\r" + [11 as char, 12 as char]

  /** The digits of every base up to 16, in either case. */
  lemma DigitTable(v: nat)
    requires v < 16
    ensures DigitValue(LOWER[v]) == DigitValue(UPPER[v]) == Some(v)
  {
  }

  lemma NoOtherDigit(c: char)
    ensures DigitValue(c).Some? ==> c == LOWER[DigitValue(c).value] || c == UPPER[DigitValue(c).value]
    ensures IsSpace(c) <==> c in SPACES
  {
  }

  /** A text spells these digits, each in either case. */
  predicate Spells(s: string, ds: seq<nat>, base: nat)
    requires base <= 16
  {
    && |s| == |ds|
    && forall k :: 0 <= k < |ds| ==> ds[k] < base && (s[k] == LOWER[ds[k]] || s[k] == UPPER[ds[k]])
  }

  function NumberOf(ds: seq<nat>, base: nat): nat {
    if ds == [] then 0 else NumberOf(ds[..|ds| - 1], base) * base + ds[|ds| - 1]
  }

  /** The text does not go on with a digit. */
  predicate NoDigitNext(t: string, base: nat)
    requires base <= 16
  {
    t == [] || forall v :: 0 <= v < base ==> t[0] != LOWER[v] && t[0] != UPPER[v]
  }

  predicate AllSpaces(s: string) {
    forall k :: 0 <= k < |s| ==> s[k] in SPACES
  }

  lemma SpelledDigits(s: string, ds: seq<nat>, base: nat)
    requires base <= 16 && Spells(s, ds, base)
    ensures AllDigits(s, base)
  {
    forall k | 0 <= k < |s|
      ensures IsDigit(s[k], base)
    {
      DigitTable(ds[k]);
    }
  }

  lemma {:induction false} SpelledValue(s: string, ds: seq<nat>, base: nat)
    requires base <= 16 && Spells(s, ds, base)
    ensures AllDigits(s, base) && Value(s, base) == NumberOf(ds, base)
    decreases |s|
  {
    SpelledDigits(s, ds, base);
    if s != [] {
      var n := |s| - 1;
      assert Spells(s[..n], ds[..n], base);
      SpelledValue(s[..n], ds[..n], base);
      DigitTable(ds[n]);
    }
  }

  lemma StopsThere(t: string, base: nat)
    requires base <= 16 && NoDigitNext(t, base)
    ensures t != [] ==> !IsDigit(t[0], base)
  {
    if t != [] {
      NoOtherDigit(t[0]);
    }
  }

  lemma {:induction false} SpacesAreSkipped(blanks: string, t: string)
    requires AllSpaces(blanks) && (t != [] ==> t[0] !in SPACES)
    ensures SkipSpace(blanks + t) == t
    decreases |blanks|
  {
    if blanks == [] {
      assert blanks + t == t;
      if t != [] { NoOtherDigit(t[0]); }
    } else {
      NoOtherDigit(blanks[0]);
      assert (blanks + t)[1..] == blanks[1..] + t;
      SpacesAreSkipped(blanks[1..], t);
    }
  }

  /** A digit is neither white space nor a sign. */
  lemma DigitIsPlain(s: string, ds: seq<nat>, base: nat)
    requires base <= 16 && ds != [] && Spells(s, ds, base)
    ensures s[0] !in SPACES && s[0] != '+' && s[0] != '-' && s[0] != 'x' && s[0] != 'X'
    ensures forall k :: 0 <= k < |s| ==> s[k] != 'x' && s[k] != 'X'
  {
  }

  predicate Sign(sign: string) {
    sign == "" || sign == "+" || sign == "-"
  }

  // ----- stoi

  lemma StoiBySign(s: string, sign: string, u: string, n: nat)
    requires Sign(sign) && SkipSpace(s) == sign + u && n == LeadingDigits(u, 10)
    requires sign == "" && u != [] ==> u[0] != '+' && u[0] != '-'
    ensures Stoi(s) == if n == 0 then None
                       else
                         var v: int := if sign == "-" then -(Value(u[..n], 10) as int) else Value(u[..n], 10);
                         if INT_MIN <= v <= INT_MAX then Some(v) else None
  {
    hide SkipSpace, LeadingDigits, Value;
    assert sign == "" ==> sign + u == u;
    assert sign != "" ==> (sign + u)[0] == sign[0] && (sign + u)[1..] == u;
  }

  /** `stoi` reads white space, a sign and decimal digits, whatever follows them, as the number they
      are, and throws exactly when that is no `int`. */
  lemma StoiReads(blanks: string, sign: string, s: string, ds: seq<nat>, t: string)
    requires AllSpaces(blanks) && Sign(sign) && ds != [] && Spells(s, ds, 10) && NoDigitNext(t, 10)
    ensures var v: int := if sign == "-" then -(NumberOf(ds, 10) as int) else NumberOf(ds, 10);
            Stoi(blanks + sign + s + t) == if INT_MIN <= v <= INT_MAX then Some(v) else None
  {
    hide Spells, NumberOf, Value, LeadingDigits, AllSpaces, NoDigitNext, Stoi, SkipSpace, DigitValue;
    var text := sign + (s + t);
    DigitIsPlain(s, ds, 10);
    NotEmpty(s, ds, 10);
    assert (s + t)[0] == s[0];
    SpacesAreSkipped(blanks, text);
    assert blanks + sign + s + t == blanks + text;
    SpelledValue(s, ds, 10);
    StopsThere(t, 10);
    LeadingDigitsStop(s, t, 10);
    assert (s + t)[..|s|] == s;
    StoiBySign(blanks + text, sign, s + t, |s|);
  }

  /** Without a digit there it throws. */
  lemma StoiThrows(blanks: string, sign: string, t: string)
    requires AllSpaces(blanks) && Sign(sign) && NoDigitNext(t, 10)
    requires sign == "" && t != [] ==> t[0] !in SPACES && t[0] != '+' && t[0] != '-'
    ensures Stoi(blanks + sign + t) == None
  {
    hide AllSpaces, NoDigitNext, Stoi, SkipSpace, DigitValue;
    var text := sign + t;
    SpacesAreSkipped(blanks, text);
    assert blanks + sign + t == blanks + text;
    StopsThere(t, 10);
    StoiBySign(blanks + text, sign, t, 0);
  }

  // ----- strtoul

  predicate Prefix(prefix: string) {
    prefix == "" || prefix == "0x" || prefix == "0X"
  }

  lemma UnsignedByPrefix(prefix: string, w: string)
    requires Prefix(prefix) && w != [] && IsDigit(w[0], 16)
    requires |w| >= 2 ==> w[1] != 'x' && w[1] != 'X'
    ensures UnsignedHex(prefix + w) == Value(w[..LeadingDigits(w, 16)], 16)
  {
    hide Value, LeadingDigits;
    var u := prefix + w;
    assert prefix == "" ==> u == w;
    assert prefix != "" ==> u[0] == '0' && u[1] == prefix[1] && u[2..] == w && u[2] == w[0];
  }

  lemma PrefixIsSkipped(prefix: string, s: string, ds: seq<nat>, t: string)
    requires Prefix(prefix) && ds != [] && Spells(s, ds, 16) && NoDigitNext(t, 16)
    requires t != [] ==> t[0] != 'x' && t[0] != 'X'
    ensures UnsignedHex(prefix + (s + t)) == NumberOf(ds, 16)
  {
    hide Spells, NumberOf, Value, LeadingDigits, NoDigitNext, UnsignedHex, DigitValue, Prefix;
    NotEmpty(s, ds, 16);
    DigitIsPlain(s, ds, 16);
    SpelledValue(s, ds, 16);
    StopsThere(t, 16);
    LeadingDigitsStop(s, t, 16);
    var w := s + t;
    assert w[..|s|] == s && w[0] == s[0];
    assert |w| >= 2 ==> w[1] == if |s| > 1 then s[1] else t[0];
    UnsignedByPrefix(prefix, w);
  }

  lemma StrToULBySign(s: string, sign: string, u: string)
    requires Sign(sign) && SkipSpace(s) == sign + u
    requires sign == "" && u != [] ==> u[0] != '+' && u[0] != '-'
    ensures var v := UnsignedHex(u);
            StrToULHex(s) == if v > SIZE_MAX then SIZE_MAX else if sign == "-" && v > 0 then SIZE_MAX + 1 - v else v
  {
    hide SkipSpace, UnsignedHex;
    assert sign == "" ==> sign + u == u;
    assert sign != "" ==> (sign + u)[0] == sign[0] && (sign + u)[1..] == u;
  }

  /** `strtoul` reads white space, a sign, a prefix and hexadecimal digits in either case, whatever
      follows them: a number above the largest is cut to it, a negative one is taken modulo 2^64. */
  lemma StrToULReads(blanks: string, sign: string, prefix: string, s: string, ds: seq<nat>, t: string)
    requires AllSpaces(blanks) && Sign(sign) && Prefix(prefix)
    requires ds != [] && Spells(s, ds, 16) && NoDigitNext(t, 16) && (t != [] ==> t[0] != 'x' && t[0] != 'X')
    ensures var v := NumberOf(ds, 16);
            StrToULHex(blanks + sign + prefix + s + t) ==
            if v > SIZE_MAX then SIZE_MAX else if sign == "-" && v > 0 then SIZE_MAX + 1 - v else v
  {
    hide Spells, NumberOf, UnsignedHex, AllSpaces, NoDigitNext, StrToULHex, SkipSpace;
    var number := prefix + (s + t);
    var text := sign + number;
    DigitIsPlain(s, ds, 16);
    NotEmpty(s, ds, 16);
    assert number[0] == if prefix == "" then s[0] else '0';
    SpacesAreSkipped(blanks, text);
    assert blanks + sign + prefix + s + t == blanks + text;
    PrefixIsSkipped(prefix, s, ds, t);
    StrToULBySign(blanks + text, sign, number);
  }

  lemma NotEmpty(s: string, ds: seq<nat>, base: nat)
    requires base <= 16 && ds != [] && Spells(s, ds, base)
    ensures |s| == |ds| && s != []
  {
  }

  lemma NothingUnsigned(t: string)
    requires NoDigitNext(t, 16)
    ensures UnsignedHex(t) == 0
  {
    StopsThere(t, 16);
    if t != [] {
      DigitTable(0);
      assert t[0] != LOWER[0];
    }
    assert t[..0] == [];
  }

  /** Without a digit there it is 0. */
  lemma StrToULNothing(blanks: string, sign: string, t: string)
    requires AllSpaces(blanks) && Sign(sign) && NoDigitNext(t, 16)
    requires sign == "" && t != [] ==> t[0] !in SPACES && t[0] != '+' && t[0] != '-'
    ensures StrToULHex(blanks + sign + t) == 0
  {
    hide AllSpaces, NoDigitNext, StrToULHex, SkipSpace, UnsignedHex;
    var text := sign + t;
    SpacesAreSkipped(blanks, text);
    assert blanks + sign + t == blanks + text;
    NothingUnsigned(t);
    StrToULBySign(blanks + text, sign, t);
  }

  // ----- Printed numbers

  /** The digits of a number, the last one behind those of a tenth or a sixteenth of it. */
  function DecimalDigits(n: nat): (ds: seq<nat>)
    ensures ds != [] && forall k :: 0 <= k < |ds| ==> ds[k] < 10
  {
    if n < 10 then [n] else DecimalDigits(n / 10) + [n % 10]
  }

  function HexDigits(n: nat): (ds: seq<nat>)
    ensures ds != [] && forall k :: 0 <= k < |ds| ==> ds[k] < 16
  {
    if n < 16 then [n] else HexDigits(n / 16) + [n % 16]
  }

  lemma OneDigit(d: nat, base: nat)
    ensures NumberOf([d], base) == d
  {
    assert [d][..0] == [];
  }

  lemma OneMoreDigit(ds: seq<nat>, d: nat, base: nat)
    ensures NumberOf(ds + [d], base) == NumberOf(ds, base) * base + d
  {
    assert (ds + [d])[..|ds|] == ds;
  }

  lemma {:induction false} DecimalDigitsOf(n: nat)
    ensures NumberOf(DecimalDigits(n), 10) == n
  {
    hide NumberOf;
    if n < 10 {
      OneDigit(n, 10);
    } else {
      DecimalDigitsOf(n / 10);
      OneMoreDigit(DecimalDigits(n / 10), n % 10, 10);
    }
  }

  lemma {:induction false} HexDigitsOf(n: nat)
    ensures NumberOf(HexDigits(n), 16) == n
  {
    hide NumberOf;
    if n < 16 {
      OneDigit(n, 16);
    } else {
      HexDigitsOf(n / 16);
      OneMoreDigit(HexDigits(n / 16), n % 16, 16);
    }
  }

  /** `to_string` prints the decimal digits of a number, out of the literal table. */
  lemma {:induction false} DecimalSpells(n: nat)
    ensures Spells(Decimal(n), DecimalDigits(n), 10)
  {
    if n >= 10 {
      DecimalSpells(n / 10);
    }
  }

  /** The hexadecimal digits of a number out of a table. */
  function Printed(n: nat, table: string): string
    requires |table| == 16
  {
    if n < 16 then [table[n]] else Printed(n / 16, table) + [table[n % 16]]
  }

  lemma {:induction false} PrintedSpells(n: nat, table: string)
    requires table == LOWER || table == UPPER
    ensures Spells(Printed(n, table), HexDigits(n), 16)
  {
    if n >= 16 {
      PrintedSpells(n / 16, table);
    }
  }

  /** A printed number is read back by `stoi`, with any white space and sign in front. */
  lemma PrintedNumberIsRead(blanks: string, n: nat, t: string)
    requires AllSpaces(blanks) && NoDigitNext(t, 10)
    ensures Stoi(blanks + Decimal(n) + t) == if n <= INT_MAX then Some(n) else None
    ensures Stoi(blanks + "-" + Decimal(n) + t) == if 0 - n >= INT_MIN then Some(0 - n) else None
  {
    hide Spells, NumberOf, NoDigitNext, AllSpaces, Stoi, Decimal;
    DecimalSpells(n);
    DecimalDigitsOf(n);
    StoiReads(blanks, "", Decimal(n), DecimalDigits(n), t);
    StoiReads(blanks, "-", Decimal(n), DecimalDigits(n), t);
    assert blanks + "" == blanks;
  }

  /** Every size printed in hexadecimal, in either case, is read back. */
  lemma PrintedSizeIsRead(n: nat, table: string, t: string)
    requires n <= SIZE_MAX && (table == LOWER || table == UPPER)
    requires NoDigitNext(t, 16) && (t != [] ==> t[0] != 'x' && t[0] != 'X')
    ensures StrToULHex(Printed(n, table) + t) == n
  {
    hide Spells, NumberOf, NoDigitNext, StrToULHex, Printed;
    PrintedSpells(n, table);
    HexDigitsOf(n);
    var s := Printed(n, table);
    StrToULReads("", "", "", s, HexDigits(n), t);
    assert "" + "" + "" + s + t == s + t;
  }
}

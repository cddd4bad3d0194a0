/**
 * Digit strings as JavaScript produces and reads them: the decimal text of a
 * non-negative integer (`String(n)`, used for ids and array keys), the
 * canonical array-index test behind `a["3"]`, and `parseInt` as the
 * properties panel calls it (no radix argument).
 */
module Decimal {
  import opened Wrappers

  predicate IsDigit(c: char) {
    '0' <= c <= '9'
  }

  predicate AllDigits(s: string) {
    forall i :: 0 <= i < |s| ==> IsDigit(s[i])
  }

  function DigitChar(d: nat): (c: char)
    requires d < 10
    ensures IsDigit(c)
  {
    ('0' as int + d) as char
  }

  /** Value of `c` as a digit of base `radix` (10 or 16); `None` when it is not one. */
  function DigitValue(c: char, radix: nat): (r: Option<nat>)
    ensures r.Some? ==> r.value < radix
  {
    if '0' <= c <= '9' && (c as int) - ('0' as int) < radix then Some((c as int) - ('0' as int))
    else if radix == 16 && 'a' <= c <= 'f' then Some((c as int) - ('a' as int) + 10)
    else if radix == 16 && 'A' <= c <= 'F' then Some((c as int) - ('A' as int) + 10)
    else None
  }

  predicate AllDigitsIn(s: string, radix: nat) {
    forall i :: 0 <= i < |s| ==> DigitValue(s[i], radix).Some?
  }

  /** Value of a digit string, most significant digit first. */
  function Value(s: string, radix: nat): nat
    requires AllDigitsIn(s, radix)
  {
    if |s| == 0 then 0
    else Value(s[..|s| - 1], radix) * radix + DigitValue(s[|s| - 1], radix).value
  }

  /** Decimal text of `n` without leading zeros, as `String(n)` prints it. */
  function NatToDecimal(n: nat): (s: string)
    ensures |s| >= 1 && AllDigits(s)
    ensures s[0] == '0' <==> n == 0
    ensures n == 0 ==> s == "0"
  {
    if n < 10 then [DigitChar(n)] else NatToDecimal(n / 10) + [DigitChar(n % 10)]
  }

  /** `s` is a canonical array index: "0", or digits with no leading zero. */
  predicate IsCanonicalIndex(s: string) {
    |s| >= 1 && AllDigits(s) && (s[0] == '0' ==> |s| == 1)
  }

  lemma DigitsAreDecimalDigits(s: string)
    requires AllDigits(s)
    ensures AllDigitsIn(s, 10)
  {
  }

  /** The array index a property key denotes, if any. */
  function ParseIndex(s: string): (r: Option<nat>)
    ensures r.Some? <==> IsCanonicalIndex(s)
  {
    if IsCanonicalIndex(s) then
      DigitsAreDecimalDigits(s);
      Some(Value(s, 10))
    else None
  }

  lemma {:induction false} ValueOfDecimal(n: nat)
    ensures AllDigitsIn(NatToDecimal(n), 10)
    ensures Value(NatToDecimal(n), 10) == n
  {
    var s := NatToDecimal(n);
    DigitsAreDecimalDigits(s);
    if n >= 10 {
      ValueOfDecimal(n / 10);
      assert s[..|s| - 1] == NatToDecimal(n / 10);
    }
  }

  /** Printing an index and reading it back gives the index. */
  lemma ParseIndexOfDecimal(n: nat)
    ensures ParseIndex(NatToDecimal(n)) == Some(n)
  {
    ValueOfDecimal(n);
  }

  /** A digit string whose first digit is not zero has a positive value. */
  lemma {:induction false} LeadingDigitBound(s: string)
    requires |s| >= 1 && AllDigits(s) && s[0] != '0'
    ensures AllDigitsIn(s, 10)
    ensures Value(s, 10) >= 1
  {
    DigitsAreDecimalDigits(s);
    if |s| > 1 {
      LeadingDigitBound(s[..|s| - 1]);
    }
  }

  /** Reading a canonical index and printing it back gives the same text. */
  lemma {:induction false} DecimalOfParseIndex(s: string)
    requires IsCanonicalIndex(s)
    ensures NatToDecimal(ParseIndex(s).value) == s
  {
    DigitsAreDecimalDigits(s);
    var n := Value(s, 10);
    if |s| > 1 {
      var t := s[..|s| - 1];
      LeadingDigitBound(t);
      DecimalOfParseIndex(t);
      var d := DigitValue(s[|s| - 1], 10).value;
      assert n == Value(t, 10) * 10 + d;
      assert n / 10 == Value(t, 10) && n % 10 == d;
      assert s == t + [DigitChar(d)];
    }
  }

  /** Distinct numbers print as distinct texts. */
  lemma DecimalInjective(a: nat, b: nat)
    requires NatToDecimal(a) == NatToDecimal(b)
    ensures a == b
  {
    ParseIndexOfDecimal(a);
    ParseIndexOfDecimal(b);
  }

  // ---------------------------------------------------------------------
  // parseInt(text) with no radix, as the numeric inputs of the panel call it

  /** The white-space characters `parseInt` skips before the number (ASCII subset). */
  predicate IsSpace(c: char) {
    c == ' ' || c == '\t' || c == '\n' || c == '\r' || c == '\U{B}' || c == '\U{C}'
  }

  function TrimStart(s: string): (r: string)
    ensures |r| <= |s| && r == s[|s| - |r|..]
    ensures |r| > 0 ==> !IsSpace(r[0])
  {
    if |s| > 0 && IsSpace(s[0]) then TrimStart(s[1..]) else s
  }

  /** The longest prefix of `s` made of digits of base `radix`. */
  function DigitPrefix(s: string, radix: nat): (r: string)
    ensures r <= s && AllDigitsIn(r, radix)
    ensures |r| < |s| ==> DigitValue(s[|r|], radix).None?
  {
    if |s| > 0 && DigitValue(s[0], radix).Some? then [s[0]] + DigitPrefix(s[1..], radix) else []
  }

  /** `parseInt(s)`: `None` is NaN. Leading white space and one sign are skipped. */
  function ParseInt(s: string): Option<int> {
    var t := TrimStart(s);
    if |t| > 0 && t[0] == '-' then Negate(ParseUnsigned(t[1..]))
    else if |t| > 0 && t[0] == '+' then ParseUnsigned(t[1..])
    else ParseUnsigned(t)
  }

  function Negate(r: Option<int>): Option<int> {
    if r.Some? then Some(-r.value) else None
  }

  /** The unsigned part of `parseInt`: a "0x"/"0X" prefix switches to base 16. */
  function ParseUnsigned(u: string): (r: Option<int>)
    ensures r.Some? ==> r.value >= 0
  {
    var hex := |u| >= 2 && u[0] == '0' && (u[1] == 'x' || u[1] == 'X');
    var radix := if hex then 16 else 10;
    var digits := DigitPrefix(if hex then u[2..] else u, radix);
    if |digits| == 0 then None else Some(Value(digits, radix))
  }

  lemma {:induction false} DigitPrefixOfDigits(s: string)
    requires AllDigits(s)
    ensures DigitPrefix(s, 10) == s
  {
    if |s| > 0 {
      DigitPrefixOfDigits(s[1..]);
    }
  }

  lemma ParseUnsignedOfDigits(s: string)
    requires IsCanonicalIndex(s)
    ensures AllDigitsIn(s, 10)
    ensures ParseUnsigned(s) == Some(Value(s, 10) as int)
  {
    DigitPrefixOfDigits(s);
    DigitsAreDecimalDigits(s);
  }

  lemma TrimStartOfNonSpace(s: string)
    requires |s| > 0 && !IsSpace(s[0])
    ensures TrimStart(s) == s
  {
  }

  /** `parseInt` on a canonical digit string, with or without a minus sign, reads its value. */
  lemma ParseIntOfDigits(s: string)
    requires IsCanonicalIndex(s)
    ensures AllDigitsIn(s, 10)
    ensures ParseInt(s) == Some(Value(s, 10) as int)
    ensures ParseInt("-" + s).Some? && ParseInt("-" + s).value == -(Value(s, 10) as int)
  {
    ParseUnsignedOfDigits(s);
    var v := ParseUnsigned(s);
    TrimStartOfNonSpace(s);
    assert s[0] != '-' && s[0] != '+';
    assert ParseInt(s) == v;
    var m := "-" + s;
    assert m[0] == '-' && m[1..] == s;
    TrimStartOfNonSpace(m);
    var t := TrimStart(m);
    assert t == m;
    assert |t| > 0 && t[0] == '-';
    assert ParseUnsigned(t[1..]) == v;
    assert ParseInt(m) == Negate(v);
    var n: int := Value(s, 10);
    assert v == Some(n);
    assert v.value == n;
    assert Negate(v).value == -n;
  }

  /** `parseInt` reads back the decimal text of every integer, with or without a minus sign. */
  lemma ParseIntOfDecimal(n: nat)
    ensures ParseInt(NatToDecimal(n)) == Some(n as int)
    ensures ParseInt("-" + NatToDecimal(n)) == Some(-(n as int))
  {
    ValueOfDecimal(n);
    ParseIntOfDigits(NatToDecimal(n));
  }
}

/**
 * Integer text as JavaScript produces and reads it: `String(n)` for an integer-valued
 * number, `String(n).padStart(2, '0')`, and `parseInt(s)` without a radix.
 */
module Numbers {
  import opened Wrappers
  import Strings

  /** Value of a digit in radices up to 16 (`0-9`, `a-f`, `A-F`); 16 for any other character. */
  function DigitVal(c: char): nat {
    if '0' <= c <= '9' then (c - '0') as nat
    else if 'a' <= c <= 'f' then (c - 'a') as nat + 10
    else if 'A' <= c <= 'F' then (c - 'A') as nat + 10
    else 16
  }

  predicate IsDigit(c: char) {
    '0' <= c <= '9'
  }

  /** Every character of `s` is a digit of the given radix. */
  predicate InRadix(s: string, radix: nat) {
    forall i :: 0 <= i < |s| ==> DigitVal(s[i]) < radix
  }

  /** Every character of `s` is a decimal digit. */
  predicate AllDigits(s: string) {
    InRadix(s, 10)
  }

  lemma DecimalDigit(c: char)
    ensures IsDigit(c) <==> DigitVal(c) < 10
  {
  }

  function DigitChar(d: nat): (c: char)
    requires d < 10
    ensures IsDigit(c) && DigitVal(c) == d
  {
    ('0' as int + d) as char
  }

  /** Value of a digit string in the given radix, most significant digit first. */
  function Value(s: string, radix: nat): nat
    requires radix == 10 || radix == 16
    requires InRadix(s, radix)
  {
    if s == [] then 0
    else if radix == 10 then Value(s[..|s| - 1], 10) * 10 + DigitVal(s[|s| - 1])
    else Value(s[..|s| - 1], 16) * 16 + DigitVal(s[|s| - 1])
  }

  /** `String(n)` for a non-negative integer: decimal, no leading zero. */
  function NatToString(n: nat): (r: string)
    ensures |r| >= 1 && AllDigits(r)
    ensures r[0] == '0' ==> n == 0 && r == "0"
    ensures n < 10 <==> |r| == 1
  {
    if n < 10 then [DigitChar(n)] else NatToString(n / 10) + [DigitChar(n % 10)]
  }

  /** `String(i)` for an integer-valued number. */
  function IntToString(i: int): (r: string)
    ensures |r| >= 1
    ensures i >= 0 ==> AllDigits(r)
    ensures i < 0 ==> r[0] == '-' && AllDigits(r[1..])
  {
    if i < 0 then "-" + NatToString(-i) else NatToString(i)
  }

  /** The text of a number reads back as that number. */
  lemma {:induction false} NatToStringValue(n: nat)
    ensures Value(NatToString(n), 10) == n
  {
    if n >= 10 {
      NatToStringValue(n / 10);
      var r := NatToString(n);
      assert r[..|r| - 1] == NatToString(n / 10);
    }
  }

  /** `s.padStart(2, '0')`: a leading zero when `s` is shorter than two characters, never truncated. */
  function PadStart2(s: string): (r: string)
    ensures |r| == if |s| < 2 then 2 else |s|
    ensures r[|r| - |s|..] == s
    ensures forall i :: 0 <= i < |r| - |s| ==> r[i] == '0'
  {
    if |s| >= 2 then s else if |s| == 1 then "0" + s else "00"
  }

  /** `String(n).padStart(2, '0')` */
  function Pad2(n: nat): string {
    PadStart2(NatToString(n))
  }

  /** Two-digit padding keeps the value, never truncates, and is exactly two digits below 100. */
  lemma Pad2Value(n: nat)
    ensures AllDigits(Pad2(n)) && Value(Pad2(n), 10) == n
    ensures |Pad2(n)| >= 2 && (n < 100 <==> |Pad2(n)| == 2)
    ensures Pad2(n)[|Pad2(n)| - |NatToString(n)|..] == NatToString(n)
  {
    NatToStringValue(n);
    var s := NatToString(n);
    if n < 10 {
      var r := Pad2(n);
      assert r == ['0', s[0]];
      assert r[..1] == ['0'];
      assert Value(r[..1], 10) == Value([], 10) * 10 + 0;
    } else {
      NatToStringTwoDigits(n);
    }
  }

  lemma NatToStringLength(n: nat)
    requires n >= 10
    ensures |NatToString(n)| == |NatToString(n / 10)| + 1
  {
  }

  lemma NatToStringTwoDigits(n: nat)
    requires n >= 10
    ensures n < 100 <==> |NatToString(n)| == 2
  {
    assert NatToString(n) == NatToString(n / 10) + [DigitChar(n % 10)];
  }

  /** Length of the longest prefix of `s` made of radix-`radix` digits. */
  function DigitPrefixLen(s: string, radix: nat): (k: nat)
    ensures k <= |s|
    ensures forall i :: 0 <= i < k ==> DigitVal(s[i]) < radix
    ensures k < |s| ==> DigitVal(s[k]) >= radix
  {
    if s == [] || DigitVal(s[0]) >= radix then 0
    else 1 + DigitPrefixLen(s[1..], radix)
  }

  /** Number of white-space characters at the start of `s`. */
  function LeadingSpaces(s: string): (k: nat)
    ensures k <= |s|
    ensures Strings.IsBlank(s[..k])
    ensures k < |s| ==> !Strings.IsSpace(s[k])
  {
    if s == [] || !Strings.IsSpace(s[0]) then 0
    else
      var k := LeadingSpaces(s[1..]);
      assert s[..k + 1] == [s[0]] + s[1..][..k];
      k + 1
  }

  /** Removes the leading white space, as `parseInt` does before reading. */
  function TrimStart(s: string): string {
    s[LeadingSpaces(s)..]
  }

  /**
   * `parseInt(s)` with no radix: leading white space, an optional sign, an optional
   * `0x`/`0X` prefix that switches to radix 16, then the longest run of digits.
   * `None` is `NaN` (no digit at all).
   */
  function ParseInt(s: string): Option<int> {
    var u := Unsigned(TrimStart(s));
    var body := RadixBody(u);
    var radix := Radix(u);
    var k := DigitPrefixLen(body, radix);
    if k == 0 then None
    else
      var v: int := Value(body[..k], radix);
      Some(if Negative(TrimStart(s)) then -v else v)
  }

  predicate Negative(t: string) {
    |t| > 0 && t[0] == '-'
  }

  /** The text after an optional leading sign. */
  function Unsigned(t: string): string {
    if |t| > 0 && (t[0] == '-' || t[0] == '+') then t[1..] else t
  }

  predicate HexPrefix(u: string) {
    |u| >= 2 && u[0] == '0' && (u[1] == 'x' || u[1] == 'X')
  }

  function Radix(u: string): nat {
    if HexPrefix(u) then 16 else 10
  }

  function RadixBody(u: string): string {
    if HexPrefix(u) then u[2..] else u
  }

  lemma DecimalDigitPrefix(s: string)
    requires AllDigits(s)
    ensures DigitPrefixLen(s, 10) == |s|
  {
    if s != [] {
      DecimalDigitPrefix(s[1..]);
    }
  }

  lemma DigitNotSpace(c: char)
    requires IsDigit(c) || c == '-'
    ensures !Strings.IsSpace(c)
  {
  }

  /** Reading a canonical decimal numeral with `parseInt` gives its value. */
  lemma ParseIntOfNatString(d: string, n: nat)
    requires d == NatToString(n)
    ensures DigitPrefixLen(d, 10) == |d| && !HexPrefix(d) && Value(d, 10) == n
  {
    NatToStringValue(n);
    DecimalDigitPrefix(d);
  }

  /** `parseInt(String(n)) === n` for every non-negative integer. */
  lemma ParseIntOfNatToString(n: nat)
    ensures ParseInt(IntToString(n)) == Some(n)
  {
    var d := NatToString(n);
    assert IntToString(n) == d;
    NatToStringValue(n);
    DigitsNotSigned(d);
    NoLeadingSpace(d);
    DigitsNotHex(d);
    ParseIntCanonical(d, d);
  }

  /** Text with no leading white space, then an optional sign, then only decimal digits reads as their value. */
  lemma ParseIntCanonical(t: string, u: string)
    requires LeadingSpaces(t) == 0 && Unsigned(t) == u
    requires |u| >= 1 && AllDigits(u) && !HexPrefix(u)
    ensures ParseInt(t) == Some(if Negative(t) then -(Value(u, 10) as int) else Value(u, 10))
  {
    DecimalDigitPrefix(u);
    assert u[..|u|] == u;
  }

  lemma NoLeadingSpace(t: string)
    requires |t| > 0 && (IsDigit(t[0]) || t[0] == '-')
    ensures LeadingSpaces(t) == 0
  {
    DigitNotSpace(t[0]);
  }

  lemma DigitsNotSigned(d: string)
    requires |d| > 0 && AllDigits(d)
    ensures IsDigit(d[0]) && Unsigned(d) == d && !Negative(d)
  {
    DecimalDigit(d[0]);
  }

  lemma DigitsNotHex(d: string)
    requires AllDigits(d)
    ensures !HexPrefix(d)
  {
    if |d| >= 2 {
      DecimalDigit(d[1]);
    }
  }

  /** `parseInt` reads the longest run of decimal digits and ignores what follows it. */
  lemma {:induction false} ParseIntDecimalPrefix(d: string, rest: string)
    requires |d| >= 1 && AllDigits(d)
    requires rest == [] || !IsDigit(rest[0])
    requires !(d == "0" && |rest| > 0 && (rest[0] == 'x' || rest[0] == 'X'))
    ensures ParseInt(d + rest) == Some(Value(d, 10))
  {
    var s := d + rest;
    DigitNotSpace(s[0]);
    assert TrimStart(s) == s;
    assert Unsigned(s) == s;
    assert !HexPrefix(s);
    DigitPrefixOfConcat(d, rest);
    assert s[..|d|] == d;
  }

  lemma {:induction false} DigitPrefixOfConcat(d: string, rest: string)
    requires AllDigits(d)
    requires rest == [] || !IsDigit(rest[0])
    ensures DigitPrefixLen(d + rest, 10) == |d|
  {
    if d != [] {
      DigitPrefixOfConcat(d[1..], rest);
      assert (d + rest)[1..] == d[1..] + rest;
    }
  }

  /** A text whose first character is neither white space, a sign nor a digit reads as `NaN`. */
  lemma ParseIntNoDigits(s: string)
    requires |s| > 0 && !Strings.IsSpace(s[0]) && s[0] != '-' && s[0] != '+' && !IsDigit(s[0])
    ensures ParseInt(s) == None
  {
    assert TrimStart(s) == s;
  }

  /** `parseInt("12abc") === 12` */
  lemma ParseIntExampleTrailingLetters()
    ensures ParseInt("12abc") == Some(12)
  {
    var d := "12";
    assert d[..1] == "1" && d[..1][..0] == [];
    assert Value(d, 10) == 12;
    assert "12abc" == d + "abc";
    ParseIntDecimalPrefix(d, "abc");
  }

  /** `parseInt("3.5") === 3` */
  lemma ParseIntExampleFraction()
    ensures ParseInt("3.5") == Some(3)
  {
    var d := "3";
    assert d[..0] == [];
    assert Value(d, 10) == 3;
    assert "3.5" == d + ".5";
    ParseIntDecimalPrefix(d, ".5");
  }

  /** `parseInt("abc")` is `NaN` */
  lemma ParseIntExampleLetters()
    ensures ParseInt("abc") == None
  {
    ParseIntNoDigits("abc");
  }

  /** The `0x` prefix switches to hexadecimal: `parseInt(" 0x1A") === 26`. */
  lemma ParseIntHex()
    ensures ParseInt(" 0x1A") == Some(26)
  {
    TrimStartOneSpace();
    assert Unsigned("0x1A") == "0x1A";
    assert HexPrefix("0x1A");
    assert RadixBody("0x1A") == "1A";
    HexDigits();
  }

  lemma TrimStartOneSpace()
    ensures TrimStart(" 0x1A") == "0x1A"
  {
    assert LeadingSpaces("0x1A") == 0 by { DigitNotSpace('0'); }
    assert LeadingSpaces(" 0x1A") == 1 by { assert " 0x1A"[1..] == "0x1A"; }
  }

  lemma HexDigits()
    ensures DigitPrefixLen("1A", 16) == 2 && "1A"[..2] == "1A" && Value("1A", 16) == 26
  {
    assert DigitPrefixLen("A", 16) == 1;
    assert DigitPrefixLen("1A", 16) == 2 by { assert "1A"[1..] == "A"; }
    assert "1A"[..2] == "1A" && "1A"[..1] == "1";
  }
}

/** ECMAScript's global `parseInt(string)` with no radix argument (ECMA-262,
    section 19.2.5), as the merge applies it to `lots_available`; NaN is `None`. */
module JsNumbers {
  import opened Wrappers
  import opened JsStrings

  /** The value of `c` as a digit in any radix up to 36; 36 when it is no digit at all. */
  function CharDigit(c: char): (d: nat)
    ensures d <= 36
    ensures d < 10 <==> '0' <= c <= '9'
  {
    if '0' <= c <= '9' then c as int - '0' as int
    else if 'a' <= c <= 'z' then c as int - 'a' as int + 10
    else if 'A' <= c <= 'Z' then c as int - 'A' as int + 10
    else 36
  }

  /** Length of the longest prefix of `s` made of digits of `radix`. */
  function DigitRun(s: string, radix: nat): (n: nat)
    ensures n <= |s|
    ensures forall i :: 0 <= i < n ==> CharDigit(s[i]) < radix
    ensures n == |s| || CharDigit(s[n]) >= radix
  {
    if s != [] && CharDigit(s[0]) < radix then 1 + DigitRun(s[1..], radix) else 0
  }

  /** The number that the digit string `ds` denotes in `radix`. */
  function DigitsValue(ds: string, radix: nat): nat {
    if ds == [] then 0
    else DigitsValue(ds[..|ds| - 1], radix) * radix + CharDigit(ds[|ds| - 1])
  }

  /** The longest run of `radix` digits at the start of `v`; NaN when there is none. */
  function ParseDigits(v: string, radix: nat): Option<nat> {
    var n := DigitRun(v, radix);
    if n == 0 then None else Some(DigitsValue(v[..n], radix))
  }

  /** The unsigned part: a `0x`/`0X` prefix switches to radix 16. */
  function ParseMagnitude(u: string): Option<nat> {
    if |u| >= 2 && u[0] == '0' && (u[1] == 'x' || u[1] == 'X') then ParseDigits(u[2..], 16)
    else ParseDigits(u, 10)
  }

  /** `parseInt` after the leading white space is gone: an optional sign, then
      the magnitude. A negative zero is 0. */
  function ParseSigned(t: string): Option<int> {
    if |t| > 0 && t[0] == '-' then
      match ParseMagnitude(t[1..])
      case None => None
      case Some(m) => Some(-(m as int))
    else if |t| > 0 && t[0] == '+' then
      match ParseMagnitude(t[1..])
      case None => None
      case Some(m) => Some(m as int)
    else
      match ParseMagnitude(t)
      case None => None
      case Some(m) => Some(m as int)
  }

  /** `parseInt(s)`; NaN, when no digit follows the white space, sign and prefix, is `None`. */
  function ParseInt(s: string): Option<int> {
    ParseSigned(TrimStart(s))
  }

  /** The decimal digits of a natural number, without leading zeros. */
  function Digits(n: nat): (r: string)
    ensures |r| > 0
    ensures forall i :: 0 <= i < |r| ==> '0' <= r[i] <= '9'
    ensures r[0] == '0' ==> n == 0
    decreases n
  {
    if n < 10 then [('0' as int + n) as char]
    else Digits(n / 10) + [('0' as int + n % 10) as char]
  }

  /** `String(n)` for an integer `n`. */
  function Decimal(n: int): string {
    if n < 0 then "-" + Digits(-n) else Digits(n)
  }

  /** Reading back the digits of `n` gives `n`. */
  lemma {:induction false} DigitsValueOfDigits(n: nat)
    ensures DigitsValue(Digits(n), 10) == n
    decreases n
  {
    if n >= 10 {
      var ds := Digits(n);
      assert ds[..|ds| - 1] == Digits(n / 10);
      DigitsValueOfDigits(n / 10);
    }
  }

  /** The digit run of `ds + rest` is `ds` when `rest` does not start with a digit. */
  lemma {:induction false} DigitRunAppend(ds: string, rest: string, radix: nat)
    requires forall i :: 0 <= i < |ds| ==> CharDigit(ds[i]) < radix
    requires rest == [] || CharDigit(rest[0]) >= radix
    ensures DigitRun(ds + rest, radix) == |ds|
  {
    if ds == [] {
      assert ds + rest == rest;
    } else {
      assert (ds + rest)[0] == ds[0] && (ds + rest)[1..] == ds[1..] + rest;
      DigitRunAppend(ds[1..], rest, radix);
    }
  }

  /** `parseInt` reads exactly the digits of `n` and stops before `rest`. */
  lemma ParseDigitsOfDigits(n: nat, rest: string)
    requires rest == [] || !('0' <= rest[0] <= '9')
    ensures ParseDigits(Digits(n) + rest, 10) == Some(n)
  {
    var ds := Digits(n);
    DigitRunAppend(ds, rest, 10);
    assert (ds + rest)[..|ds|] == ds;
    DigitsValueOfDigits(n);
  }

  /** The magnitude of `String(m) + rest` is `m`: a lone `0` followed by `x` or
      `X` would instead start a hexadecimal literal. */
  lemma MagnitudeOfDigits(m: nat, rest: string)
    requires rest == [] || !('0' <= rest[0] <= '9')
    requires m == 0 ==> rest == [] || (rest[0] != 'x' && rest[0] != 'X')
    ensures ParseMagnitude(Digits(m) + rest) == Some(m)
  {
    var u := Digits(m) + rest;
    assert !(|u| >= 2 && u[0] == '0' && (u[1] == 'x' || u[1] == 'X')) by {
      if |u| >= 2 && u[0] == '0' {
        assert |Digits(m)| == 1;
        assert u[1] == rest[0];
      }
    }
    ParseDigitsOfDigits(m, rest);
  }

  /** `String(n) + rest` starts with a minus sign followed by the digits of `-n`
      when `n` is negative, and with the digits of `n` otherwise. */
  lemma DecimalShape(n: int, rest: string)
    ensures var t, m := Decimal(n) + rest, if n < 0 then -n else n;
      |t| > 0 && '0' <= Digits(m)[0] <= '9'
      && (n < 0 ==> t[0] == '-' && t[1..] == Digits(m) + rest)
      && (n >= 0 ==> t == Digits(m) + rest)
  {
    if n < 0 {
      assert Decimal(n) + rest == "-" + (Digits(-n) + rest);
    }
  }

  /** The sign step of `parseInt`: a leading `-` negates the magnitude, anything
      that is no sign leaves it alone. */
  lemma SignedSteps(t: string, m: nat)
    requires |t| > 0
    ensures t[0] == '-' && ParseMagnitude(t[1..]) == Some(m) ==> ParseSigned(t) == Some(-(m as int))
    ensures t[0] != '-' && t[0] != '+' && ParseMagnitude(t) == Some(m) ==> ParseSigned(t) == Some(m as int)
  {
  }

  /** After the white space, the sign and the digits of `String(n)` read back as `n`. */
  lemma SignedOfDecimal(n: int, rest: string)
    requires rest == [] || !('0' <= rest[0] <= '9')
    requires n == 0 ==> rest == [] || (rest[0] != 'x' && rest[0] != 'X')
    ensures ParseSigned(Decimal(n) + rest) == Some(n)
  {
    var m: nat := if n < 0 then -n else n;
    DecimalShape(n, rest);
    MagnitudeOfDigits(m, rest);
    SignedSteps(Decimal(n) + rest, m);
  }

  /** White space never starts a number's text. */
  lemma NoLeadingSpace(t: string)
    requires t != [] && (t[0] == '-' || '0' <= t[0] <= '9')
    ensures TrimStart(t) == t
  {
  }

  /** `parseInt(String(n) + rest)` is `n` whenever `rest` does not continue the
      number: it must not start with a digit, nor with `x`/`X` after a lone zero. */
  lemma ParseIntOfDecimal(n: int, rest: string)
    requires rest == [] || !('0' <= rest[0] <= '9')
    requires n == 0 ==> rest == [] || (rest[0] != 'x' && rest[0] != 'X')
    ensures ParseInt(Decimal(n) + rest) == Some(n)
  {
    SignedOfDecimal(n, rest);
    DecimalShape(n, rest);
    NoLeadingSpace(Decimal(n) + rest);
  }

  /** `parseInt` ignores leading white space. */
  lemma ParseIntSkipsSpace(ws: string, s: string)
    requires forall i :: 0 <= i < |ws| ==> IsSpace(ws[i])
    ensures ParseInt(ws + s) == ParseInt(s)
  {
    TrimStartSkipsSpace(ws, s);
  }

  /** No digit at the start of the magnitude means NaN. */
  lemma MagnitudeWithoutDigit(u: string)
    requires u == [] || !('0' <= u[0] <= '9')
    ensures ParseMagnitude(u) == None
  {
    if u != [] {
      assert CharDigit(u[0]) >= 10;
    }
  }

  /** A string with no decimal digit in it parses to NaN (hexadecimal digits
      count only after a `0x` prefix, which itself holds a digit). */
  lemma ParseIntWithoutDigits(s: string)
    requires forall i :: 0 <= i < |s| ==> !('0' <= s[i] <= '9')
    ensures ParseInt(s) == None
  {
    var t := TrimStart(s);
    assert forall i :: 0 <= i < |t| ==> t[i] == s[|s| - |t| + i];
    if |t| > 0 && (t[0] == '-' || t[0] == '+') {
      assert |t| > 1 ==> t[1] == s[|s| - |t| + 1];
      MagnitudeWithoutDigit(t[1..]);
    } else {
      MagnitudeWithoutDigit(t);
    }
  }
}

/** JavaScript's `parseInt` and the decimal rendering of an integer
    (`String(n)`, as a template literal produces it). Numbers are unbounded
    integers here; `None` is `NaN`. */
module Numbers {
  import opened Wrappers

  /** White space and line terminators that `parseInt` skips first. */
  predicate IsJsSpace(c: char)
  {
    var n := c as int;
    n == 0x09 || n == 0x0A || n == 0x0B || n == 0x0C || n == 0x0D || n == 0x20 ||
    n == 0xA0 || n == 0x1680 || (0x2000 <= n <= 0x200A) || n == 0x2028 ||
    n == 0x2029 || n == 0x202F || n == 0x205F || n == 0x3000 || n == 0xFEFF
  }

  function TrimStart(s: string): (r: string)
    ensures |r| <= |s| && r == s[|s| - |r|..]
    ensures |r| > 0 ==> !IsJsSpace(r[0])
    ensures forall k :: 0 <= k < |s| - |r| ==> IsJsSpace(s[k])
  {
    if |s| > 0 && IsJsSpace(s[0]) then TrimStart(s[1..]) else s
  }

  /** The radix argument: an explicit 10, or left out (then a `0x` prefix
      selects 16). */
  datatype Radix = Decimal | Unspecified

  type Base = b: nat | b == 10 || b == 16 witness 10

  predicate IsDigit(c: char, base: Base)
  {
    ('0' <= c <= '9') || (base == 16 && (('a' <= c <= 'f') || ('A' <= c <= 'F')))
  }

  function DigitValue(c: char, base: Base): (d: nat)
    requires IsDigit(c, base)
    ensures d < base
  {
    if '0' <= c <= '9' then c as int - '0' as int
    else if 'a' <= c <= 'f' then c as int - 'a' as int + 10
    else c as int - 'A' as int + 10
  }

  predicate AllDigits(z: string, base: Base)
  {
    forall i :: 0 <= i < |z| ==> IsDigit(z[i], base)
  }

  /** The longest prefix of `s` made of digits. */
  function DigitRun(s: string, base: Base): (z: string)
    ensures |z| <= |s| && z == s[..|z|]
    ensures AllDigits(z, base)
    ensures |z| < |s| ==> !IsDigit(s[|z|], base)
  {
    if |s| > 0 && IsDigit(s[0], base) then [s[0]] + DigitRun(s[1..], base) else ""
  }

  /** Positional value, most significant digit first. */
  function Value(z: string, base: Base): nat
    requires AllDigits(z, base)
  {
    if |z| == 0 then 0
    else Value(z[..|z| - 1], base) * base + DigitValue(z[|z| - 1], base)
  }

  /** The digits after the sign: with no radix a `0x` or `0X` prefix
      switches to base 16; no digits at all is `NaN`. */
  function ParseMagnitude(u: string, radix: Radix): (r: Option<nat>)
    ensures radix == Decimal ==> (r.None? <==> |u| == 0 || !IsDigit(u[0], 10))
  {
    var hex := radix == Unspecified && |u| >= 2 && u[0] == '0' && (u[1] == 'x' || u[1] == 'X');
    var base: Base := if hex then 16 else 10;
    var z := DigitRun(if hex then u[2..] else u, base);
    if |z| == 0 then None else Some(Value(z, base))
  }

  /** The text after an optional leading sign. */
  function Unsigned(t: string): (u: string)
    ensures |u| <= |t| && u == t[|t| - |u|..]
  {
    if |t| > 0 && (t[0] == '-' || t[0] == '+') then t[1..] else t
  }

  /** What `parseInt` reads once the white space is gone: an optional
      sign, then the magnitude. */
  function ParseSigned(t: string, radix: Radix): (r: Option<int>)
    ensures radix == Decimal ==> (r.None? <==> |Unsigned(t)| == 0 || !IsDigit(Unsigned(t)[0], 10))
    ensures r.Some? && r.value < 0 ==> |t| > 0 && t[0] == '-'
    ensures r.Some? && r.value > 0 ==> |t| > 0 && t[0] != '-'
  {
    var negative := |t| > 0 && t[0] == '-';
    match ParseMagnitude(Unsigned(t), radix)
    case None => None
    case Some(m) =>
      var v: int := if negative then -(m as int) else m;
      Some(v)
  }

  /** `parseInt(s, 10)` (`Decimal`) or `parseInt(s)` (`Unspecified`):
      skip leading white space, take an optional sign, then the longest run
      of digits. */
  function ParseInt(s: string, radix: Radix): (r: Option<int>)
    ensures radix == Decimal ==>
      (r.None? <==> var u := Unsigned(TrimStart(s)); |u| == 0 || !IsDigit(u[0], 10))
    ensures r.Some? && r.value < 0 ==> |TrimStart(s)| > 0 && TrimStart(s)[0] == '-'
    ensures r.Some? && r.value > 0 ==> |TrimStart(s)| > 0 && TrimStart(s)[0] != '-'
  {
    ParseSigned(TrimStart(s), radix)
  }

  /** Leading white space is skipped. */
  lemma ParseIntSkipsSpace(c: char, s: string, radix: Radix)
    requires IsJsSpace(c)
    ensures ParseInt([c] + s, radix) == ParseInt(s, radix)
  {
  }

  /** Without a radix, `parseInt` reads decimal unless the digits start
      with `0x` or `0X`. */
  lemma ParseIntRadixAgrees(s: string)
    requires var u := Unsigned(TrimStart(s));
      !(|u| >= 2 && u[0] == '0' && (u[1] == 'x' || u[1] == 'X'))
    ensures ParseInt(s, Unspecified) == ParseInt(s, Decimal)
  {
    SignedRadixAgrees(TrimStart(s));
  }

  lemma SignedRadixAgrees(t: string)
    requires var u := Unsigned(t); !(|u| >= 2 && u[0] == '0' && (u[1] == 'x' || u[1] == 'X'))
    ensures ParseSigned(t, Unspecified) == ParseSigned(t, Decimal)
  {
    MagnitudeRadixAgrees(Unsigned(t));
  }

  lemma MagnitudeRadixAgrees(u: string)
    requires !(|u| >= 2 && u[0] == '0' && (u[1] == 'x' || u[1] == 'X'))
    ensures ParseMagnitude(u, Unspecified) == ParseMagnitude(u, Decimal)
  {
  }

  function DigitChar(d: nat): (c: char)
    requires d < 10
    ensures IsDigit(c, 10) && DigitValue(c, 10) == d
  {
    "0123456789"[d]
  }

  /** Decimal digits of `n` without leading zeros. */
  function NatToString(n: nat): (r: string)
    ensures |r| >= 1
    ensures AllDigits(r, 10)
    ensures Value(r, 10) == n
    ensures r[0] == '0' ==> n == 0 && |r| == 1
  {
    if n < 10 then [DigitChar(n)]
    else
      var r := NatToString(n / 10) + [DigitChar(n % 10)];
      assert r[..|r| - 1] == NatToString(n / 10);
      r
  }

  /** `String(n)` for an integer: a minus sign, then the digits. */
  function IntToString(n: int): (r: string)
    ensures |r| >= 1
    ensures forall i :: 0 <= i < |r| ==> r[i] == '-' || IsDigit(r[i], 10)
  {
    if n < 0 then "-" + NatToString(-n) else NatToString(n)
  }

  /** Digits past the run do not change the value read. */
  lemma {:induction false} DigitRunOfDigits(z: string, rest: string, base: Base)
    requires AllDigits(z, base)
    requires |rest| == 0 || !IsDigit(rest[0], base)
    ensures DigitRun(z + rest, base) == z
  {
    if |z| > 0 {
      assert (z + rest)[1..] == z[1..] + rest;
      DigitRunOfDigits(z[1..], rest, base);
      assert [z[0]] + z[1..] == z;
    } else {
      assert z + rest == rest;
    }
  }

  /** `parseInt` reads back what `String(n)` wrote, and stops at the first
      character that is not a digit (`parseInt("2abc", 10) == 2`). Without
      a radix the same holds unless an `x` follows a lone `0`. */
  lemma ParseMagnitudeOfDigits(n: nat, rest: string, radix: Radix)
    requires |rest| == 0 || !IsDigit(rest[0], 10)
    requires radix == Decimal || |rest| == 0 || (rest[0] != 'x' && rest[0] != 'X')
    ensures ParseMagnitude(NatToString(n) + rest, radix) == Some(n)
  {
    var digits := NatToString(n);
    var u := digits + rest;
    if |u| >= 2 && u[0] == '0' {
      assert |digits| == 1;
      assert u[1] == rest[0];
    }
    DigitRunOfDigits(digits, rest, 10);
  }

  /** `parseInt` on a sign followed by a readable magnitude. */
  lemma ParseIntSigned(s: string, radix: Radix, m: nat)
    requires |s| > 0 && s[0] == '-'
    requires ParseMagnitude(s[1..], radix) == Some(m)
    ensures ParseInt(s, radix) == Some(-(m as int))
  {
    assert !IsJsSpace(s[0]);
    assert TrimStart(s) == s;
  }

  /** `parseInt` on a readable magnitude starting with a digit. */
  lemma ParseIntUnsigned(u: string, radix: Radix, m: nat)
    requires |u| > 0 && IsDigit(u[0], 10)
    requires ParseMagnitude(u, radix) == Some(m)
    ensures ParseInt(u, radix) == Some(m)
  {
    assert !IsJsSpace(u[0]);
    assert TrimStart(u) == u;
  }

  lemma ParseIntOfIntToString(n: int, rest: string, radix: Radix)
    requires |rest| == 0 || !IsDigit(rest[0], 10)
    requires radix == Decimal || |rest| == 0 || (rest[0] != 'x' && rest[0] != 'X')
    ensures ParseInt(IntToString(n) + rest, radix) == Some(n)
  {
    if n < 0 {
      ParseIntOfNegative(n, rest, radix);
    } else {
      var u := NatToString(n) + rest;
      ParseMagnitudeOfDigits(n, rest, radix);
      ParseIntUnsigned(u, radix, n);
    }
  }

  lemma ParseIntOfNegative(n: int, rest: string, radix: Radix)
    requires n < 0
    requires |rest| == 0 || !IsDigit(rest[0], 10)
    requires radix == Decimal || |rest| == 0 || (rest[0] != 'x' && rest[0] != 'X')
    ensures ParseInt(IntToString(n) + rest, radix) == Some(n)
  {
    var m: nat := -n;
    var s := IntToString(n) + rest;
    ParseMagnitudeOfDigits(m, rest, radix);
    NegativeText(m, rest);
    ParseIntSigned(s, radix, m);
  }

  lemma NegativeText(m: nat, rest: string)
    requires m > 0
    ensures var s := IntToString(-(m as int)) + rest; |s| > 0 && s[0] == '-' && s[1..] == NatToString(m) + rest
  {
    var d := NatToString(m);
    assert IntToString(-(m as int)) == "-" + d;
    assert ("-" + d + rest)[1..] == d + rest;
  }
}

/** Conversions between integers and text as the tool's JavaScript does them:
    `Number.prototype.toString()` for the integers it prints in the menu, and
    the global `parseInt` (section 19.2.5 of ECMA-262, called without a
    radix) that reads the bucket id out of a command line. */
module Numbers {
  import opened Storage

  /** StrWhiteSpaceChar of ECMA-262, by code point: the WhiteSpace code
      points (TAB, VT, FF, SP, NBSP, ZWNBSP and the rest of the Zs category)
      and the LineTerminator code points (LF, CR, LS, PS). */
  predicate IsWhiteSpace(c: char)
  {
    var k := c as int;
    (0x09 <= k <= 0x0D) || k == 0x20 || k == 0xA0 || k == 0x1680 ||
    (0x2000 <= k <= 0x200A) || k == 0x2028 || k == 0x2029 || k == 0x202F ||
    k == 0x205F || k == 0x3000 || k == 0xFEFF
  }

  predicate IsDecimalDigit(c: char)
  {
    '0' <= c <= '9'
  }

  function DecimalDigit(d: nat): (c: char)
    requires d < 10
    ensures IsDecimalDigit(c)
  {
    ('0' as int + d) as char
  }

  /** The decimal numeral of `n`, without leading zeros. */
  function Decimal(n: nat): (s: string)
    ensures 1 <= |s|
    ensures forall i | 0 <= i < |s| :: IsDecimalDigit(s[i])
    ensures (s[0] == '0') == (n == 0)
    ensures (|s| == 1) == (n < 10)
    decreases n
  {
    if n < 10 then [DecimalDigit(n)] else Decimal(n / 10) + [DecimalDigit(n % 10)]
  }

  function Pow10(k: nat): nat
  {
    if k == 0 then 1 else 10 * Pow10(k - 1)
  }

  /** A number below 10^k has at most k decimal digits. */
  lemma {:induction false} DecimalLength(n: nat, k: nat)
    requires 1 <= k && n < Pow10(k)
    ensures |Decimal(n)| <= k
    decreases k
  {
    if n >= 10 {
      assert k >= 2;
      assert n / 10 < Pow10(k - 1);
      DecimalLength(n / 10, k - 1);
    }
  }

  /** `String(n)` for an integer-valued Number below 10^21 in magnitude: an
      optional minus sign, then the decimal digits. */
  function NumberToString(n: int): (s: string)
    ensures 1 <= |s|
    ensures s[0] == '-' <==> n < 0
  {
    if n < 0 then "-" + Decimal(-n) else Decimal(n)
  }

  /** Past an optional minus sign, the numeral holds only decimal digits. */
  lemma NumeralCharacters(n: int)
    ensures forall i | 0 <= i < |NumberToString(n)| ::
      NumberToString(n)[i] == '-' || IsDecimalDigit(NumberToString(n)[i])
    ensures forall i | 1 <= i < |NumberToString(n)| :: IsDecimalDigit(NumberToString(n)[i])
  {
    if n < 0 {
      var d := Decimal(-n);
      assert forall i | 1 <= i < |NumberToString(n)| :: NumberToString(n)[i] == d[i - 1];
    }
  }

  /** The value of `c` as a digit in radices up to 36, or -1 when it is none. */
  function DigitValue(c: char): (v: int)
    ensures -1 <= v < 36
    ensures IsDecimalDigit(c) ==> v == c as int - '0' as int
  {
    if '0' <= c <= '9' then c as int - '0' as int
    else if 'a' <= c <= 'z' then c as int - 'a' as int + 10
    else if 'A' <= c <= 'Z' then c as int - 'A' as int + 10
    else -1
  }

  predicate IsDigit(c: char, radix: nat)
  {
    0 <= DigitValue(c) < radix
  }

  /** The text that is left once leading white space is removed
      (TrimString(s, start) of ECMA-262). */
  function SkipWhiteSpace(s: string): (r: string)
    ensures |r| <= |s| && r == s[|s| - |r|..]
    ensures forall i | 0 <= i < |s| - |r| :: IsWhiteSpace(s[i])
    ensures r == [] || !IsWhiteSpace(r[0])
  {
    if |s| > 0 && IsWhiteSpace(s[0]) then SkipWhiteSpace(s[1..]) else s
  }

  /** The length of the longest prefix of `s` made of radix digits. */
  function DigitRun(s: string, radix: nat): (n: nat)
    ensures n <= |s|
  {
    if |s| > 0 && IsDigit(s[0], radix) then 1 + DigitRun(s[1..], radix) else 0
  }

  /** The run is as long as it can be: digits up to it, a non-digit (or the
      end of the text) right after it. */
  lemma {:induction false} DigitRunLongest(s: string, radix: nat)
    ensures forall i | 0 <= i < DigitRun(s, radix) :: IsDigit(s[i], radix)
    ensures DigitRun(s, radix) < |s| ==> !IsDigit(s[DigitRun(s, radix)], radix)
    decreases |s|
  {
    if |s| > 0 && IsDigit(s[0], radix) {
      DigitRunLongest(s[1..], radix);
      forall i | 1 <= i < DigitRun(s, radix) ensures IsDigit(s[i], radix) {
        assert s[i] == s[1..][i - 1];
      }
    }
  }

  /** The number a string of radix digits denotes, most significant first. */
  function ValueOf(digits: string, radix: nat): (v: int)
  {
    if digits == [] then 0
    else ValueOf(digits[..|digits| - 1], radix) * radix + DigitValue(digits[|digits| - 1])
  }

  /** The value of the longest run of radix digits that starts `v`, or NaN
      when `v` does not start with one. */
  function ParseDigits(v: string, radix: nat): Option<int>
  {
    var n := DigitRun(v, radix);
    if n == 0 then None else Some(ValueOf(v[..n], radix))
  }

  /** The digits after the sign: radix 16 after a "0x" or "0X" prefix, radix
      10 otherwise. */
  function ParseMagnitude(u: string): Option<int>
  {
    if |u| >= 2 && u[0] == '0' && (u[1] == 'x' || u[1] == 'X') then ParseDigits(u[2..], 16)
    else ParseDigits(u, 10)
  }

  /** What `parseInt` reads once white space is skipped: an optional sign,
      then the magnitude. */
  function ParseSigned(t: string): Option<int>
  {
    var signed := |t| > 0 && (t[0] == '-' || t[0] == '+');
    var sign := if signed && t[0] == '-' then -1 else 1;
    match ParseMagnitude(if signed then t[1..] else t)
    case None => None
    case Some(m) => Some(sign * m)
  }

  /** `parseInt(s)` with no radix: skip leading white space, take an optional
      sign, then read the magnitude. `None` stands for NaN. */
  function ParseInt(s: string): Option<int>
  {
    ParseSigned(SkipWhiteSpace(s))
  }


  lemma {:induction false} DecimalValue(n: nat)
    ensures ValueOf(Decimal(n), 10) == n
    decreases n
  {
    var s := Decimal(n);
    if n >= 10 {
      DecimalValue(n / 10);
      assert s[..|s| - 1] == Decimal(n / 10);
    }
  }

  lemma DecimalDigits(m: nat, rest: string)
    requires rest == [] || !IsDecimalDigit(rest[0])
    ensures ParseDigits(Decimal(m) + rest, 10) == Some(m)
  {
    var d := Decimal(m);
    var u := d + rest;
    forall i | 0 <= i < |d| ensures IsDigit(u[i], 10) { assert u[i] == d[i]; }
    assert rest != [] ==> u[|d|] == rest[0] && !IsDigit(u[|d|], 10);
    DigitRunLongest(u, 10);
    assert DigitRun(u, 10) == |d|;
    assert u[..|d|] == d;
    DecimalValue(m);
  }

  /** Text that starts with a digit is read as an unsigned magnitude. */
  lemma ParseIntUnsigned(t: string)
    requires t != [] && IsDecimalDigit(t[0])
    ensures ParseInt(t) == ParseMagnitude(t)
  {
    assert !IsWhiteSpace(t[0]);
    assert SkipWhiteSpace(t) == t;
  }

  /** After a minus sign, parseInt negates the magnitude that follows. */
  lemma ParseIntNegative(t: string, m: nat)
    requires t != [] && t[0] == '-' && ParseMagnitude(t[1..]) == Some(m)
    ensures ParseInt(t) == Some(-(m as int))
  {
    assert SkipWhiteSpace(t) == t;
  }

  /** A numeral followed by text that does not continue it has the
      numeral's value as its magnitude. */
  lemma DecimalMagnitude(m: nat, rest: string)
    requires rest == [] || (!IsDecimalDigit(rest[0]) && (m == 0 ==> rest[0] != 'x' && rest[0] != 'X'))
    ensures ParseMagnitude(Decimal(m) + rest) == Some(m)
  {
    var d := Decimal(m);
    var u := d + rest;
    assert |u| >= 2 && u[0] == '0' ==> |d| == 1 && u[1] == rest[0];
    DecimalDigits(m, rest);
  }

  lemma UnsignedRoundTrip(n: int, rest: string)
    requires 0 <= n
    requires rest == [] || (!IsDecimalDigit(rest[0]) && (n == 0 ==> rest[0] != 'x' && rest[0] != 'X'))
    ensures ParseInt(NumberToString(n) + rest) == Some(n)
  {
    var u := Decimal(n) + rest;
    assert NumberToString(n) + rest == u;
    assert IsDecimalDigit(u[0]);
    ParseIntUnsigned(u);
    DecimalMagnitude(n, rest);
  }

  lemma DropSign(d: string, rest: string)
    ensures ("-" + d + rest)[0] == '-' && ("-" + d + rest)[1..] == d + rest
  {
  }

  lemma NegativeRoundTrip(n: int, rest: string)
    requires n < 0
    requires rest == [] || !IsDecimalDigit(rest[0])
    ensures ParseInt(NumberToString(n) + rest) == Some(n)
  {
    var t := NumberToString(n) + rest;
    assert t == "-" + Decimal(-n) + rest;
    DropSign(Decimal(-n), rest);
    DecimalMagnitude(-n, rest);
    ParseIntNegative(t, -n);
  }

  /** parseInt reads back what toString wrote, whatever text follows the
      numeral, as long as that text does not continue it. */
  lemma ParseIntRoundTrip(n: int, rest: string)
    requires rest == [] || (!IsDecimalDigit(rest[0]) && (n == 0 ==> rest[0] != 'x' && rest[0] != 'X'))
    ensures ParseInt(NumberToString(n) + rest) == Some(n)
  {
    if n < 0 {
      NegativeRoundTrip(n, rest);
    } else {
      UnsignedRoundTrip(n, rest);
    }
  }

  lemma ParseIntOfNumeral(n: int)
    ensures ParseInt(NumberToString(n)) == Some(n)
  {
    ParseIntRoundTrip(n, []);
    assert NumberToString(n) + [] == NumberToString(n);
  }

  lemma {:induction false} SkipWhiteSpaceAfter(ws: string, s: string)
    requires forall i | 0 <= i < |ws| :: IsWhiteSpace(ws[i])
    ensures SkipWhiteSpace(ws + s) == SkipWhiteSpace(s)
    decreases |ws|
  {
    if ws != [] {
      assert (ws + s)[0] == ws[0];
      assert (ws + s)[1..] == ws[1..] + s;
      SkipWhiteSpaceAfter(ws[1..], s);
    } else {
      assert ws + s == s;
    }
  }

  /** Leading white space never changes what parseInt reads. */
  lemma ParseIntSkipsWhiteSpace(ws: string, s: string)
    requires forall i | 0 <= i < |ws| :: IsWhiteSpace(ws[i])
    ensures ParseInt(ws + s) == ParseInt(s)
  {
    SkipWhiteSpaceAfter(ws, s);
  }

  /** Text that starts with anything other than white space, a sign or a
      decimal digit is NaN to parseInt (so is the empty text). */
  lemma ParseIntNaN(s: string)
    requires s == [] || (!IsWhiteSpace(s[0]) && s[0] != '+' && s[0] != '-' && !IsDecimalDigit(s[0]))
    ensures ParseInt(s) == None
  {
    assert SkipWhiteSpace(s) == s;
    assert s != [] ==> DigitRun(s, 10) == 0;
  }
}

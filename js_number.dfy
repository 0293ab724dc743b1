/**
 * JavaScript's `Number(s)` on a string (ECMAScript's StringToNumber): the
 * whitespace around the literal is ignored, an empty string is 0, `0x`, `0o`
 * and `0b` prefixes read an unsigned integer in that radix, and otherwise an
 * optional sign precedes `Infinity` or a decimal literal with an optional
 * fraction and exponent. Anything else is `NaN`.
 */
module JsNumbers {
  import opened Wrappers
  import opened Text

  /** A finite value `mantissa · 10^exponent`, an infinity of either sign, or `NaN`. */
  datatype JsNumber = Finite(mantissa: int, exponent: int) | Infinite | NaN

  function Pow10(k: nat): (r: nat)
    ensures r >= 1
  {
    if k == 0 then 1 else 10 * Pow10(k - 1)
  }

  /** `m / 10^k` when that division is exact. */
  function DropTens(m: int, k: nat): Option<int>
    decreases k
  {
    if k == 0 then Some(m) else if m % 10 == 0 then DropTens(m / 10, k - 1) else None
  }

  /** A finite value with no fractional part. */
  predicate IsIntegral(x: JsNumber) {
    x.Finite? && (x.exponent >= 0 || DropTens(x.mantissa, -x.exponent).Some?)
  }

  /** The integer an integral value is. */
  function IntegralValue(x: JsNumber): int
    requires IsIntegral(x)
  {
    if x.exponent >= 0 then x.mantissa * Pow10(x.exponent) else DropTens(x.mantissa, -x.exponent).value
  }

  /** The value of a hexadecimal digit of either case; 16 for any other character. */
  function HexValue(c: char): (d: nat)
    ensures d <= 16
    ensures IsDigit(c) ==> d == c as int - '0' as int
  {
    if '0' <= c <= '9' then c as int - '0' as int
    else if 'a' <= c <= 'f' then c as int - 'a' as int + 10
    else if 'A' <= c <= 'F' then c as int - 'A' as int + 10
    else 16
  }

  predicate AllInRadix(s: string, radix: nat) {
    forall i :: 0 <= i < |s| ==> HexValue(s[i]) < radix
  }

  /** The unsigned integer the digits of `s` spell in `radix`. */
  function RadixValue(s: string, radix: nat): nat
    requires AllInRadix(s, radix)
  {
    if s == [] then 0 else RadixValue(s[..|s| - 1], radix) * radix + HexValue(s[|s| - 1])
  }

  /** The radix that the character after a leading `0` selects (`x`, `o`, `b` in either case), or 0. */
  function PrefixRadix(c: char): nat {
    if c == 'x' || c == 'X' then 16
    else if c == 'o' || c == 'O' then 8
    else if c == 'b' || c == 'B' then 2
    else 0
  }

  /** The first position of `c` in `s`, or `|s|` when there is none. */
  function IndexOf(s: string, c: char): (r: nat)
    ensures r <= |s|
    ensures r < |s| ==> s[r] == c
    ensures forall i :: 0 <= i < r ==> s[i] != c
  {
    if s == [] then 0 else if s[0] == c then 0 else 1 + IndexOf(s[1..], c)
  }

  function Min(a: nat, b: nat): nat {
    if a <= b then a else b
  }

  /**
   * An unsigned decimal literal: digits with an optional `.` and fraction
   * digits (at least one digit in all), then an optional `e`/`E` and a
   * signed exponent.
   */
  function UnsignedDecimal(u: string): (r: Option<JsNumber>)
    ensures r.Some? ==> r.value.Finite? && r.value.mantissa >= 0
  {
    var e := ExponentMark(u);
    var exp := if e == |u| then Some(0) else if IntLiteral(u[e + 1..]) then Some(ParseInt(u[e + 1..])) else None;
    match exp
    case None => None
    case Some(k) => Mantissa(u[..e], k)
  }

  /** The position of the first `e` or `E`, or `|u|`. */
  function ExponentMark(u: string): (e: nat)
    ensures e <= |u|
    ensures forall i :: 0 <= i < e ==> u[i] != 'e' && u[i] != 'E'
    ensures e < |u| ==> u[e] == 'e' || u[e] == 'E'
  {
    Min(IndexOf(u, 'e'), IndexOf(u, 'E'))
  }

  /** Digits with an optional `.` and fraction digits, at least one digit in all, scaled by `10^k`. */
  function Mantissa(mant: string, k: int): (r: Option<JsNumber>)
    ensures r.Some? ==> r.value.Finite? && r.value.mantissa >= 0
  {
    var d := IndexOf(mant, '.');
    var ip := mant[..d];
    var fp := if d < |mant| then mant[d + 1..] else [];
    if AllDigits(ip) && AllDigits(fp) && |ip| + |fp| >= 1 then
      assert AllDigits(ip + fp);
      Some(Finite(DigitsValue(ip + fp), k - |fp|))
    else None
  }

  /** A run of digits holds no `.`, `e` or `E`. */
  lemma DigitsHaveNoMarks(ip: string)
    requires AllDigits(ip)
    ensures IndexOf(ip, '.') == |ip| && ExponentMark(ip) == |ip|
  {
  }

  /** A run of digits is a mantissa with no fraction. */
  lemma DigitsMantissa(ip: string, k: int)
    requires |ip| >= 1 && AllDigits(ip)
    ensures Mantissa(ip, k) == Some(Finite(DigitsValue(ip), k))
  {
    DigitsHaveNoMarks(ip);
    assert ip[..|ip|] == ip;
    assert ip + [] == ip;
  }

  /** `Number(s)` for a string `s`: the surrounding whitespace goes, then the literal is read. */
  function StringToNumber(s: string): (x: JsNumber)
    ensures Trim(s) == [] ==> x == Finite(0, 0)
  {
    LiteralNumber(Trim(s))
  }

  /** A literal with no surrounding whitespace: empty, a radix integer, or a signed decimal. */
  function LiteralNumber(t: string): JsNumber {
    if t == [] then Finite(0, 0)
    else if |t| >= 2 && t[0] == '0' && PrefixRadix(t[1]) != 0 then
      var digits := t[2..];
      if |digits| >= 1 && AllInRadix(digits, PrefixRadix(t[1])) then Finite(RadixValue(digits, PrefixRadix(t[1])), 0)
      else NaN
    else SignedDecimal(t)
  }

  /** An optional sign, then `Infinity` or an unsigned decimal literal. */
  function SignedDecimal(t: string): JsNumber
    requires t != []
  {
    var u := if t[0] == '-' || t[0] == '+' then t[1..] else t;
    if u == "Infinity" then Infinite
    else match UnsignedDecimal(u)
      case None => NaN
      case Some(x) => if t[0] == '-' then Finite(0 - x.mantissa, x.exponent) else x
  }

  /** Whitespace around the literal makes no difference. */
  lemma NumberIgnoresSpace(s: string)
    ensures StringToNumber(s) == StringToNumber(Trim(s))
  {
    TrimIdempotent(s);
  }

  /** A run of decimal digits is an unsigned decimal literal with exponent 0. */
  lemma DigitsAreDecimal(u: string)
    requires |u| >= 1 && AllDigits(u)
    ensures UnsignedDecimal(u) == Some(Finite(DigitsValue(u), 0))
  {
    DigitsHaveNoMarks(u);
    assert u[..|u|] == u;
    DigitsMantissa(u, 0);
  }

  /** An integer literal starts with a sign or a digit and ends with a digit, so trimming keeps it. */
  lemma IntLiteralTrimmed(s: string)
    requires IntLiteral(s)
    ensures Trim(s) == s
  {
    assert IsDigit(s[|s| - 1]);
    assert IsDigit(s[0]) || s[0] == '-' || s[0] == '+';
    assert IsTrimmed(s);
  }

  /** No radix prefix: a digit follows a leading zero of an integer literal. */
  lemma IntLiteralIsDecimal(s: string)
    requires IntLiteral(s)
    ensures LiteralNumber(s) == SignedDecimal(s)
  {
    if |s| >= 2 && s[0] == '0' {
      assert IsDigit(s[1]);
    }
  }

  lemma IntLiteralValue(s: string)
    requires IntLiteral(s)
    ensures SignedDecimal(s) == Finite(ParseInt(s), 0)
  {
    if s[0] == '-' || s[0] == '+' {
      DigitsAreDecimal(s[1..]);
      assert s[1..] != "Infinity" by { assert IsDigit(s[1..][0]); }
    } else {
      DigitsAreDecimal(s);
      assert s != "Infinity" by { assert IsDigit(s[0]); }
    }
  }

  /** Every string the validator's `isInt` accepts means to `Number` the integer `ParseInt` reads. */
  lemma NumberOfIntLiteral(s: string)
    requires IntLiteral(s)
    ensures StringToNumber(s) == Finite(ParseInt(s), 0)
    ensures IsIntegral(StringToNumber(s)) && IntegralValue(StringToNumber(s)) == ParseInt(s)
  {
    IntLiteralTrimmed(s);
    IntLiteralIsDecimal(s);
    IntLiteralValue(s);
  }

  /** `Number(String(n)) === n` for every integer the model holds. */
  lemma NumberOfDecimal(n: int)
    ensures StringToNumber(IntToDecimal(n)) == Finite(n, 0)
  {
    DecimalRoundTrip(n);
    NumberOfIntLiteral(IntToDecimal(n));
  }

  // The shapes of string that `isInt` refuses but `Number` still reads as integers.

  /** A leading space is dropped: `Number(" 12") === 12`. */
  lemma LeadingSpaceIgnored(s: string)
    ensures StringToNumber(" " + s) == StringToNumber(s)
  {
    TrimLeadingSpace(s);
  }

  /** The first `e` after a run of digits is the exponent mark. */
  lemma MarkAfterDigits(ip: string, ex: string)
    requires AllDigits(ip)
    ensures ExponentMark(ip + "e" + ex) == |ip|
  {
    var u := ip + "e" + ex;
    assert u[|ip|] == 'e';
    assert forall i :: 0 <= i < |ip| ==> u[i] == ip[i];
  }

  /** `digits e exponent`: `Number("1e2") === 100`. */
  lemma ExponentForm(ip: string, ex: string)
    requires |ip| >= 1 && AllDigits(ip) && IntLiteral(ex)
    ensures UnsignedDecimal(ip + "e" + ex) == Some(Finite(DigitsValue(ip), ParseInt(ex)))
  {
    var u := ip + "e" + ex;
    MarkAfterDigits(ip, ex);
    assert u[..|ip|] == ip && u[|ip| + 1..] == ex;
    DigitsMantissa(ip, ParseInt(ex));
  }

  /** Digits, a point, digits: no exponent mark, and the point after the integer digits. */
  lemma PointAfterDigits(ip: string, fp: string)
    requires AllDigits(ip) && AllDigits(fp)
    ensures ExponentMark(ip + "." + fp) == |ip + "." + fp|
    ensures IndexOf(ip + "." + fp, '.') == |ip|
  {
    var u := ip + "." + fp;
    assert forall i :: 0 <= i < |u| ==> u[i] != 'e' && u[i] != 'E' by {
      forall i | 0 <= i < |u| ensures u[i] != 'e' && u[i] != 'E' {
        if i < |ip| { assert u[i] == ip[i]; }
        else if i > |ip| { assert u[i] == fp[i - |ip| - 1]; }
      }
    }
    assert u[|ip|] == '.' && forall i :: 0 <= i < |ip| ==> u[i] == ip[i];
  }

  /** `digits . digits` with no exponent. */
  lemma FractionForm(ip: string, fp: string)
    requires AllDigits(ip) && AllDigits(fp) && |ip| + |fp| >= 1
    ensures UnsignedDecimal(ip + "." + fp) == Some(Finite(DigitsValue(ip + fp), -|fp|))
  {
    var u := ip + "." + fp;
    PointAfterDigits(ip, fp);
    assert u[..|u|] == u;
    assert u[..|ip|] == ip && u[|ip| + 1..] == fp;
  }

  function Zeros(k: nat): (z: string)
    ensures |z| == k && AllDigits(z)
  {
    seq(k, i => '0')
  }

  /** Trailing zeros multiply by ten each; dropping as many tens gives the digits' own value back. */
  lemma {:induction false} DigitsWithZeros(ip: string, k: nat)
    requires AllDigits(ip)
    ensures AllDigits(ip + Zeros(k)) && DropTens(DigitsValue(ip + Zeros(k)), k) == Some(DigitsValue(ip))
  {
    if k > 0 {
      DigitsWithZeros(ip, k - 1);
      var w := ip + Zeros(k);
      assert w[..|w| - 1] == ip + Zeros(k - 1);
      assert w[|w| - 1] == '0';
      var v := DigitsValue(ip + Zeros(k - 1));
      assert DigitsValue(w) == v * 10;
      assert (v * 10) % 10 == 0 && (v * 10) / 10 == v;
      assert DropTens(v * 10, k) == DropTens(v, k - 1);
    } else {
      assert ip + Zeros(0) == ip;
    }
  }

  /** A fraction of zeros leaves an integer: `Number("12.0") === 12`. */
  lemma ZeroFractionIntegral(ip: string, k: nat)
    requires |ip| >= 1 && AllDigits(ip)
    ensures var x := UnsignedDecimal(ip + "." + Zeros(k)).value;
            IsIntegral(x) && IntegralValue(x) == DigitsValue(ip)
  {
    FractionForm(ip, Zeros(k));
    DigitsWithZeros(ip, k);
  }

  /** `0x`, `0o`, `0b` and their capitals read an unsigned integer in that radix: `Number("0x10") === 16`. */
  lemma RadixForm(c: char, d: string)
    requires PrefixRadix(c) != 0 && |d| >= 1 && AllInRadix(d, PrefixRadix(c))
    ensures LiteralNumber(['0', c] + d) == Finite(RadixValue(d, PrefixRadix(c)), 0)
  {
    assert (['0', c] + d)[2..] == d;
  }
}

/**
 * The JSON values an Express request body carries, and the ways the
 * validators, the route handlers and Mongoose read them.
 */
module Values {
  import opened Wrappers
  import opened Text
  import opened JsNumbers

  /**
   * A JSON value as the handler sees it. `Missing` is `undefined` (the key is
   * absent); `Obj` is an object whose keys the model does not need. Numbers
   * are integers.
   */
  datatype Value = Missing | Null | Bool(b: bool) | Num(n: int) | Str(s: string) | Arr(items: seq<Value>) | Obj

  /** JavaScript truthiness, as in `if (req.body.name)`. */
  predicate Truthy(v: Value) {
    match v
    case Missing => false
    case Null => false
    case Bool(b) => b
    case Num(n) => n != 0
    case Str(s) => s != []
    case Arr(_) => true
    case Obj => true
  }

  /** express-validator's `isInt({ min })`: a number, or a string spelling an integer, no smaller than `min`. */
  predicate IsIntAtLeast(v: Value, min: int) {
    match v
    case Num(n) => n >= min
    case Str(s) => IntLiteral(s) && ParseInt(s) >= min
    case _ => false
  }

  /** The integer a value accepted by `isInt` stands for, as Mongoose casts it. */
  function IntOf(v: Value): int
    requires v.Num? || (v.Str? && IntLiteral(v.s))
  {
    if v.Num? then v.n else ParseInt(v.s)
  }

  /**
   * express-validator's `toString`, the string every validator and sanitizer
   * works on: `''` for `undefined` and `null`, `String(v)` for a boolean or a
   * number, the string itself, `Array.prototype.toString` (the elements
   * joined with commas) for an array, and `"[object Object]"` for an object.
   */
  function JsString(v: Value): (r: string)
    ensures v.Str? ==> r == v.s
    ensures v.Num? ==> IntLiteral(r) && ParseInt(r) == v.n
    ensures v.Missing? || v.Null? ==> r == []
    decreases v
  {
    match v
    case Missing => []
    case Null => []
    case Bool(b) => if b then "true" else "false"
    case Num(n) => DecimalRoundTrip(n); IntToDecimal(n)
    case Str(s) => s
    case Arr(items) => Join(seq(|items|, i requires 0 <= i < |items| => JsString(items[i])), ",")
    case Obj => "[object Object]"
  }

  /** One element of an array after `.trim()`: the trimmed string of the element. */
  function SanitizeItem(v: Value): (r: Value)
    ensures r.Str? && IsTrimmed(r.s)
  {
    Str(Trim(JsString(v)))
  }

  /**
   * The `.trim()` sanitizer. It does not stop at a failed `isString()` (no
   * `.bail()`), and it writes back the trimmed `JsString` of whatever the
   * field held: every present value becomes a string, except that an array
   * becomes an array of strings, element by element. An absent field stays
   * absent (`optional()` skips it).
   */
  function Sanitize(v: Value): (r: Value)
    ensures v.Missing? <==> r.Missing?
    ensures v.Arr? <==> r.Arr?
    ensures !v.Missing? && !v.Arr? ==> r.Str? && IsTrimmed(r.s) && r.s == Trim(JsString(v))
    ensures v.Str? ==> r == Str(Trim(v.s))
    ensures v.Arr? ==> |r.items| == |v.items| &&
                       forall i :: 0 <= i < |r.items| ==> r.items[i].Str? && r.items[i].s == Trim(JsString(v.items[i]))
  {
    match v
    case Missing => Missing
    case Arr(items) => Arr(seq(|items|, i requires 0 <= i < |items| => SanitizeItem(items[i])))
    case _ => Str(Trim(JsString(v)))
  }

  /** Sanitizing twice is sanitizing once: the validators of two chains on one field agree. */
  lemma SanitizeIdempotent(v: Value)
    ensures Sanitize(Sanitize(v)) == Sanitize(v)
  {
    var r := Sanitize(v);
    if v.Arr? {
      forall i | 0 <= i < |r.items| ensures SanitizeItem(r.items[i]) == r.items[i] {
        TrimIdempotent(JsString(v.items[i]));
      }
    } else if !v.Missing? {
      TrimIdempotent(JsString(v));
    }
  }

  /** A number passed to a `.trim()` chain comes out as its decimal string. */
  lemma SanitizeNumber(n: int)
    ensures Sanitize(Num(n)) == Str(IntToDecimal(n))
  {
    DecimalRoundTrip(n);
    IntLiteralTrimmed(IntToDecimal(n));
  }

  /**
   * Mongoose's cast of an update value to Number; `None` is a CastError. A
   * string goes through `Number()` (`JsNumbers.StringToNumber`), so
   * surrounding whitespace, an exponent, a `0x`/`0o`/`0b` prefix and a zero
   * fraction are all read as integers. The empty string never reaches the
   * cast: the PATCH handler copies only truthy values.
   */
  function CastNumber(v: Value): (r: Option<int>)
    ensures (v.Num? || (v.Str? && IntLiteral(v.s))) ==> r == Some(IntOf(v))
    ensures v.Str? && v.s != [] ==> (r.Some? <==> IsIntegral(StringToNumber(v.s)))
    ensures v.Str? && r.Some? ==> r.value == IntegralValue(StringToNumber(v.s))
    ensures v.Arr? || v.Obj? || v.Null? || v.Missing? ==> r == None
  {
    match v
    case Num(n) => Some(n)
    case Str(s) =>
      if s != [] && IsIntegral(StringToNumber(s)) then
        assert IntLiteral(s) ==> IntegralValue(StringToNumber(s)) == ParseInt(s) by {
          if IntLiteral(s) { NumberOfIntLiteral(s); }
        }
        Some(IntegralValue(StringToNumber(s)))
      else
        assert IntLiteral(s) ==> s != [] && IsIntegral(StringToNumber(s)) by {
          if IntLiteral(s) { NumberOfIntLiteral(s); }
        }
        None
    case Bool(b) => Some(if b then 1 else 0)
    case _ => None
  }

  /** A string that `isInt` refuses for its leading space still casts, to the integer after the space. */
  lemma CastNumberSkipsSpace(s: string)
    requires IntLiteral(s)
    ensures CastNumber(Str(" " + s)) == Some(ParseInt(s))
  {
    NumberOfIntLiteral(s);
    LeadingSpaceIgnored(s);
  }

  /** Mongoose's cast of an update value to String; `None` is a CastError. */
  function CastString(v: Value): (r: Option<string>)
    ensures v.Str? ==> r == Some(v.s)
    ensures v.Num? ==> r.Some? && IntLiteral(r.value) && ParseInt(r.value) == v.n
    ensures v.Str? || v.Num? || v.Bool? ==> r == Some(JsString(v))
    ensures v.Arr? || v.Obj? ==> r == None
  {
    match v
    case Str(s) => Some(s)
    case Num(n) => DecimalRoundTrip(n); Some(IntToDecimal(n))
    case Bool(b) => Some(if b then "true" else "false")
    case _ => None
  }
}

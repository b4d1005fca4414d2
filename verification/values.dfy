/**
 * The loosely typed values the handlers receive from JSON bodies, query
 * strings and DynamoDB items, with Python's truthiness, `dict.get` and `str()`.
 */
module Values {
  import opened Text

  datatype Option<+T> = None | Some(value: T)

  /** A JSON / DynamoDB value as the Python code sees it. DynamoDB numbers
      arrive as `Decimal`; the handlers turn whole ones into `int` and the rest
      into `float`, which is what `Int` and `Float` stand for. */
  datatype Value =
    | Null
    | Bool(b: bool)
    | Int(i: int)
    | Float(f: real)
    | Str(s: string)
    | List(items: seq<Value>)
    | Dict(fields: map<string, Value>)

  /** Python truthiness: `None`, `False`, zero, and empty strings and
      containers are false. */
  predicate Truthy(v: Value)
  {
    match v
    case Null => false
    case Bool(b) => b
    case Int(i) => i != 0
    case Float(f) => f != 0.0
    case Str(s) => s != ""
    case List(items) => items != []
    case Dict(fields) => fields != map[]
  }

  /** `d.get(key, default)`. */
  function GetOr(d: map<string, Value>, key: string, default: Value): Value
  {
    if key in d then d[key] else default
  }

  /** `d.get(key)`: a missing key reads as `None`. */
  function Get(d: map<string, Value>, key: string): Value
  {
    GetOr(d, key, Null)
  }

  /** `a or b` on two values: `a` when it is truthy, else `b`. */
  function Or(a: Value, b: Value): (r: Value)
    ensures Truthy(a) ==> r == a
    ensures !Truthy(a) ==> r == b
  {
    if Truthy(a) then a else b
  }

  predicate IsScalar(v: Value)
  {
    v.Bool? || v.Int? || v.Float? || v.Str?
  }

  /** `int(f)` for a float: the integer part, rounding toward zero. */
  function Trunc(f: real): (r: int)
    ensures f >= 0.0 ==> r as real <= f < r as real + 1.0
    ensures f < 0.0 ==> r as real - 1.0 < f <= r as real
  {
    if f >= 0.0 then f.Floor else -((-f).Floor)
  }

  /** The text forms `int()` accepts once whitespace is stripped: decimal
      digits with an optional leading sign. */
  predicate IsIntText(t: string)
  {
    AllDigits(t) || (|t| > 1 && (t[0] == '-' || t[0] == '+') && AllDigits(t[1..]))
  }

  /** Python `int(s)` on text: optional surrounding whitespace, an optional
      sign and decimal digits; `None` where Python raises `ValueError`. */
  function ParseInt(s: string): (r: Option<int>)
    ensures r.Some? <==> IsIntText(Strip(s))
    ensures AllDigits(Strip(s)) ==> r == Some(DigitsValue(Strip(s)))
    ensures var t := Strip(s); |t| > 1 && t[0] == '-' && AllDigits(t[1..]) ==> r == Some(-(DigitsValue(t[1..]) as int))
    ensures var t := Strip(s); |t| > 1 && t[0] == '+' && AllDigits(t[1..]) ==> r == Some(DigitsValue(t[1..]))
    ensures r.Some? ==> |Strip(s)| > 0
  {
    ParseSigned(Strip(s))
  }

  /** An optionally signed run of decimal digits. */
  function ParseSigned(t: string): (r: Option<int>)
    ensures r.Some? <==> IsIntText(t)
    ensures AllDigits(t) ==> r == Some(DigitsValue(t))
    ensures |t| > 1 && t[0] == '-' && AllDigits(t[1..]) ==> r == Some(-(DigitsValue(t[1..]) as int))
    ensures |t| > 1 && t[0] == '+' && AllDigits(t[1..]) ==> r == Some(DigitsValue(t[1..]))
    ensures r.Some? ==> |t| > 0
  {
    if AllDigits(t) then Some(DigitsValue(t))
    else if |t| > 1 && (t[0] == '-' || t[0] == '+') && AllDigits(t[1..]) then
      var magnitude: int := DigitsValue(t[1..]);
      Some(if t[0] == '-' then -magnitude else magnitude)
    else None
  }

  /** Python `int(v)` on a loose value; `None` where it raises. */
  function ToInt(v: Value): (r: Option<int>)
    ensures v.Int? ==> r == Some(v.i)
    ensures v.Null? || v.List? || v.Dict? ==> r.None?
    ensures v.Bool? ==> r == Some(if v.b then 1 else 0)
    // a float loses its fraction, rounding toward zero
    ensures v.Float? ==> r == Some(Trunc(v.f))
    // text is read as optionally signed decimal digits after stripping
    ensures v.Str? ==> (r.Some? <==> IsIntText(Strip(v.s)))
    ensures v.Str? ==> r == ParseInt(v.s)
  {
    match v
    case Null => None
    case Bool(b) => Some(if b then 1 else 0)
    case Int(i) => Some(i)
    case Float(f) => Some(Trunc(f))
    case Str(s) => ParseInt(s)
    case List(_) => None
    case Dict(_) => None
  }

  /** The decimal text Python prints for an integer reads back as that integer. */
  lemma ParseIntRoundTrip(n: int)
    ensures ParseInt(IntToString(n)) == Some(n)
  {
    var s := IntToString(n);
    StripUnchanged(s);
    ParseSignedRoundTrip(n);
  }

  lemma ParseSignedRoundTrip(n: int)
    ensures ParseSigned(IntToString(n)) == Some(n)
  {
    if n >= 0 {
      NatToStringRoundTrip(n);
    } else {
      var s := IntToString(n);
      var digits := NatToString(-n);
      assert s == "-" + digits;
      assert s[1..] == digits;
      NatToStringRoundTrip(-n);
      assert !IsDigit(s[0]);
    }
  }

  /** Library renderings the model does not reproduce: `repr` of a float,
      `str` of a list or dict, and `json.dumps`. */
  datatype Repr = Repr(
    floatText: real -> string,
    containerText: Value -> string,
    jsonText: Value -> string)

  /** Python `str(v)`. */
  function PyStr(v: Value, repr: Repr): string
  {
    match v
    case Null => "None"
    case Bool(b) => if b then "True" else "False"
    case Int(i) => IntToString(i)
    case Float(f) => repr.floatText(f)
    case Str(s) => s
    case List(_) => repr.containerText(v)
    case Dict(_) => repr.containerText(v)
  }
}

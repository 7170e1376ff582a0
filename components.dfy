/** The shared vocabulary of the client: optional values and results, HTTP
    methods, well-known header names, parameter values and the API errors
    with their user-facing descriptions (Components.swift). */
module Components {

  datatype Option<+T> = None | Some(value: T)

  /** The outcome of an operation that throws an `APIError` or yields a value. */
  datatype Result<+T> = Success(value: T) | Failure(error: APIError)

  /** The outcome of an operation that throws an `APIError` or returns nothing. */
  datatype Outcome = Pass | Fail(error: APIError)

  /** Header fields, keyed by the exact field name. */
  type HTTPHeaders = map<string, string>

  /** Well-known header field names (`HTTPHeaderKey`). */
  const AcceptEncoding: string := "Accept-Encoding"
  const ContentType: string := "Content-Type"

  /** The HTTP request method, with its raw value as sent on the wire. */
  datatype HTTPMethod = GET | POST {
    function RawValue(): string {
      match this
      case GET => "GET"
      case POST => "POST"
    }
  }

  /** The failable initialiser `HTTPMethod(rawValue:)` that a raw-valued enum gets. */
  function MethodFromRawValue(raw: string): (m: Option<HTTPMethod>)
    ensures m.Some? ==> m.value.RawValue() == raw
  {
    if raw == "GET" then Some(GET)
    else if raw == "POST" then Some(POST)
    else None
  }

  /** Every method's raw value is read back as that method, and only the two
      raw values are recognised. */
  lemma MethodRawValueRoundTrip(m: HTTPMethod, raw: string)
    ensures MethodFromRawValue(m.RawValue()) == Some(m)
    ensures MethodFromRawValue(raw).Some? <==> raw == "GET" || raw == "POST"
  {
  }

  /** A parameter value (`Any` in `Parameters`), restricted to the kinds a
      caller puts there: strings, integers and booleans. */
  datatype Value = Str(s: string) | Int(i: int) | Bool(b: bool)

  predicate IsDigit(c: char) {
    '0' <= c <= '9'
  }

  function DigitChar(d: nat): (c: char)
    requires d < 10
    ensures IsDigit(c)
  {
    ('0' as int + d) as char
  }

  function DigitValue(c: char): (d: nat)
    requires IsDigit(c)
    ensures d < 10 && DigitChar(d) == c
  {
    c as int - '0' as int
  }

  /** Decimal digits of a natural number, most significant first, no leading zeros. */
  function NatToDecimal(n: nat): (s: string)
    ensures |s| >= 1 && forall i :: 0 <= i < |s| ==> IsDigit(s[i])
    decreases n
  {
    if n < 10 then [DigitChar(n)] else NatToDecimal(n / 10) + [DigitChar(n % 10)]
  }

  /** Swift's decimal rendering of an `Int` (string interpolation). */
  function IntToDecimal(n: int): string {
    if n < 0 then "-" + NatToDecimal(-n) else NatToDecimal(n)
  }

  /** Reads a non-empty string of decimal digits. */
  function ParseNat(s: string): Option<nat>
    decreases |s|
  {
    if |s| == 0 || !IsDigit(s[|s| - 1]) then None
    else if |s| == 1 then Some(DigitValue(s[0]))
    else match ParseNat(s[..|s| - 1])
      case None => None
      case Some(p) => Some(10 * p + DigitValue(s[|s| - 1]))
  }

  /** Reads an optionally negative decimal integer. */
  function ParseInt(s: string): Option<int> {
    if |s| > 0 && s[0] == '-' then
      match ParseNat(s[1..])
      case None => None
      case Some(p) => Some(0 - p)
    else
      match ParseNat(s)
      case None => None
      case Some(p) => Some(p)
  }

  lemma {:induction false} ParseNatToDecimal(n: nat)
    ensures ParseNat(NatToDecimal(n)) == Some(n)
    decreases n
  {
    if n >= 10 {
      var s := NatToDecimal(n);
      assert s[..|s| - 1] == NatToDecimal(n / 10);
      ParseNatToDecimal(n / 10);
    }
  }

  /** The decimal rendering of an integer reads back as that integer. */
  lemma IntToDecimalRoundTrip(n: int)
    ensures ParseInt(IntToDecimal(n)) == Some(n)
  {
    var s := IntToDecimal(n);
    if n < 0 {
      var digits := NatToDecimal(-n);
      assert s == "-" + digits;
      assert s[0] == '-' && s[1..] == digits;
      ParseNatToDecimal(-n);
      assert ParseNat(s[1..]) == Some(-n);
    } else {
      assert s == NatToDecimal(n);
      assert IsDigit(s[0]);
      ParseNatToDecimal(n);
    }
  }

  /** Two integers with the same decimal rendering are equal. */
  lemma IntToDecimalInjective(a: int, b: int)
    ensures IntToDecimal(a) == IntToDecimal(b) ==> a == b
  {
    IntToDecimalRoundTrip(a);
    IntToDecimalRoundTrip(b);
  }

  /** `"\(value)"`: how a parameter value is rendered into a URL query or a
      multipart field. Strings render as themselves, integers in decimal,
      booleans as `true` / `false`. */
  function Describe(v: Value): (r: string)
    ensures v.Str? ==> r == v.s
    ensures v.Int? ==> ParseInt(r) == Some(v.i)
  {
    match v
    case Str(s) => s
    case Int(i) => IntToDecimalRoundTrip(i); IntToDecimal(i)
    case Bool(b) => if b then "true" else "false"
  }

  /** The errors the client throws. `NoNetwork` and `DecodingFailed` are thrown
      by the request entry point and by the JSON parser although the enum in
      Components.swift does not list them. */
  datatype APIError =
    | EncodingFailed
    | NoResponse
    | BadStatusCode(statusCode: int)
    | InvalidURL
    | Unknown
    | NoNetwork
    | DecodingFailed

  const BadStatusCodePrefix: string := "Bad status code: "

  /** `errorDescription`. The enum declares only five cases, so the source
      gives no description for the two thrown but undeclared ones; the model
      chooses to give them none. */
  function ErrorDescription(e: APIError): (r: Option<string>)
    ensures r.Some? <==> !(e.NoNetwork? || e.DecodingFailed?)
  {
    match e
    case EncodingFailed => Some("Failed to encode")
    case NoResponse => Some("No response")
    case BadStatusCode(code) => Some(BadStatusCodePrefix + IntToDecimal(code))
    case InvalidURL => Some("Invalid URL")
    case Unknown => Some("Unknown API error")
    case NoNetwork => None
    case DecodingFailed => None
  }

  /** The description of a bad status code carries the code, readable back. */
  lemma BadStatusCodeDescription(code: int)
    ensures var d := ErrorDescription(BadStatusCode(code));
      && d.Some?
      && |d.value| > |BadStatusCodePrefix|
      && d.value[..|BadStatusCodePrefix|] == BadStatusCodePrefix
      && ParseInt(d.value[|BadStatusCodePrefix|..]) == Some(code)
  {
    var d := ErrorDescription(BadStatusCode(code)).value;
    assert d[|BadStatusCodePrefix|..] == IntToDecimal(code);
    IntToDecimalRoundTrip(code);
  }

  /** Distinct described errors have distinct descriptions. */
  lemma ErrorDescriptionInjective(e1: APIError, e2: APIError)
    requires ErrorDescription(e1).Some? && ErrorDescription(e1) == ErrorDescription(e2)
    ensures e1 == e2
  {
    var d := ErrorDescription(e1).value;
    if e1.BadStatusCode? || e2.BadStatusCode? {
      assert d[0] == 'B';
      assert e1.BadStatusCode? && e2.BadStatusCode?;
      var n := |BadStatusCodePrefix|;
      assert d[n..] == IntToDecimal(e1.statusCode);
      assert d[n..] == IntToDecimal(e2.statusCode);
      IntToDecimalInjective(e1.statusCode, e2.statusCode);
    }
  }
}

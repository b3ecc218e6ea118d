/** The HTTP vocabulary the route speaks: bytes, headers, the two kinds of
    response it builds, the `ok` test of a fetched response, and the decimal
    rendering a status code gets inside a template string. */
module Http {

  newtype byte = x: int | 0 <= x < 256

  datatype Header = Header(name: string, value: string)

  /** What the handler returns: the downloaded image as a binary body with
      fixed headers (status 200), or a JSON body `{ error }` with a status. */
  datatype Response =
    | Binary(headers: seq<Header>, bytes: seq<byte>)
    | Json(status: nat, error: string)
  {
    function Status(): nat {
      if Binary? then 200 else status
    }
  }

  /** `Response.ok` of the Fetch standard: a status in the range 200-299. */
  predicate IsOk(status: nat) {
    200 <= status <= 299
  }

  function DigitChar(d: nat): (c: char)
    requires d < 10
    ensures '0' <= c <= '9' && c as int - '0' as int == d
  {
    ('0' as int + d) as char
  }

  predicate AllDigits(s: string) {
    forall i :: 0 <= i < |s| ==> '0' <= s[i] <= '9'
  }

  /** How `${n}` renders a non-negative integer: its decimal digits,
      without leading zeros. */
  function Decimal(n: nat): (s: string)
    ensures |s| >= 1 && AllDigits(s)
    ensures n > 0 ==> s[0] != '0'
    decreases n
  {
    if n < 10 then [DigitChar(n)] else Decimal(n / 10) + [DigitChar(n % 10)]
  }

  /** The number a string of decimal digits denotes. */
  function DecimalValue(s: string): nat
    requires AllDigits(s)
  {
    if s == [] then 0
    else DecimalValue(s[..|s| - 1]) * 10 + (s[|s| - 1] as int - '0' as int)
  }

  /** Rendering a status code loses nothing: the digits read back as the code. */
  lemma {:induction false} DecimalRoundTrip(n: nat)
    ensures DecimalValue(Decimal(n)) == n
    decreases n
  {
    if n >= 10 {
      var s := Decimal(n);
      assert s[..|s| - 1] == Decimal(n / 10);
      DecimalRoundTrip(n / 10);
    }
  }

  /** Hence two different status codes never render to the same text. */
  lemma DecimalInjective(m: nat, n: nat)
    requires Decimal(m) == Decimal(n)
    ensures m == n
  {
    DecimalRoundTrip(m);
    DecimalRoundTrip(n);
  }
}

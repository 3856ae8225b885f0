/**
 * The provider's reply: a body that starts with the provider's decimal
 * status code, possibly followed by more text. The client reads the leading
 * digits as the response code.
 */
module Reply {
  import opened Wrappers
  import opened Fields

  /** What `send` hands back: the provider's status code and the whole body. */
  datatype Response = Response(code: nat, body: string)

  function DigitValue(c: char): (d: nat)
    requires IsDigit(c)
    ensures d < 10
  {
    c as int - '0' as int
  }

  function DigitChar(d: nat): (c: char)
    requires d < 10
    ensures IsDigit(c) && DigitValue(c) == d
  {
    ('0' as int + d) as char
  }

  /** The decimal numeral of n, as the provider writes it. */
  function Decimal(n: nat): (r: string)
    ensures r != [] && AllDigits(r)
  {
    if n < 10 then [DigitChar(n)] else Decimal(n / 10) + [DigitChar(n % 10)]
  }

  /** The value of a numeral. */
  function NumeralValue(s: string): nat
    requires AllDigits(s)
  {
    if s == [] then 0 else 10 * NumeralValue(s[..|s| - 1]) + DigitValue(s[|s| - 1])
  }

  /** The longest prefix of s made of digits. */
  function LeadingDigits(s: string): (r: string)
    ensures AllDigits(r) && r <= s
    ensures |r| < |s| ==> !IsDigit(s[|r|])
  {
    if s == [] || !IsDigit(s[0]) then [] else [s[0]] + LeadingDigits(s[1..])
  }

  /** The status code at the front of a reply body; None when the body does not start with a digit. */
  function ParseCode(body: string): (r: Option<nat>)
    ensures r.None? <==> (body == [] || !IsDigit(body[0]))
  {
    var digits := LeadingDigits(body);
    if digits == [] then None else Some(NumeralValue(digits))
  }

  /**
   * Turns what the HTTP exchange produced into the outcome of `send`: None
   * (the exchange did not complete) is TransportFailure, a body without a
   * leading code is MalformedResponse.
   */
  function Respond(reply: Option<string>): (r: Result<Response, Error>)
    ensures reply.None? ==> r == Err(TransportFailure)
    ensures r.Ok? ==> reply == Some(r.value.body) && ParseCode(r.value.body) == Some(r.value.code)
    ensures reply.Some? && ParseCode(reply.value).Some? ==> r.Ok?
  {
    match reply
    case None => Err(TransportFailure)
    case Some(body) =>
      match ParseCode(body)
      case None => Err(MalformedResponse)
      case Some(code) => Ok(Response(code, body))
  }

  lemma {:induction false} NumeralValueDecimal(n: nat)
    ensures NumeralValue(Decimal(n)) == n
  {
    if n >= 10 {
      var r := Decimal(n);
      assert r[..|r| - 1] == Decimal(n / 10);
      NumeralValueDecimal(n / 10);
    }
  }

  lemma {:induction false} LeadingDigitsOfNumeral(digits: string, rest: string)
    requires AllDigits(digits)
    requires rest == [] || !IsDigit(rest[0])
    ensures LeadingDigits(digits + rest) == digits
  {
    if digits == [] {
      assert digits + rest == rest;
    } else {
      assert (digits + rest)[1..] == digits[1..] + rest;
      LeadingDigitsOfNumeral(digits[1..], rest);
      assert digits == [digits[0]] + digits[1..];
    }
  }

  /**
   * A reply that starts with the numeral of a code, followed by nothing or by
   * text that does not start with a digit, yields a response with that code.
   */
  lemma RespondCode(code: nat, rest: string)
    requires rest == [] || !IsDigit(rest[0])
    ensures Respond(Some(Decimal(code) + rest)) == Ok(Response(code, Decimal(code) + rest))
  {
    LeadingDigitsOfNumeral(Decimal(code), rest);
    NumeralValueDecimal(code);
  }
}

/**
  The error taxonomy of the generation client: a base class
  `GenerateClientError` and three sibling subclasses.  Each concrete error
  is a datatype constructor; the class hierarchy is stated explicitly so
  that `isinstance` tests and `except` filters can be written over it.
 */
module Errors {
  import opened Http

  datatype GenerateClientError =
    | /** `GenerateNetworkError(error)`: wraps the transport error, whose text is `cause`. */
      GenerateNetworkError(cause: string)
    | /** `GenerateResponseError(message, response)`: `message` is kept verbatim. */
      GenerateResponseError(message: Json, response: Response)
    | /** `GenerateSafeError(response)`: carries the response only. */
      GenerateSafeError(response: Response)

  /** The four classes of the hierarchy. */
  datatype ErrorClass =
    | GenerateClientErrorClass
    | GenerateNetworkErrorClass
    | GenerateResponseErrorClass
    | GenerateSafeErrorClass

  /** The class each error value is an instance of. */
  function ClassOf(e: GenerateClientError): ErrorClass
  {
    match e
    case GenerateNetworkError(_) => GenerateNetworkErrorClass
    case GenerateResponseError(_, _) => GenerateResponseErrorClass
    case GenerateSafeError(_) => GenerateSafeErrorClass
  }

  /** Python's `issubclass` on this hierarchy: reflexive, and every class derives from the base. */
  predicate IsSubclass(sub: ErrorClass, sup: ErrorClass)
  {
    sub == sup || sup == GenerateClientErrorClass
  }

  /** Python's `isinstance(e, cls)`. */
  predicate IsInstance(e: GenerateClientError, cls: ErrorClass)
  {
    IsSubclass(ClassOf(e), cls)
  }

  /** One handler on the base class catches every generation failure. */
  lemma BaseCatchesAll(e: GenerateClientError)
    ensures IsInstance(e, GenerateClientErrorClass)
  {
  }

  /** The three concrete classes are siblings: an error is an instance of exactly one of them. */
  lemma ConcreteClassesAreSiblings(e: GenerateClientError)
    ensures IsInstance(e, GenerateNetworkErrorClass) <==> e.GenerateNetworkError?
    ensures IsInstance(e, GenerateResponseErrorClass) <==> e.GenerateResponseError?
    ensures IsInstance(e, GenerateSafeErrorClass) <==> e.GenerateSafeError?
  {
  }

  // ---------------------------------------------------------------------
  // String form
  // ---------------------------------------------------------------------

  /** The decimal digit for 0..9. */
  function DigitChar(d: nat): (c: char)
    requires d < 10
    ensures '0' <= c <= '9' && c as int - '0' as int == d
  {
    ['0', '1', '2', '3', '4', '5', '6', '7', '8', '9'][d]
  }

  /** Python's `f"{n}"` for a non-negative int: its decimal digits, most significant first. */
  function Decimal(n: nat): string
    decreases n
  {
    if n < 10 then [DigitChar(n)] else Decimal(n / 10) + [DigitChar(n % 10)]
  }

  predicate IsDigit(c: char)
  {
    '0' <= c <= '9'
  }

  /** The value of a string of decimal digits. */
  function DecimalValue(s: string): nat
    requires forall i | 0 <= i < |s| :: IsDigit(s[i])
  {
    if s == [] then 0
    else
      assert IsDigit(s[|s| - 1]);
      10 * DecimalValue(s[..|s| - 1]) + (s[|s| - 1] as int - '0' as int)
  }

  /**
    The decimal form is a non-empty string of digits that reads back as `n`
    and has no leading zero: it starts with '0' only when it is exactly "0".
   */
  lemma {:induction false} DecimalRoundTrip(n: nat)
    ensures |Decimal(n)| > 0
    ensures forall i | 0 <= i < |Decimal(n)| :: IsDigit(Decimal(n)[i])
    ensures DecimalValue(Decimal(n)) == n
    ensures Decimal(n)[0] == '0' ==> n == 0 && Decimal(n) == "0"
  {
    if n >= 10 {
      DecimalRoundTrip(n / 10);
      var s := Decimal(n);
      assert s[..|s| - 1] == Decimal(n / 10);
      assert s[0] == Decimal(n / 10)[0];
    }
  }

  /**
    `str(e)`: for a network error, the text of the wrapped transport error;
    for the other two, the response's status code in decimal, a space, and
    the response's body text (__init__.py:24, 34).
   */
  function Str(e: GenerateClientError): string
  {
    match e
    case GenerateNetworkError(cause) => cause
    case GenerateResponseError(_, r) => Decimal(r.statusCode) + " " + r.text
    case GenerateSafeError(r) => Decimal(r.statusCode) + " " + r.text
  }

  /**
    The string form of a response or safety error splits at its first space
    into the status code, read back as a number, and the verbatim body text;
    it never depends on `.message`.
   */
  lemma StrOfResponse(e: GenerateClientError)
    requires !e.GenerateNetworkError?
    ensures var s, k := Str(e), |Decimal(e.response.statusCode)|;
      && 0 < k < |s|
      && (forall i | 0 <= i < k :: IsDigit(s[i]))
      && s[k] == ' '
      && DecimalValue(s[..k]) == e.response.statusCode
      && s[k + 1..] == e.response.text
      && (s[0] == '0' ==> k == 1 && e.response.statusCode == 0)
    ensures Str(e) == Str(GenerateSafeError(e.response))
  {
    var d := Decimal(e.response.statusCode);
    DecimalRoundTrip(e.response.statusCode);
    assert Str(e)[..|d|] == d;
  }

  /** Two response errors over the same response print alike whatever their messages. */
  lemma StrIgnoresMessage(m1: Json, m2: Json, r: Response)
    ensures Str(GenerateResponseError(m1, r)) == Str(GenerateResponseError(m2, r))
  {
  }
}

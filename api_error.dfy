/**
 * The error the Unsplash client reports for an HTTP response outside
 * 200..299: a named case for the seven status codes the API documents,
 * `Unknown(code)` for every other code.
 */
module UnsplashAPIErrors {
  import opened Wrappers
  import Decimal

  datatype UnsplashAPIError =
    | BadRequest
    | Unauthorized
    | Forbidden
    | NotFound
    | RateLimitExceeded
    | ServerError
    | ServerError2
    | Unknown(code: int)

  /** The status codes that have a case of their own. */
  predicate IsNamedCode(c: int) {
    c == 400 || c == 401 || c == 403 || c == 404 || c == 429 || c == 500 || c == 503
  }

  const UnknownPrefix := "HTTP Error: Received status code "
  const ServerErrorText := "Server Error: Something went wrong on our end"

  /** `init(statusCode:)`: the case for an HTTP status code. */
  function FromStatusCode(c: int): (e: UnsplashAPIError)
    ensures c == 400 <==> e == BadRequest
    ensures c == 401 <==> e == Unauthorized
    ensures c == 403 <==> e == Forbidden
    ensures c == 404 <==> e == NotFound
    ensures c == 429 <==> e == RateLimitExceeded
    ensures c == 500 <==> e == ServerError
    ensures c == 503 <==> e == ServerError2
    ensures !IsNamedCode(c) <==> e == Unknown(c)
    ensures StatusCode(e) == c
  {
    match c
    case 400 => BadRequest
    case 401 => Unauthorized
    case 403 => Forbidden
    case 404 => NotFound
    case 429 => RateLimitExceeded
    case 500 => ServerError
    case 503 => ServerError2
    case _ => Unknown(c)
  }

  /** `statusCode`: the HTTP status code a case stands for. */
  function StatusCode(e: UnsplashAPIError): (c: int)
    ensures e.Unknown? ==> c == e.code
    ensures !e.Unknown? ==> IsNamedCode(c)
  {
    match e
    case BadRequest => 400
    case Unauthorized => 401
    case Forbidden => 403
    case NotFound => 404
    case RateLimitExceeded => 429
    case ServerError => 500
    case ServerError2 => 503
    case Unknown(code) => code
  }

  /** `errorDescription`: the user-facing text of each case. */
  function ErrorDescription(e: UnsplashAPIError): (d: Option<string>)
    ensures d.Some?
    ensures e.Unknown? ==> d.value == UnknownPrefix + Decimal.IntToString(e.code)
    ensures e.ServerError? || e.ServerError2? ==> d.value == ServerErrorText
  {
    Some(
      match e
      case BadRequest => "Bad Request: The request was unacceptable, often due to missing a required parameter"
      case Unauthorized => "Unauthorized: Invalid Access Token"
      case Forbidden => "Forbidden: Missing permissions to perform request"
      case NotFound => "Not Found: The requested resource doesn't exist"
      case RateLimitExceeded => "Rate Limit Exceeded: Too many requests"
      case ServerError => ServerErrorText
      case ServerError2 => ServerErrorText
      case Unknown(code) => UnknownPrefix + Decimal.IntToString(code))
  }

  /**
   * Reading a case's status code back gives the case itself, except for an
   * `Unknown` that carries one of the seven named codes.
   */
  lemma StatusCodeRoundTrip(e: UnsplashAPIError)
    ensures FromStatusCode(StatusCode(e)) == e <==> !(e.Unknown? && IsNamedCode(e.code))
  {
  }

  /** `ServerError` and `ServerError2` read alike but carry 500 and 503. */
  lemma ServerErrorsShareDescription()
    ensures ErrorDescription(ServerError) == ErrorDescription(ServerError2)
    ensures StatusCode(ServerError) == 500 && StatusCode(ServerError2) == 503
  {
  }

  /** The status code of an `Unknown` error can be read back from its description. */
  lemma UnknownDescriptionCarriesCode(c: int)
    requires !IsNamedCode(c)
    ensures var d := ErrorDescription(FromStatusCode(c)).value;
      |d| > |UnknownPrefix| && d[..|UnknownPrefix|] == UnknownPrefix &&
      Decimal.ParseInt(d[|UnknownPrefix|..]) == Some(c)
  {
    var d := ErrorDescription(FromStatusCode(c)).value;
    assert d[|UnknownPrefix|..] == Decimal.IntToString(c);
    Decimal.IntToStringRoundTrip(c);
  }

  /** Different unknown status codes give different descriptions. */
  lemma UnknownDescriptionsDistinct(c1: int, c2: int)
    requires c1 != c2
    ensures ErrorDescription(Unknown(c1)) != ErrorDescription(Unknown(c2))
  {
    var d1, d2 := ErrorDescription(Unknown(c1)).value, ErrorDescription(Unknown(c2)).value;
    if d1 == d2 {
      assert d1[|UnknownPrefix|..] == Decimal.IntToString(c1);
      assert d2[|UnknownPrefix|..] == Decimal.IntToString(c2);
      Decimal.IntToStringInjective(c1, c2);
    }
  }
}

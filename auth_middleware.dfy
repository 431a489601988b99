/** The `auth` middleware: reads the `Authorization` header, takes the token after the
    `Bearer ` prefix and verifies it. The token check itself (signature and expiry against
    the server secret) is the parameter `verify`, which yields the decoded payload or `None`
    when the library throws. */
module AuthMiddleware {
  import opened Wrappers

  const BearerPrefix: string := "Bearer "
  const Unauthorized: nat := 401
  const MissingToken: string := "Authorization token missing"
  const InvalidToken: string := "Invalid or expired token"

  /** What the middleware does with a request: call `next` with the decoded payload
      attached as `req.user`, or answer itself. */
  datatype Outcome<Claims> =
    | Next(user: Claims)
    | Reject(status: nat, message: string)

  /** The token the header carries: the header (`""` when absent) must start with exactly
      `"Bearer "`, and the token is everything after those seven characters. */
  function ExtractToken(authorization: Option<string>): (token: Option<string>)
    ensures token.Some? <==> authorization.Some? && BearerPrefix <= authorization.value
    ensures token.Some? ==> token.value == authorization.value[7..]
    ensures token.Some? ==> authorization.value == BearerPrefix + token.value
  {
    var header := authorization.GetOr("");
    if BearerPrefix <= header then
      assert header == BearerPrefix + header[7..];
      Some(header[7..])
    else None
  }

  /** `auth(req, res, next)`. A missing or empty token is rejected before `verify` is
      consulted; otherwise `next` runs exactly when `verify` accepts the token. */
  function Authenticate<Claims>(authorization: Option<string>, verify: string -> Option<Claims>)
    : (r: Outcome<Claims>)
    ensures r.Next? <==>
      && authorization.Some?
      && |authorization.value| > |BearerPrefix|
      && BearerPrefix <= authorization.value
      && verify(authorization.value[7..]).Some?
    ensures r.Next? ==> r.user == verify(authorization.value[7..]).value
    ensures r.Reject? ==> r.status == Unauthorized
    ensures r == Reject(Unauthorized, MissingToken) <==>
      ExtractToken(authorization).None? || ExtractToken(authorization) == Some("")
  {
    var token := ExtractToken(authorization);
    if token.None? || token.value == "" then
      Reject(Unauthorized, MissingToken)
    else
      match verify(token.value)
      case Some(decoded) => Next(decoded)
      case None => Reject(Unauthorized, InvalidToken)
  }

  /** A request without an `Authorization` header is answered with 401 "token missing". */
  lemma AbsentHeaderIsMissing<Claims>(verify: string -> Option<Claims>)
    ensures Authenticate(None, verify) == Reject(Unauthorized, MissingToken)
  {
  }

  /** A header that is exactly `"Bearer "` carries the empty token, rejected as missing
      whatever `verify` would say about it. */
  lemma BarePrefixIsMissing<Claims>(verify: string -> Option<Claims>)
    ensures ExtractToken(Some(BearerPrefix)) == Some("")
    ensures Authenticate(Some(BearerPrefix), verify) == Reject(Unauthorized, MissingToken)
  {
  }

  /** The scheme is matched exactly, case and space included: a header whose first seven
      characters are anything but `"Bearer "` (`"bearer x"`, `"Bearerx"`, `"Basic x"`)
      carries no token and is rejected as missing, whatever `verify` would say. */
  lemma PrefixIsExact<Claims>(header: string, verify: string -> Option<Claims>)
    requires |header| < |BearerPrefix| || header[..7] != BearerPrefix
    ensures ExtractToken(Some(header)).None?
    ensures Authenticate(Some(header), verify) == Reject(Unauthorized, MissingToken)
  {
  }
}

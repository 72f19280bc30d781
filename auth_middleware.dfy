/**
 * The HTTP authentication gate: the `Authorization` header must read `Bearer <token>`,
 * and the token must verify; the decoded payload becomes the request's user.
 */
module AuthMiddleware {
  import opened Common
  import opened ErrorHandler

  /** The claims a token carries. */
  datatype JwtPayload = JwtPayload(userId: UserId, email: string)

  /** Token verification with the server secret, as a partial map from token to claims:
      a token outside its domain is one `jwt.verify` throws on. */
  type Verifier = map<string, JwtPayload>

  const BearerPrefix: string := "Bearer "

  /** Thrown when the header is absent or not a Bearer header. */
  function TokenNotProvided(): Failure {
    AppError("Token not provided", 401, Some("UNAUTHORIZED"))
  }

  /** Thrown when the token does not verify. */
  function InvalidToken(): Failure {
    AppError("Invalid token", 401, Some("INVALID_TOKEN"))
  }

  /** `authMiddleware`: Ok(payload) is the request proceeding (next called once with
      req.user = payload); Err is the AppError it throws. */
  function Authenticate(header: Option<string>, verify: Verifier): (r: Result<JwtPayload, Failure>)
    ensures r.Ok? <==> header.Some? && StartsWith(header.value, BearerPrefix) && header.value[7..] in verify
    ensures r.Ok? ==> r.value == verify[header.value[7..]]
    ensures r.Err? ==> r.error in {TokenNotProvided(), InvalidToken()}
    ensures r.Err? && r.error == TokenNotProvided() <==> header.None? || !StartsWith(header.value, BearerPrefix)
  {
    if header.None? || header.value == "" || !StartsWith(header.value, BearerPrefix) then
      Err(TokenNotProvided())
    else
      var token := header.value[7..];
      if token in verify then Ok(verify[token]) else Err(InvalidToken())
  }

  /** The token is exactly what follows "Bearer ": a header built from a token gives back
      that token's verification result. */
  lemma BearerRoundTrip(token: string, verify: Verifier)
    ensures Authenticate(Some(BearerPrefix + token), verify)
         == if token in verify then Ok(verify[token]) else Err(InvalidToken())
  {
    assert (BearerPrefix + token)[..7] == BearerPrefix;
    assert (BearerPrefix + token)[7..] == token;
  }

  /** Every refusal is handled as a 401 with one of the two codes, in any mode. */
  lemma RefusalsAre401(header: Option<string>, verify: Verifier, isDev: bool)
    requires Authenticate(header, verify).Err?
    ensures Handle(Authenticate(header, verify).error, isDev).status == 401
    ensures Handle(Authenticate(header, verify).error, isDev).body.code in {Some("UNAUTHORIZED"), Some("INVALID_TOKEN")}
  {
  }
}

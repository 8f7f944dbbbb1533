/**
 * Request authentication: the bearer-token parser, the three-way decision of
 * `authenticateRequest`, and the reply builder `createAuthResponse`. Token verification
 * (`jwt.verify` with the server's secret) is a parameter: it yields the decoded claims,
 * or nothing for a bad signature, an expired token or any other failure.
 */
module Auth {
  import opened Wrappers
  import opened JsStrings
  import opened Http

  /**
   * `extractTokenFromHeader`: the header split on single spaces must give exactly
   * `Bearer` and one more part, which is the token. So a token is found exactly when
   * the header is `Bearer ` followed by text without a space (see `BearerHeader`).
   */
  function ExtractTokenFromHeader(header: Option<string>): (r: Option<string>)
    ensures !Filled(header) ==> r.None?
    ensures r.Some? ==> header == Some("Bearer " + r.value) && ' ' !in r.value
  {
    if !Filled(header) then None
    else
      var parts := Split(header.value, " ");
      if |parts| != 2 || parts[0] != "Bearer" then None
      else
        JoinSplit(header.value, " ");
        assert Join(parts[1..], " ") == parts[1];
        assert "Bearer" + " " == "Bearer ";
        assert header.value == "Bearer" + " " + parts[1];
        NotFoundChar(parts[1], ' ');
        Some(parts[1])
  }

  /** A header of `Bearer ` and a space-free token yields that token, verbatim. */
  lemma BearerHeader(t: string)
    requires ' ' !in t
    ensures ExtractTokenFromHeader(Some("Bearer " + t)) == Some(t)
  {
    var h := "Bearer " + t;
    assert ' ' !in h[..6];
    SplitOnCharAt(h, ' ', 6);
    assert h[7..] == t;
    SplitOnAbsentChar(t, ' ');
  }

  /**
   * `createAuthResponse`: `success` and `message` always; `data` only when given;
   * `error` only when it is a non-empty string.
   */
  function CreateAuthResponse(status: nat, success: bool, message: string, data: Option<Payload>, error: Option<string>): (r: Response)
    ensures r.status == status && r.body.Envelope?
    ensures r.body.success == success && r.body.message == Some(message)
    ensures r.body.data == data
    ensures r.body.error.Some? <==> Filled(error)
    ensures r.body.error.Some? ==> r.body.error == error
    ensures !r.body.needsVerification
  {
    Response(status, Envelope(success, Some(message), if Filled(error) then error else None, data, false))
  }

  /** The outcome of `authenticateRequest`: the decoded claims, or the reply to send instead. */
  datatype AuthResult = Authenticated(user: Claims) | Rejected(response: Response)

  /** The 401 reply of a failed authentication. */
  function Unauthorized(reason: string): Response {
    CreateAuthResponse(401, false, "Unauthorized", None, Some(reason))
  }

  /**
   * `authenticateRequest`: no token (or an empty one) is 401 "No token provided"; a token
   * `verify` rejects is 401 "Invalid or expired token"; otherwise the caller is the token's user.
   */
  function AuthenticateRequest(header: Option<string>, verify: string -> Option<Claims>): (r: AuthResult)
    ensures r.Authenticated? <==>
      var t := ExtractTokenFromHeader(header); t.Some? && t.value != "" && verify(t.value).Some?
    ensures r.Authenticated? ==> verify(ExtractTokenFromHeader(header).value) == Some(r.user)
    ensures r.Rejected? ==> r.response.status == 401 && !Succeeded(r.response)
    ensures r.Rejected? ==> r.response.body.Envelope? && r.response.body.error ==
                            if Filled(ExtractTokenFromHeader(header)) then Some("Invalid or expired token")
                            else Some("No token provided")
  {
    var token := ExtractTokenFromHeader(header);
    if !Filled(token) then Rejected(Unauthorized("No token provided"))
    else
      match verify(token.value)
      case None => Rejected(Unauthorized("Invalid or expired token"))
      case Some(claims) => Authenticated(claims)
  }

  /** A well-formed bearer header whose token verifies authenticates as the token's claims. */
  lemma BearerAuthenticates(t: string, verify: string -> Option<Claims>)
    requires ' ' !in t && t != ""
    ensures AuthenticateRequest(Some("Bearer " + t), verify) ==
      match verify(t)
      case Some(c) => Authenticated(c)
      case None => Rejected(Unauthorized("Invalid or expired token"))
  {
    BearerHeader(t);
  }

  /** `Bearer ` with nothing after it is treated like a missing token. */
  lemma EmptyBearerRejected(verify: string -> Option<Claims>)
    ensures AuthenticateRequest(Some("Bearer "), verify) == Rejected(Unauthorized("No token provided"))
  {
    BearerHeader("");
    assert "Bearer " + "" == "Bearer ";
  }
}

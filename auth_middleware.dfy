/** server/middleware/authMiddleware.js: `authenticate` reads a Bearer token
    from the request headers and hands it to token verification; `isResident`
    and `isManager` gate on the role of the verified payload. The outcome of a
    middleware step is either a call of `next` with the request's user, or an
    answer sent back without calling `next`. */
module AuthMiddleware {
  import opened Common

  /** A verified JWT payload: the `id` and `role` the login handler signed.
      The role is absent when the signed user had none. */
  datatype Claims = Claims(id: Id, role: Option<string>)

  datatype Gate = Next(user: Claims) | Deny(response: Response)

  const BearerPrefix := "Bearer "
  const NoTokenMessage := "No token, authorization failed"
  const InvalidTokenMessage := "Token is not valid"
  const ResidentRole := "resident"
  const ManagerRole := "manager"
  const ResidentsOnlyMessage := "Access denied. Residents only."
  const ManagersOnlyMessage := "Access denied. Managers only."

  /** `req.headers['authorization'] || req.headers['Authorization']`: the
      lower-case header wins whenever it is non-empty. */
  function AuthorizationHeader(headers: map<string, string>): (h: Option<string>)
    ensures "authorization" in headers && headers["authorization"] != "" ==> h == Some(headers["authorization"])
    ensures ("authorization" !in headers || headers["authorization"] == "") ==>
              h == (if "Authorization" in headers then Some(headers["Authorization"]) else None)
  {
    var lower := if "authorization" in headers then headers["authorization"] else "";
    if lower != "" then Some(lower)
    else if "Authorization" in headers then Some(headers["Authorization"])
    else None
  }

  /** `authHeader.startsWith('Bearer ')` followed by `authHeader.substring(7)`. */
  function BearerToken(header: string): (t: Option<string>)
    ensures t.Some? <==> exists token :: header == BearerPrefix + token
    ensures t.Some? ==> header == BearerPrefix + t.value
  {
    if |header| >= |BearerPrefix| && header[..|BearerPrefix|] == BearerPrefix then
      assert header == BearerPrefix + header[|BearerPrefix|..];
      Some(header[|BearerPrefix|..])
    else
      assert forall token :: header != BearerPrefix + token by {
        forall token ensures header != BearerPrefix + token {
          PrefixSplit(token);
        }
      }
      None
  }

  lemma PrefixSplit(token: string)
    ensures |BearerPrefix + token| >= |BearerPrefix|
    ensures (BearerPrefix + token)[..|BearerPrefix|] == BearerPrefix
    ensures (BearerPrefix + token)[|BearerPrefix|..] == token
  {
  }

  /** Stripping the prefix from `"Bearer " + token` gives back the token. */
  lemma BearerRoundTrip(token: string)
    ensures BearerToken(BearerPrefix + token) == Some(token)
  {
    PrefixSplit(token);
  }

  /** `authenticate`. `verify` is `jwt.verify` with the server's secret: the
      payload of a valid, unexpired token signed with it, or nothing. */
  function Authenticate(headers: map<string, string>, verify: string -> Option<Claims>): (g: Gate)
    // next is called exactly for "Bearer " + a non-empty token that verifies, with its payload as user
    ensures g.Next? ==> exists token :: token != "" && AuthorizationHeader(headers) == Some(BearerPrefix + token)
                                        && verify(token) == Some(g.user)
    ensures forall token :: token != "" && AuthorizationHeader(headers) == Some(BearerPrefix + token) ==>
              g == (if verify(token).Some? then Next(verify(token).value) else Deny(Response(401, InvalidTokenMessage)))
    // no header, or one that is not a Bearer header or carries an empty token: no token
    ensures (AuthorizationHeader(headers).None? || AuthorizationHeader(headers) == Some(BearerPrefix)
               || BearerToken(AuthorizationHeader(headers).value).None?) ==>
              g == Deny(Response(401, NoTokenMessage))
  {
    var header := AuthorizationHeader(headers);
    if header.None? || header.value == "" || BearerToken(header.value).None? then
      Deny(Response(401, NoTokenMessage))
    else
      var token := BearerToken(header.value).value;
      if token == "" then
        Deny(Response(401, NoTokenMessage))
      else
        match verify(token)
        case Some(decoded) => Next(decoded)
        case None => Deny(Response(401, InvalidTokenMessage))
  }

  /** `isResident`: passes exactly the users whose role is "resident". */
  function IsResident(user: Claims): (g: Gate)
    ensures g.Next? <==> user.role == Some(ResidentRole)
    ensures g.Next? ==> g.user == user
    ensures g.Deny? ==> g.response == Response(403, ResidentsOnlyMessage)
  {
    if user.role != Some(ResidentRole) then Deny(Response(403, ResidentsOnlyMessage)) else Next(user)
  }

  /** `isManager`: passes exactly the users whose role is "manager". */
  function IsManager(user: Claims): (g: Gate)
    ensures g.Next? <==> user.role == Some(ManagerRole)
    ensures g.Next? ==> g.user == user
    ensures g.Deny? ==> g.response == Response(403, ManagersOnlyMessage)
  {
    if user.role != Some(ManagerRole) then Deny(Response(403, ManagersOnlyMessage)) else Next(user)
  }

  /** Role strings are compared exactly: "Manager" and "Resident" are refused. */
  lemma GatesAreCaseSensitive(id: Id)
    ensures IsManager(Claims(id, Some("Manager"))).Deny?
    ensures IsResident(Claims(id, Some("Resident"))).Deny?
    ensures IsResident(Claims(id, None)).Deny?
  {
  }

  /** A request carrying `authorization: Bearer <token>` with a token that
      verifies passes `authenticate` with that token's payload, whatever else
      the headers hold. */
  lemma BearerHeaderAuthenticates(headers: map<string, string>, token: string,
                                                     verify: string -> Option<Claims>, claims: Claims)
    requires token != "" && verify(token) == Some(claims)
    ensures Authenticate(headers["authorization" := BearerPrefix + token], verify) == Next(claims)
  {
    var h := headers["authorization" := BearerPrefix + token];
    assert AuthorizationHeader(h) == Some(BearerPrefix + token);
  }
}

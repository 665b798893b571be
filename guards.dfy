/** The bearer-token guard and the role guard that every protected route runs. */
module Guards {
  import opened Domain
  import opened Strings

  /** The verified token payload that becomes `request.user`. A payload without a
      role is represented by the empty role: both fail `!user?.role`, and both differ
      from every role name the services compare with. */
  datatype JwtPayload = JwtPayload(sub: Id, email: string, role: string)

  /** `RolesGuard.canActivate`: no required roles (absent or empty) lets everyone in;
      otherwise the user must be present, have a role, and that role must be listed.
      Denial is always Forbidden: the guard never answers false. */
  function RolesCanActivate(requiredRoles: Option<seq<string>>, user: Option<JwtPayload>): (r: Result<bool>)
    ensures requiredRoles.None? || |requiredRoles.value| == 0 ==> r == Success(true)
    ensures requiredRoles.Some? && |requiredRoles.value| > 0 ==>
      (r.Success? <==> user.Some? && user.value.role != "" && user.value.role in requiredRoles.value)
    ensures r.Success? ==> r.value
    ensures r.Failure? ==> r.error == Forbidden("Forbidden")
  {
    if requiredRoles.None? || |requiredRoles.value| == 0 then Success(true)
    else if user.None? || user.value.role == "" then Failure(Forbidden("Forbidden"))
    else if user.value.role !in requiredRoles.value then Failure(Forbidden("Forbidden"))
    else Success(true)
  }

  /** `extractTokenFromHeader`: the header split on single spaces; the token is the
      second segment when the first is exactly "Bearer". Later segments are ignored. */
  function ExtractTokenFromHeader(authorization: Option<string>): (token: Option<string>)
    ensures authorization.None? ==> token.None?
    ensures authorization.Some? ==>
      var segments := Split(authorization.value, ' ');
      (token.Some? <==> segments[0] == "Bearer" && |segments| >= 2)
      && (token.Some? ==> token.value == segments[1])
    ensures token.Some? ==> ' ' !in token.value
  {
    if authorization.None? then None
    else
      var segments := Split(authorization.value, ' ');
      if segments[0] == "Bearer" && |segments| >= 2 then Some(segments[1]) else None
  }

  /** A well-formed header gives back its token, whatever follows it. */
  lemma BearerTokenExtracted(token: string, rest: Option<string>)
    requires ' ' !in token
    ensures var header := if rest.Some? then "Bearer " + token + " " + rest.value else "Bearer " + token;
      ExtractTokenFromHeader(Some(header)) == Some(token)
  {
    assert ' ' !in "Bearer";
    if rest.Some? {
      var header := "Bearer " + token + " " + rest.value;
      assert header == "Bearer" + [' '] + (token + [' '] + rest.value);
      SplitAfterSegment("Bearer", ' ', token + [' '] + rest.value);
      SplitAfterSegment(token, ' ', rest.value);
    } else {
      var header := "Bearer " + token;
      assert header == "Bearer" + [' '] + token;
      SplitAfterSegment("Bearer", ' ', token);
      SplitWithoutSeparator(token, ' ');
    }
  }

  /** Any other scheme word, such as "Basic" or "bearer", gives no token. */
  lemma OtherSchemeRejected(scheme: string, rest: string)
    requires ' ' !in scheme && scheme != "Bearer"
    ensures ExtractTokenFromHeader(Some(scheme + " " + rest)).None?
  {
    assert scheme + " " + rest == scheme + [' '] + rest;
    SplitAfterSegment(scheme, ' ', rest);
  }

  /** `JwtAuthGuard.canActivate` as an outcome: a missing or empty token and a failed
      verification are both Unauthorized; otherwise the payload is the caller. */
  function Authenticate(authorization: Option<string>, verify: string -> Option<JwtPayload>)
    : (r: Result<JwtPayload>)
    ensures r.Failure? ==> r.error == Unauthorized("Unauthorized")
    ensures r.Success? <==>
      var token := ExtractTokenFromHeader(authorization);
      token.Some? && token.value != "" && verify(token.value).Some?
    ensures r.Success? ==> r.value == verify(ExtractTokenFromHeader(authorization).value).value
  {
    var token := ExtractTokenFromHeader(authorization);
    if token.None? || token.value == "" then Failure(Unauthorized("Unauthorized"))
    else
      match verify(token.value)
      case None => Failure(Unauthorized("Unauthorized"))
      case Some(payload) => Success(payload)
  }

  /** The parts of an incoming HTTP request the guards read and write. */
  class HttpRequest {
    const authorization: Option<string>
    var user: Option<JwtPayload>

    constructor (authorization: Option<string>)
      ensures this.authorization == authorization && user.None?
    {
      this.authorization := authorization;
      user := None;
    }
  }

  class JwtAuthGuard {
    /** `jwtService.verifyAsync`: a payload for a valid token, nothing when it throws. */
    const verify: string -> Option<JwtPayload>

    constructor (verify: string -> Option<JwtPayload>)
      ensures this.verify == verify
    {
      this.verify := verify;
    }

    /** On success the verified payload is stored as `request.user` and the guard
        answers true; on failure the request is left untouched. */
    method CanActivate(request: HttpRequest) returns (r: Result<bool>)
      modifies request
      ensures var auth := Authenticate(request.authorization, verify);
        && (auth.Success? ==> r == Success(true) && request.user == Some(auth.value))
        && (auth.Failure? ==> r == Failure(auth.error) && request.user == old(request.user))
    {
      var token := ExtractTokenFromHeader(request.authorization);
      if token.None? || token.value == "" {
        return Failure(Unauthorized("Unauthorized"));
      }
      var payload := verify(token.value);
      if payload.None? {
        return Failure(Unauthorized("Unauthorized"));
      }
      request.user := payload;
      return Success(true);
    }
  }
}

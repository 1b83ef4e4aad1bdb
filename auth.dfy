/** The bearer-token middleware: it checks the `Authorization` header's
    shape, asks the authorization service about the token, and either
    answers the request itself or passes it on with the service's user id
    stored in the context under a key of a private type. The service's
    answer is an input: a function from the token to what the call yields. */
module Auth {
  import opened Common
  import opened Strings
  import opened Http

  const HeaderRequiredText := "Authorization header required"
  const BadFormatText := "Authorization header format must be 'Bearer {token}'"
  const UnavailableText := "Auth Service Unavailable"
  const UnauthorizedText := "Unauthorized"
  const InternalErrorText := "Internal Server Error"

  /** What reading and decoding the service's body yields. */
  datatype ReplyBody = ReadFailed | Undecodable | Decoded(valid: bool, userId: string, message: string)

  /** What the POST to the authorization service yields: a transport error,
      or a status code with its body. */
  datatype AuthorityOutcome = TransportFailed | Replied(status: int, body: ReplyBody)

  /** The middleware's decision: answer with `http.Error(status, message)`,
      or call the next handler once with the given context. */
  datatype Decision = Reject(status: int, message: string) | Forward(ctx: Context)

  /** A decision, and the token sent to the service, if it was consulted. */
  datatype AuthRun = AuthRun(decision: Decision, consulted: Option<string>)

  /** The header check: non-empty, and `strings.Split(header, " ")` must give
      exactly two parts, the first exactly "Bearer"; the token is the second. */
  function ExtractToken(header: string): (r: Result<string, Decision>)
    ensures header == "" ==> r == Failure(Reject(StatusUnauthorized, HeaderRequiredText))
    ensures header != "" && r.Failure? ==> r == Failure(Reject(StatusUnauthorized, BadFormatText))
    ensures r.Success? ==> header == "Bearer " + r.value && ' ' !in r.value
  {
    if header == "" then Failure(Reject(StatusUnauthorized, HeaderRequiredText))
    else
      var parts := Split(header, ' ');
      if |parts| != 2 || parts[0] != "Bearer" then Failure(Reject(StatusUnauthorized, BadFormatText))
      else
        SplitInTwo(header, ' ', parts[0], parts[1]);
        Success(parts[1])
  }

  /** A header is accepted with token `t` exactly when it is "Bearer ", then
      `t`, and `t` holds no space. */
  lemma TokenAcceptedIff(header: string, token: string)
    ensures ExtractToken(header) == Success(token) <==> header == "Bearer " + token && ' ' !in token
  {
    assert "Bearer " + token == "Bearer" + [' '] + token;
    SplitInTwo(header, ' ', "Bearer", token);
  }

  /** "Bearer " passes, with an empty token. */
  lemma EmptyTokenAccepted()
    ensures ExtractToken("Bearer ") == Success("")
  {
    TokenAcceptedIff("Bearer ", "");
    assert "Bearer " + "" == "Bearer ";
  }

  /** A doubled space after the scheme is refused. */
  lemma DoubleSpaceRefused()
    ensures ExtractToken("Bearer  t").Failure?
  {
  }

  /** The scheme is compared exactly: "bearer" is refused. */
  lemma LowerCaseSchemeRefused()
    ensures ExtractToken("bearer t").Failure?
  {
  }

  /** The service vouches for the token: status 200 and `valid: true`. */
  predicate Admits(outcome: AuthorityOutcome)
  {
    outcome.Replied? && outcome.status == StatusOK && outcome.body.Decoded? && outcome.body.valid
  }

  /** What the middleware makes of the service's answer. */
  function Verdict(outcome: AuthorityOutcome, ctx: Context): (d: Decision)
    ensures d.Forward? <==> Admits(outcome)
    ensures d.Forward? ==> d.ctx == ctx[AuthUserIdKey("user_id") := StringValue(outcome.body.userId)]
    ensures d == Reject(StatusServiceUnavailable, UnavailableText) <==> outcome.TransportFailed?
    ensures outcome.Replied? && outcome.status != StatusOK ==> d == Reject(StatusUnauthorized, UnauthorizedText)
    ensures d.Reject? && d.status == StatusInternalServerError <==>
              outcome.Replied? && outcome.status == StatusOK && !outcome.body.Decoded?
    ensures (outcome.Replied? && outcome.status == StatusOK && outcome.body.Decoded? && !outcome.body.valid)
            ==> d == Reject(StatusUnauthorized, outcome.body.message)
  {
    match outcome
    case TransportFailed => Reject(StatusServiceUnavailable, UnavailableText)
    case Replied(status, body) =>
      if status != StatusOK then Reject(StatusUnauthorized, UnauthorizedText)
      else
        match body
        case ReadFailed => Reject(StatusInternalServerError, InternalErrorText)
        case Undecodable => Reject(StatusInternalServerError, InternalErrorText)
        case Decoded(valid, userId, message) =>
          if !valid then Reject(StatusUnauthorized, message)
          else Forward(ctx[AuthUserIdKey("user_id") := StringValue(userId)])
  }

  /** `AuthMiddleware` on one request: the service is consulted only with a
      well-formed header, and then with exactly its token; the request goes
      on only when the service vouches for the token. */
  function AuthMiddleware(header: string, authority: string -> AuthorityOutcome, ctx: Context): (run: AuthRun)
    ensures header == "" ==> run == AuthRun(Reject(StatusUnauthorized, HeaderRequiredText), None)
    ensures ExtractToken(header).Failure? ==> run.consulted.None? && run.decision.Reject? && run.decision.status == StatusUnauthorized
    ensures ExtractToken(header).Failure? ==> run.decision == ExtractToken(header).error
    ensures ExtractToken(header).Success? ==> run.consulted == Some(ExtractToken(header).value)
    ensures ExtractToken(header).Success? ==> run.decision == Verdict(authority(ExtractToken(header).value), ctx)
    ensures run.decision.Forward? <==> ExtractToken(header).Success? && Admits(authority(ExtractToken(header).value))
    ensures run.decision.Reject? ==> run.decision.status in {StatusUnauthorized, StatusInternalServerError, StatusServiceUnavailable}
  {
    match ExtractToken(header)
    case Failure(rejection) => AuthRun(rejection, None)
    case Success(token) => AuthRun(Verdict(authority(token), ctx), Some(token))
  }

  /** The user id the middleware stores is invisible to a lookup by the plain
      string key "user_id": the forwarded context answers that lookup exactly
      as the incoming one did. */
  lemma ForwardHidesUserId(header: string, authority: string -> AuthorityOutcome, ctx: Context)
    requires AuthMiddleware(header, authority, ctx).decision.Forward?
    ensures UserIdFromContext(AuthMiddleware(header, authority, ctx).decision.ctx) == UserIdFromContext(ctx)
  {
  }
}

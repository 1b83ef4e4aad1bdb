/** The current account router: both routes sit behind the bearer-token
    middleware; `CreateAccountHandler` takes the user id from the request
    context and writes a second response when that id does not parse. A
    handler run is the sequence of responses it writes, and whether it
    panicked (no recoverer is installed, so a panic writes nothing). */
module Router {
  import opened Common
  import opened Strings
  import opened Dates
  import opened Validation
  import opened AccountDtos
  import opened Storage
  import opened Usecase
  import opened Http
  import opened Auth

  const InvalidRequestText := "invalid request"
  const EmptyBodyText := "request body is empty"
  const MalformedBodyText := "failed to decode request body"
  const UuidParseText := "unable to parse uuid from user_id"
  const GenericValidationText := "validation error"

  predicate IsKnownTag(tag: string)
  {
    tag == "required" || tag == "min" || tag == "max"
  }

  /** `getValidationMsg`: a sentence naming the field for `required`, `min`
      and `max`, the fixed "validation error" for every other tag. */
  function GetValidationMsg(fe: FieldError): (msg: string)
    ensures IsKnownTag(fe.tag) <==> msg != GenericValidationText
    ensures IsKnownTag(fe.tag) ==> HasPrefix(msg, fe.field)
    ensures fe.tag == "required" ==> msg == fe.field + " is required"
    ensures fe.tag == "min" ==> msg == fe.field + " must be at least " + fe.param + " characters"
    ensures fe.tag == "max" ==> msg == fe.field + " must be at most " + fe.param + " characters"
  {
    if fe.tag == "required" then
      var msg := fe.field + " is required";
      assert msg[|msg| - 1] == 'd';
      msg
    else if fe.tag == "min" then
      var msg := fe.field + " must be at least " + fe.param + " characters";
      assert msg[|msg| - 1] == 's';
      msg
    else if fe.tag == "max" then
      var msg := fe.field + " must be at most " + fe.param + " characters";
      assert msg[|msg| - 1] == 's';
      msg
    else GenericValidationText
  }

  /** The loop over the validator's errors: one message per error, in order. */
  method CollectMessages(errs: seq<FieldError>, msgOf: FieldError -> string) returns (msgs: seq<string>)
    ensures |msgs| == |errs|
    ensures forall i :: 0 <= i < |errs| ==> msgs[i] == msgOf(errs[i])
  {
    msgs := [];
    var k := 0;
    while k < |errs|
      invariant 0 <= k <= |errs|
      invariant |msgs| == k
      invariant forall i :: 0 <= i < k ==> msgs[i] == msgOf(errs[i])
    {
      msgs := msgs + [msgOf(errs[k])];
      k := k + 1;
    }
  }

  /** The messages the loop collects, as a value. */
  function MessagesOf(errs: seq<FieldError>, msgOf: FieldError -> string): seq<string>
  {
    seq(|errs|, i requires 0 <= i < |errs| => msgOf(errs[i]))
  }

  lemma RequiredMessages()
    ensures GetValidationMsg(FieldError("Firstname", "required", "")) == "Firstname is required"
    ensures GetValidationMsg(FieldError("Gender", "required", "")) == "Gender is required"
    ensures GetValidationMsg(FieldError("Birthdate", "required", "")) == "Birthdate is required"
  {
    assert "Firstname" + " is required" == "Firstname is required";
    assert "Gender" + " is required" == "Gender is required";
    assert "Birthdate" + " is required" == "Birthdate is required";
  }

  /** A body missing first name, gender and birthdate is answered with three
      messages, one per missing field, in declaration order. */
  lemma ThreeMissingFieldsThreeMessages(req: CreateAccountRequest)
    requires req.firstname == "" && req.gender == "" && req.birthdate == "" && req.surname != ""
    ensures MessagesOf(ValidateCreate(req), GetValidationMsg)
            == ["Firstname is required", "Gender is required", "Birthdate is required"]
  {
    ThreeMissingFieldsThreeErrors(req);
    RequiredMessages();
    var errs := ValidateCreate(req);
    var msgs := MessagesOf(errs, GetValidationMsg);
    assert |msgs| == 3;
    assert msgs[0] == "Firstname is required";
    assert msgs[1] == "Gender is required";
    assert msgs[2] == "Birthdate is required";
  }

  lemma MaxGenderMessage()
    ensures GetValidationMsg(FieldError("Gender", "max", "1")) == "Gender must be at most 1 characters"
  {
    assert "Gender" + " must be at most " + "1" + " characters" == "Gender must be at most 1 characters";
  }

  /** A gender of two or more characters is answered with the `max` message. */
  lemma LongGenderMessage(req: CreateAccountRequest)
    requires req.firstname != "" && req.surname != "" && req.birthdate != "" && |req.gender| > 1
    ensures MessagesOf(ValidateCreate(req), GetValidationMsg) == ["Gender must be at most 1 characters"]
  {
    ValidateCreateByField(req);
    MaxGenderMessage();
    var msgs := MessagesOf(ValidateCreate(req), GetValidationMsg);
    assert |msgs| == 1;
    assert msgs[0] == "Gender must be at most 1 characters";
  }

  /** The one response the read handler writes for a table: 400 "invalid
      request" for an empty path parameter; otherwise 200 with the account
      exactly when the use case succeeds, and the use case's error text with
      its classified status when it fails. */
  function GetReply(table: map<Uuid, Account>, userIdParam: string, parseUuid: string -> ParsedUuid,
                    faults: SelectFaults, today: Date): (resp: Response)
    ensures userIdParam == "" ==> resp == Response(StatusBadRequest, Text(InvalidRequestText))
    ensures userIdParam != "" ==>
              var outcome := GetOutcome(table, userIdParam, parseUuid, faults, today);
              (resp.status == StatusOK <==> outcome.Success?)
              && (outcome.Success? ==> resp.message == AccountView(outcome.value))
              && (outcome.Failure? ==> resp == Response(GetErrorStatus(outcome.error), Text(outcome.error.text)))
  {
    if userIdParam == "" then Response(StatusBadRequest, Text(InvalidRequestText))
    else
      match GetOutcome(table, userIdParam, parseUuid, faults, today)
      case Success(account) => Response(StatusOK, AccountView(account))
      case Failure(e) => Response(GetErrorStatus(e), Text(e.text))
  }

  /** One run of the create handler: what it writes, whether it panicked,
      and the row it stored, if any. */
  datatype CreateRun = CreateRun(written: seq<Response>, panicked: bool, stored: Option<Account>)

  /** The rows a run adds to the table. */
  function StoredRows(run: CreateRun): seq<Account>
  {
    if run.stored.Some? then [run.stored.value] else []
  }

  /** What the create handler does for a table: the decoding and validation
      answers; the panic when the context holds no string under the plain
      key "user_id"; otherwise the id parsed from it (a failure writes a 400
      and goes on), the insert, and the insert's error, if any. */
  function CreateReply(table: map<Uuid, Account>, decoded: DecodeOutcome, ctx: Context,
                       parseUuid: string -> ParsedUuid, faults: InsertFaults): (run: CreateRun)
    ensures decoded.EmptyBody? ==> run == CreateRun([Response(StatusBadRequest, Text(EmptyBodyText))], false, None)
    ensures decoded.MalformedBody? ==> run == CreateRun([Response(StatusBadRequest, Text(MalformedBodyText))], false, None)
    ensures decoded.Decoded? && !IsValidRequest(FromJson(decoded.body)) ==>
              run == CreateRun([Response(StatusBadRequest, FieldMessages(MessagesOf(ValidateCreate(FromJson(decoded.body)), GetValidationMsg)))],
                               false, None)
    ensures run.panicked <==> decoded.Decoded? && IsValidRequest(FromJson(decoded.body)) && UserIdFromContext(ctx).None?
    ensures run.panicked ==> run.written == [] && run.stored.None?
    ensures decoded.Decoded? && IsValidRequest(FromJson(decoded.body)) && UserIdFromContext(ctx).Some? ==>
              var parsed := parseUuid(UserIdFromContext(ctx).value);
              var request := FromJson(decoded.body).(userId := parsed.id);
              var err := InsertOutcome(table, request, faults);
              run.written == (if parsed.err.Some? then [Response(StatusBadRequest, Text(UuidParseText))] else [])
                             + (if err.Some? then [Response(CreateErrorStatus(err.value), Text(err.value.text))] else [])
              && run.stored == (if err.None? then Some(NewAccount(request)) else None)
    ensures run.stored.Some? ==> run.stored.value.userId !in table
    ensures forall i :: 0 <= i < |run.written| ==> run.written[i].status != StatusOK
    ensures run.stored.None? && !run.panicked ==> run.written != []
  {
    match decoded
    case EmptyBody => CreateRun([Response(StatusBadRequest, Text(EmptyBodyText))], false, None)
    case MalformedBody => CreateRun([Response(StatusBadRequest, Text(MalformedBodyText))], false, None)
    case Decoded(body) =>
      var errs := ValidateCreate(FromJson(body));
      if errs != [] then CreateRun([Response(StatusBadRequest, FieldMessages(MessagesOf(errs, GetValidationMsg)))], false, None)
      else
        match UserIdFromContext(ctx)
        case None => CreateRun([], true, None)
        case Some(text) =>
          var parsed := parseUuid(text);
          var request := FromJson(body).(userId := parsed.id);
          var err := InsertOutcome(table, request, faults);
          CreateRun((if parsed.err.Some? then [Response(StatusBadRequest, Text(UuidParseText))] else [])
                    + (if err.Some? then [Response(CreateErrorStatus(err.value), Text(err.value.text))] else []),
                    false,
                    if err.None? then Some(NewAccount(request)) else None)
  }

  /** `AccountRouter`: the handlers over the use case they were built with. */
  class AccountRouter {
    const usecase: AccountUsecase

    constructor (usecase: AccountUsecase)
      ensures this.usecase == usecase
    {
      this.usecase := usecase;
    }

    /** `GetAccountHandler`: exactly one response; an empty path parameter is
        answered 400 before the use case is asked; the use case's error is
        classified by `GetErrorStatus`; its account is answered 200. */
    method GetAccountHandler(userIdParam: string, parseUuid: string -> ParsedUuid, faults: SelectFaults, today: Date)
      returns (written: seq<Response>)
      requires usecase.repository.Valid()
      ensures written == [GetReply(usecase.repository.Table(), userIdParam, parseUuid, faults, today)]
    {
      if userIdParam == "" {
        return [Response(StatusBadRequest, Text(InvalidRequestText))];
      }
      var account := usecase.Get(userIdParam, parseUuid, faults, today);
      if account.Failure? {
        var err := account.error;
        if Contains(err.text, "failed") {
          written := [Response(StatusInternalServerError, Text(err.text))];
        } else {
          written := [Response(StatusBadRequest, Text(err.text))];
        }
        return;
      }
      written := [Response(StatusOK, AccountView(account.value))];
    }

    /** `CreateAccountHandler`. Decoding failures and validation failures
        are answered 400 and store nothing; a valid request whose context
        lacks a string "user_id" panics; otherwise the id is parsed (a parse
        failure writes a 400 and carries on with the id `uuid.Parse`
        returned), the use case is asked, and only its error is answered. */
    method CreateAccountHandler(decoded: DecodeOutcome, ctx: Context, parseUuid: string -> ParsedUuid, faults: InsertFaults)
      returns (written: seq<Response>, panicked: bool)
      requires usecase.repository.Valid()
      modifies usecase.repository
      ensures usecase.repository.Valid()
      ensures var run := CreateReply(old(usecase.repository.Table()), decoded, ctx, parseUuid, faults);
              written == run.written && panicked == run.panicked
              && usecase.repository.rows == old(usecase.repository.rows) + StoredRows(run)
    {
      written, panicked := [], false;
      match decoded
      case EmptyBody =>
        written := written + [Response(StatusBadRequest, Text(EmptyBodyText))];
        return;
      case MalformedBody =>
        written := written + [Response(StatusBadRequest, Text(MalformedBodyText))];
        return;
      case Decoded(body) =>
        var request := FromJson(body);
        var errs := ValidateCreate(request);
        if errs != [] {
          var msgs := CollectMessages(errs, GetValidationMsg);
          assert msgs == MessagesOf(errs, GetValidationMsg);
          written := written + [Response(StatusBadRequest, FieldMessages(msgs))];
          return;
        }
        var userIdAsString := UserIdFromContext(ctx);
        if userIdAsString.None? {
          panicked := true;
          return;
        }
        var parsed := parseUuid(userIdAsString.value);
        request := request.(userId := parsed.id);
        if parsed.err.Some? {
          written := written + [Response(StatusBadRequest, Text(UuidParseText))];
        }
        var err := usecase.Create(request, faults);
        match err
        case None =>
        case Some(e) =>
          if e.deadline {
            written := written + [Response(StatusRequestTimeout, Text(e.text))];
          } else if Contains(e.text, "failed") {
            written := written + [Response(StatusInternalServerError, Text(e.text))];
          } else {
            written := written + [Response(StatusBadRequest, Text(e.text))];
          }
    }

    /** The authenticated `GET /api/v1/account/get-account/{user_id}`: a
        rejection of the middleware is the only response; otherwise the
        handler runs. */
    method ServeGetAccount(header: string, authority: string -> AuthorityOutcome, ctx: Context,
                           userIdParam: string, parseUuid: string -> ParsedUuid, faults: SelectFaults, today: Date)
      returns (written: seq<Response>)
      requires usecase.repository.Valid()
      ensures |written| == 1
      ensures AuthMiddleware(header, authority, ctx).decision.Reject? ==>
                written == [Response(AuthMiddleware(header, authority, ctx).decision.status,
                                     Text(AuthMiddleware(header, authority, ctx).decision.message))]
      ensures AuthMiddleware(header, authority, ctx).decision.Forward? ==>
                written == [GetReply(usecase.repository.Table(), userIdParam, parseUuid, faults, today)]
      ensures written[0].status == StatusOK ==> AuthMiddleware(header, authority, ctx).decision.Forward?
    {
      var run := AuthMiddleware(header, authority, ctx);
      match run.decision
      case Reject(status, message) =>
        written := [Response(status, Text(message))];
      case Forward(_) =>
        written := GetAccountHandler(userIdParam, parseUuid, faults, today);
    }

    /** The authenticated `POST /api/v1/account/create-account`. The user id
        the middleware stores is not found by the handler's lookup, so a valid
        request that arrives without a plain "user_id" in its context and
        passes the middleware always panics and stores nothing. */
    method ServeCreateAccount(header: string, authority: string -> AuthorityOutcome, ctx: Context,
                              decoded: DecodeOutcome, parseUuid: string -> ParsedUuid, faults: InsertFaults)
      returns (written: seq<Response>, panicked: bool)
      requires usecase.repository.Valid()
      modifies usecase.repository
      ensures usecase.repository.Valid()
      ensures AuthMiddleware(header, authority, ctx).decision.Reject? ==>
                written == [Response(AuthMiddleware(header, authority, ctx).decision.status,
                                     Text(AuthMiddleware(header, authority, ctx).decision.message))]
                && !panicked && usecase.repository.rows == old(usecase.repository.rows)
      ensures AuthMiddleware(header, authority, ctx).decision.Forward? ==>
                var run := CreateReply(old(usecase.repository.Table()), decoded,
                                       AuthMiddleware(header, authority, ctx).decision.ctx, parseUuid, faults);
                written == run.written && panicked == run.panicked
                && usecase.repository.rows == old(usecase.repository.rows) + StoredRows(run)
      ensures AuthMiddleware(header, authority, ctx).decision.Forward? && UserIdFromContext(ctx).None?
              && decoded.Decoded? && ValidateCreate(FromJson(decoded.body)) == [] ==>
                panicked && written == [] && usecase.repository.rows == old(usecase.repository.rows)
    {
      var run := AuthMiddleware(header, authority, ctx);
      match run.decision
      case Reject(status, message) =>
        written, panicked := [Response(status, Text(message))], false;
      case Forward(forwarded) =>
        ForwardHidesUserId(header, authority, ctx);
        written, panicked := CreateAccountHandler(decoded, forwarded, parseUuid, faults);
    }
  }
}

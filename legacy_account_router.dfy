/** The older account router: no middleware on its routes, a
    `getValidationMsg` without the `max` case, and a `CreateAccountHandler`
    that overwrites the request's `UserId` with a freshly generated UUID
    (`uuid.New()`, here the input `generated`). */
module LegacyRouter {
  import opened Common
  import opened Strings
  import opened Dates
  import opened Validation
  import opened AccountDtos
  import opened LegacyAccountDtos
  import opened Storage
  import opened Usecase
  import opened Http
  import Router

  /** The older `getValidationMsg`: only `required` and `min` give a sentence. */
  function LegacyGetValidationMsg(fe: FieldError): (msg: string)
    ensures (fe.tag == "required" || fe.tag == "min") <==> msg != Router.GenericValidationText
    ensures fe.tag != "max" ==> msg == Router.GetValidationMsg(fe)
    ensures fe.tag == "max" ==> msg == Router.GenericValidationText
  {
    if fe.tag == "required" then
      var msg := fe.field + " is required";
      assert msg[|msg| - 1] == 'd';
      msg
    else if fe.tag == "min" then
      var msg := fe.field + " must be at least " + fe.param + " characters";
      assert msg[|msg| - 1] == 's';
      msg
    else Router.GenericValidationText
  }

  /** The older table only ever reports `required`, so every message it
      leads to names its field; the fallback text is never produced. */
  lemma LegacyMessagesNameTheirField(req: CreateAccountRequest)
    ensures forall i :: 0 <= i < |ValidateLegacyCreate(req)| ==>
              ValidateLegacyCreate(req)[i].tag == "required"
              && LegacyGetValidationMsg(ValidateLegacyCreate(req)[i]) == ValidateLegacyCreate(req)[i].field + " is required"
  {
    LegacyTableByField(req);
  }

  /** `AccountRouter` of the older snapshot. */
  class AccountRouter {
    const usecase: AccountUsecase

    constructor (usecase: AccountUsecase)
      ensures this.usecase == usecase
    {
      this.usecase := usecase;
    }

    /** `GetAccountHandler`, the same flow as in the current router. */
    method GetAccountHandler(userIdParam: string, parseUuid: string -> ParsedUuid, faults: SelectFaults, today: Date)
      returns (written: seq<Response>)
      requires usecase.repository.Valid()
      ensures written == [Router.GetReply(usecase.repository.Table(), userIdParam, parseUuid, faults, today)]
    {
      if userIdParam == "" {
        return [Response(StatusBadRequest, Text(Router.InvalidRequestText))];
      }
      var account := usecase.Get(userIdParam, parseUuid, faults, today);
      if account.Failure? {
        var err := account.error;
        if Contains(err.text, "failed") {
          written := [Response(StatusInternalServerError, Text(err.text))];
        } else {
          written := [Response(StatusBadRequest, Text(err.text))];
        }
        return;
      }
      written := [Response(StatusOK, AccountView(account.value))];
    }

    /** `CreateAccountHandler` of the older snapshot: the same early answers,
        then the request, whatever `UserId` its body carried, is created
        under `generated`; only the use case's error is answered. */
    method CreateAccountHandler(decoded: DecodeOutcome, generated: Uuid, faults: InsertFaults)
      returns (written: seq<Response>)
      requires usecase.repository.Valid()
      modifies usecase.repository
      ensures usecase.repository.Valid()
      ensures decoded.EmptyBody? ==>
                written == [Response(StatusBadRequest, Text(Router.EmptyBodyText))]
                && usecase.repository.rows == old(usecase.repository.rows)
      ensures decoded.MalformedBody? ==>
                written == [Response(StatusBadRequest, Text(Router.MalformedBodyText))]
                && usecase.repository.rows == old(usecase.repository.rows)
      ensures decoded.Decoded? && ValidateLegacyCreate(LegacyFromJson(decoded.body)) != [] ==>
                written == [Response(StatusBadRequest,
                                     FieldMessages(Router.MessagesOf(ValidateLegacyCreate(LegacyFromJson(decoded.body)), LegacyGetValidationMsg)))]
                && usecase.repository.rows == old(usecase.repository.rows)
      ensures decoded.Decoded? && ValidateLegacyCreate(LegacyFromJson(decoded.body)) == [] ==>
                var request := LegacyFromJson(decoded.body).(userId := generated);
                var err := InsertOutcome(old(usecase.repository.Table()), request, faults);
                written == (if err.Some? then [Response(CreateErrorStatus(err.value), Text(err.value.text))] else [])
                && (err.None? ==> usecase.repository.rows == old(usecase.repository.rows) + [NewAccount(request)]
                                  && NewAccount(request).userId == generated)
                && (err.Some? ==> usecase.repository.rows == old(usecase.repository.rows))
    {
      written := [];
      match decoded
      case EmptyBody =>
        written := written + [Response(StatusBadRequest, Text(Router.EmptyBodyText))];
        return;
      case MalformedBody =>
        written := written + [Response(StatusBadRequest, Text(Router.MalformedBodyText))];
        return;
      case Decoded(body) =>
        var request := LegacyFromJson(body);
        var errs := ValidateLegacyCreate(request);
        if errs != [] {
          var msgs := Router.CollectMessages(errs, LegacyGetValidationMsg);
          assert msgs == Router.MessagesOf(errs, LegacyGetValidationMsg);
          written := written + [Response(StatusBadRequest, FieldMessages(msgs))];
          return;
        }
        request := request.(userId := generated);
        var err := usecase.Create(request, faults);
        match err
        case None =>
        case Some(e) =>
          if e.deadline {
            written := written + [Response(StatusRequestTimeout, Text(e.text))];
          } else if Contains(e.text, "failed") {
            written := written + [Response(StatusInternalServerError, Text(e.text))];
          } else {
            written := written + [Response(StatusBadRequest, Text(e.text))];
          }
    }
  }
}

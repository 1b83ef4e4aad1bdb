/** What the handlers write and read: a response is a status and a message
    (the `dtos.Response` envelope of `response.JSON`, or the plain text of
    `http.Error`); the request context is a dictionary whose keys remember
    their Go type. Also the two error-to-status rules of the handlers. */
module Http {
  import opened Common
  import opened Strings
  import opened AccountDtos
  import opened Storage

  const StatusOK := 200
  const StatusBadRequest := 400
  const StatusUnauthorized := 401
  const StatusRequestTimeout := 408
  const StatusInternalServerError := 500
  const StatusServiceUnavailable := 503

  /** The `message` of a response: a text, the `errors` list of a failed
      validation, or an account. */
  datatype Message = Text(text: string) | FieldMessages(errors: seq<string>) | AccountView(account: GetAccountResponse)

  datatype Response = Response(status: int, message: Message)

  /** A context key: a plain Go `string`, or the auth middleware's private
      `userId` string type. Keys of different types never match. */
  datatype CtxKey = StringKey(name: string) | AuthUserIdKey(name: string)

  /** A context value: a Go `string`, or a value of any other type. */
  datatype CtxValue = StringValue(s: string) | OtherValue

  type Context = map<CtxKey, CtxValue>

  /** `r.Context().Value("user_id").(string)`: the string under the plain
      string key, or `None` where the unchecked assertion would panic. */
  function UserIdFromContext(ctx: Context): (r: Option<string>)
    ensures r.Some? <==> StringKey("user_id") in ctx && ctx[StringKey("user_id")].StringValue?
  {
    if StringKey("user_id") in ctx then
      match ctx[StringKey("user_id")]
      case StringValue(s) => Some(s)
      case OtherValue => None
    else None
  }

  /** The status `GetAccountHandler` gives a use-case error: 500 when the
      text mentions "failed", 400 for every other error. */
  function GetErrorStatus(err: Error): (status: int)
    ensures status == StatusInternalServerError || status == StatusBadRequest
    ensures status == StatusInternalServerError <==> Contains(err.text, "failed")
  {
    if Contains(err.text, "failed") then StatusInternalServerError else StatusBadRequest
  }

  /** The status `CreateAccountHandler` gives a use-case error: a deadline
      error first (408), then the same rule as for reads. */
  function CreateErrorStatus(err: Error): (status: int)
    ensures err.deadline <==> status == StatusRequestTimeout
    ensures !err.deadline ==> status == GetErrorStatus(err)
  {
    if err.deadline then StatusRequestTimeout
    else if Contains(err.text, "failed") then StatusInternalServerError
    else StatusBadRequest
  }

  lemma NotFoundTextNotFailed()
    ensures !Contains(NoAccountText, "failed")
  {
    assert 'f' !in NoAccountText;
    MissingFirstCharNotContained(NoAccountText, "failed");
  }

  /** A missing account, or a row whose fetch failed, is answered 400 (the
      repository's not-found text does not mention "failed"); query and scan
      failures 500. */
  lemma SelectErrorStatus(table: map<Uuid, Account>, id: Uuid, faults: SelectFaults)
    requires SelectOutcome(table, id, faults).Failure?
    ensures GetErrorStatus(SelectOutcome(table, id, faults).error) == StatusInternalServerError
            <==> faults.query.Some? || (id in table && faults.next.None? && faults.scan.Some?)
  {
    var e := SelectOutcome(table, id, faults).error;
    if faults.query.Some? {
      assert e.text == QueryFailedPrefix + faults.query.value.text;
      ContainsStartOf(QueryFailedPrefix, faults.query.value.text, "failed");
    } else if id !in table || faults.next.Some? {
      assert e.text == NoAccountText;
      NotFoundTextNotFailed();
    } else {
      assert e.text == ScanFailedPrefix + faults.scan.value.text;
      ContainsStartOf(ScanFailedPrefix, faults.scan.value.text, "failed");
    }
  }

  lemma AlreadyExistsTextNotFailed()
    ensures !Contains(AlreadyExistsText, "failed")
  {
    assert 'f' !in AlreadyExistsText;
    MissingFirstCharNotContained(AlreadyExistsText, "failed");
  }

  /** A wrapped probe failure mentions "failed" exactly when the driver's text does. */
  lemma ProbeErrorMentionsFailed(cause: Error)
    ensures Contains(Wrap(ProbeFailedPrefix, cause).text, "failed") <==> Contains(cause.text, "failed")
  {
    assert 'f' !in ProbeFailedPrefix;
    ContainsAfterPrefix(ProbeFailedPrefix, cause.text, "failed");
  }

  /** A wrapped failure whose prefix starts with "failed" mentions "failed". */
  lemma FailedPrefixMentionsFailed(prefix: string, cause: Error)
    requires HasPrefix(prefix, "failed")
    ensures Contains(Wrap(prefix, cause).text, "failed")
  {
    ContainsStartOf(prefix, cause.text, "failed");
  }

  /** No repository error can reach the 408 branch; begin, insert and commit
      failures are 500, an existing key is 400, and a failed probe is 500
      only when the driver's own text mentions "failed". */
  lemma InsertErrorStatus(table: map<Uuid, Account>, a: CreateAccountRequest, faults: InsertFaults)
    requires InsertOutcome(table, a, faults).Some?
    ensures CreateErrorStatus(InsertOutcome(table, a, faults).value) != StatusRequestTimeout
    ensures CreateErrorStatus(InsertOutcome(table, a, faults).value) == StatusInternalServerError
            <==> if faults.probe.Some? then Contains(faults.probe.value.text, "failed") else a.userId !in table
  {
    var e := InsertOutcome(table, a, faults).value;
    if faults.probe.Some? {
      assert e == Wrap(ProbeFailedPrefix, faults.probe.value);
      ProbeErrorMentionsFailed(faults.probe.value);
    } else if a.userId in table {
      assert e.text == AlreadyExistsText;
      AlreadyExistsTextNotFailed();
    } else if faults.begin.Some? {
      assert e == Wrap(BeginFailedPrefix, faults.begin.value);
      FailedPrefixMentionsFailed(BeginFailedPrefix, faults.begin.value);
    } else if faults.exec.Some? {
      assert e == Wrap(InsertFailedPrefix, faults.exec.value);
      FailedPrefixMentionsFailed(InsertFailedPrefix, faults.exec.value);
    } else {
      assert e == Wrap(CommitFailedPrefix, faults.commit.value);
      FailedPrefixMentionsFailed(CommitFailedPrefix, faults.commit.value);
    }
  }
}

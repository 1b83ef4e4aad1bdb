# AccountService account core, modelled in Dafny

AccountService is a Go HTTP service that stores user accounts in
PostgreSQL. This project models its account core:

- **The repository** (`Storage`): a class that owns the rows of the
  `accounts` table.
  - `Insert` probes for the key, refuses an existing key, and opens a
    transaction.
  - It then writes the row and commits. A deferred rollback runs whenever
    the local error is set.
  - `Select` queries by key and takes the first row.
  - Every driver failure is an input. Every error text is kept exactly.
- **The use case** (`Usecase`): `Get` parses the id, reads the account and
  derives the age; `Create` passes the request through to `Insert`.
- **The HTTP decision logic of both router snapshots** (`Router` is the
  current one, `LegacyRouter` the older one).
  - A handler run is the sequence of responses it writes, plus whether it
    panicked.
  - The error-to-status rules live in `Http`.
- **The bearer-token middleware** (`Auth`): the header check, and the
  classification of the authorization service's answer.
- **The two DTO constraint tables** (`AccountDtos`, `LegacyAccountDtos`),
  checked by a model of the validator (`Validation`).
- **The configuration loader** (`Config`): `validateConfig`, the
  environment overlay and its emptiness check, `NewServerConfig`, and the
  bounded module-root search.
- **Supporting pieces**: Go's `strings.Split`/`Contains`/`Join` (`Strings`),
  and the date layout "02-01-2006" with its formatting (`Dates`).

## How the code behaves

Where the documentation and the code disagree, the model follows the code.

**Missing account.** The handler documentation lists 404, but the code
answers 400. No error text on that path contains "failed".

**Deadline errors.** Every repository error is rebuilt with `errors.New`,
so no error that reaches `CreateAccountHandler` is a deadline error. The
408 branch cannot be reached from the repository: see
`Http.InsertErrorStatus`. In the model, that branch holds nothing the
verifier could use.

**The user id never reaches the create handler, under the middleware of
pkg/middleware/auth/auth.go.**
- That middleware stores the user id under a key of a private type.
- The current create handler looks the id up with the plain string key
  "user_id", and asserts the result is a string without checking.
- So a valid create request that passes that middleware panics and stores
  nothing (`Router.AccountRouter.ServeCreateAccount`).
- The current router actually registers `auth.NewMiddleware(...).Handler`,
  which is not part of this model. Whether the user id reaches the handler
  behind that middleware is not settled here.
- No recoverer is installed, so a panic writes no response.

**The documented birthdate example is not stored.** The example birthdate
"1990-01-01" is ISO text. Layout "02-01-2006" rejects it and the parse
error is discarded, so the account is stored with the zero date (year 1).
`Get` then reports an age of about two thousand years.

**A second response on the create path.** The create handler writes a 400
when the context's id does not parse, and does not return. It goes on to
create the account under whatever id `uuid.Parse` returned.

## Model

| member | source | states |
|---|---|---|
| `Strings.Split` | pkg/middleware/auth/auth.go:23 | `strings.Split` on one character: at least one part, no part holds the separator, joining the parts gives the input back |
| `Strings.SplitInTwo` | pkg/middleware/auth/auth.go:23-24 | splitting gives exactly `[a, b]` iff the text is `a`, separator, `b` with no separator inside either |
| `Dates.ParseDate` | internal/storage/pgsql/account.go:35 | a date parsed with layout "02-01-2006" is a real calendar date with a four-digit year |
| `Dates.ParseFormat` | internal/storage/pgsql/account.go:35 | every valid date with a four-digit year survives formatting and then parsing |
| `Dates.FormatParse` | internal/storage/pgsql/account.go:35 | the parser accepts only the canonical text of the date it returns |
| `Dates.IsoTextDoesNotParse` | internal/models/dtos/account_dtos.go:17 | the documented example "1990-01-01" does not parse under the layout |
| `Validation.FirstBrokenIsFirst` | internal/models/dtos/account_dtos.go:13-17 | a field reports the first rule of its tag that it breaks, and reports nothing iff it breaks none |
| `Validation.Validate` | internal/models/dtos/account_dtos.go:11-18 | never more errors than fields |
| `Validation.FailingPositionsSound` | internal/models/dtos/account_dtos.go:11-18 | every listed position names a field that fails its tag |
| `Validation.FailingPositionsComplete` | internal/models/dtos/account_dtos.go:11-18 | every field that fails its tag is listed |
| `Validation.FailingPositionsAscend` | internal/models/dtos/account_dtos.go:11-18 | the listed positions ascend, so each failing field appears once, in declaration order |
| `Validation.ValidateOnePerFailingField` | internal/models/dtos/account_dtos.go:11-18 | the `k`-th error is the error of the `k`-th failing field, with its first broken rule; there are as many errors as failing fields |
| `Validation.ValidateEmptyIffAllPass` | internal/models/dtos/account_dtos.go:11-18 | validation reports nothing iff every field passes its tag |
| `Validation.RequiredOnly` | internal/models/dtos/account_dtos.go:13 | a `required` field fails exactly when empty, with tag "required" |
| `Validation.RequiredOneChar` | internal/models/dtos/account_dtos.go:16 | `required,min=1,max=1`: empty fails `required`, longer than one character fails `max` with param "1", one character passes |
| `AccountDtos.FromJsonIgnoresUserId` | internal/models/dtos/account_dtos.go:12 | `UserId` is `json:"-"`: the decoded request does not depend on any `UserId` the body carries |
| `AccountDtos.ValidateCreate` | internal/models/dtos/account_dtos.go:11-18 | no errors iff first name, surname and birthdate are non-empty and gender has exactly one character; the patronymic is free |
| `AccountDtos.ValidateCreateByField` | internal/models/dtos/account_dtos.go:13-17 | the errors, field by field in declaration order, one per failing field |
| `AccountDtos.ThreeMissingFieldsThreeErrors` | internal/models/dtos/account_dtos.go:13-17 | three missing fields give exactly three `required` errors, not only the first |
| `LegacyAccountDtos.LegacyFromJson` | internal/models/dtos/account.go:10 | the older `UserId` has no tag, so a body's `UserId` fills it; the other fields decode as in the newer struct |
| `LegacyAccountDtos.ValidateLegacyCreate` | internal/models/dtos/account.go:9-16 | no errors iff first name, surname, gender and birthdate are non-empty |
| `LegacyAccountDtos.LegacyTableByField` | internal/models/dtos/account.go:11-15 | the older table field by field: only `required` errors, one per empty field, in order |
| `LegacyAccountDtos.LongGenderOnlyNewerRejects` | internal/models/dtos/account.go:14 | a gender of two or more characters passes the older table and fails the newer one with `max` |
| `LegacyAccountDtos.NewerTableIsStricter` | internal/models/dtos/account.go:11-15 | whatever the newer table accepts, the older accepts |
| `Storage.NewAccount` | internal/storage/pgsql/account.go:33-45 | every string field is copied; a birthdate that does not parse is stored as the zero date; one that parses is stored as the date whose text it is |
| `Storage.IsoBirthdateStoredAsZeroDate` | internal/storage/pgsql/account.go:35 | the documented example birthdate is stored as the zero date |
| `Storage.TableOfKeys` | internal/storage/pgsql/account.go:75-93 | a key is in the table iff some row has it, and it maps to the first such row in table order |
| `Storage.UniqueRowPerKey` | internal/storage/pgsql/account.go:75-93 | with unique keys, a query by key yields at most one row |
| `Storage.TableOfAppend` | internal/storage/pgsql/account.go:132-142 | appending a row with a new key adds that key and changes no other entry |
| `Storage.AppendKeepsUnique` | internal/storage/pgsql/account.go:104-108 | appending a row with a new key keeps at most one row per key |
| `Storage.SelectOutcome` | internal/storage/pgsql/account.go:60-96 | success iff the query runs, the key is present, the row is fetched and the scan succeeds. The result is the stored row with age 0. An absent key, or a row whose fetch fails, gives "no account with such id". No error is a deadline error |
| `Storage.InsertOutcome` | internal/storage/pgsql/account.go:98-143 | success iff the key is new and no driver step fails; a present key gives "account with this id already exists"; no error is a deadline error |
| `Storage.InsertThenSameKey` | internal/storage/pgsql/account.go:100-106 | after a successful insert, a second insert under the same key fails, and a select by that key returns the stored row |
| `Storage.AccountRepository.constructor` | internal/storage/pgsql/account.go:17-21 | the repository starts over a table with unique keys |
| `Storage.AccountRepository.CheckExistence` | internal/storage/pgsql/account.go:47-58 | found iff the key is in the table; a probe failure gives false and the error prefixed "error checking account existence: " |
| `Storage.AccountRepository.Select` | internal/storage/pgsql/account.go:60-96 | answers `SelectOutcome` on the current table; a returned account carries the requested id |
| `Storage.AccountRepository.BeginTx` | internal/storage/pgsql/account.go:111-114 | a fresh, empty, open transaction over this repository, or the driver's error and no transaction |
| `Storage.AccountRepository.Insert` | internal/storage/pgsql/account.go:98-143 | answers `InsertOutcome` on the old table. On success the rows gain exactly `newAccount(a)` under `a.UserId` and nothing else changes; on any error the rows are untouched. Keys stay unique. A transaction is opened only after the probe succeeds for a new key |
| `Storage.Transaction.NamedExec` | internal/storage/pgsql/account.go:132-135 | the row joins the pending writes, or the driver's error leaves them as they were |
| `Storage.Transaction.Commit` | internal/storage/pgsql/account.go:138-140 | the transaction ends; only a successful commit appends the pending rows to the table; a finished transaction answers `sql.ErrTxDone` and changes nothing |
| `Storage.Transaction.Rollback` | internal/storage/pgsql/account.go:115-119 | pending writes are discarded; on a finished transaction it answers `sql.ErrTxDone` and changes nothing |
| `Usecase.AgeCountsAnniversaries` | internal/usecase/account.go:39-46 | the age is `n` iff the `n`-th anniversary is not after today and the next one is after it: the year difference, minus one exactly while (month, day) of today precedes that of the birth |
| `Usecase.BirthdayCounts` | internal/usecase/account.go:42-45 | born 1990-06-01, on 2024-06-01 the age is 34; born a day later it is 33 |
| `Usecase.AgeMonotone` | internal/usecase/account.go:39-46 | for a fixed birthdate the age never decreases as today advances |
| `Usecase.AgeNotNegative` | internal/usecase/account.go:39-46 | nobody born on or before today has a negative age |
| `Usecase.ZeroDateAge` | internal/usecase/account.go:39-46 | an account stored with the zero date is 2023 years old on 2024-06-01 |
| `Usecase.AccountUsecase.constructor` | internal/usecase/account.go:18-23 | the use case keeps the repository it is given |
| `Usecase.AccountUsecase.Get` | internal/usecase/account.go:25-49 | a parse error is returned unchanged, whatever the table holds; a repository error is returned unchanged; otherwise the stored account comes back with only `Age` set, to the age at today |
| `Usecase.AccountUsecase.Create` | internal/usecase/account.go:51-59 | exactly `Insert`'s answer, with `Insert`'s effect on the table |
| `Http.UserIdFromContext` | internal/delivery/http/router/account_router.go:147 | the lookup succeeds iff a Go string is stored under the plain string key "user_id" |
| `Http.GetErrorStatus` | internal/delivery/http/router/account_router.go:84-90 | 500 iff the error text contains "failed", otherwise 400 |
| `Http.CreateErrorStatus` | internal/delivery/http/router/account_router.go:154-161 | 408 iff the error is a deadline error; otherwise the read rule |
| `Http.SelectErrorStatus` | internal/delivery/http/router/account_router.go:83-92 | a read failure is answered 500 iff the query failed, or the row was fetched and its scan failed; a missing account or a failed fetch is 400 |
| `Http.InsertErrorStatus` | internal/delivery/http/router/account_router.go:153-164 | no repository error is answered 408. An existing key is 400, and begin, insert and commit failures are 500. A failed probe is 500 iff the driver's text contains "failed" |
| `Auth.ExtractToken` | pkg/middleware/auth/auth.go:16-29 | an empty header gives 401 "Authorization header required"; another malformed one gives 401 with the format message; an accepted token is what follows "Bearer " and holds no space |
| `Auth.TokenAcceptedIff` | pkg/middleware/auth/auth.go:23-29 | the header is accepted with token `t` iff it is "Bearer " followed by `t`, and `t` holds no space |
| `Auth.EmptyTokenAccepted` | pkg/middleware/auth/auth.go:23-29 | "Bearer " is accepted with an empty token |
| `Auth.DoubleSpaceRefused` | pkg/middleware/auth/auth.go:23-27 | "Bearer  t" (two spaces) is refused |
| `Auth.LowerCaseSchemeRefused` | pkg/middleware/auth/auth.go:24-27 | the scheme must be exactly "Bearer" |
| `Auth.Verdict` | pkg/middleware/auth/auth.go:53-93 | the request is forwarded iff the service answers 200 with `valid: true`, and then the service's user id is stored under the private key. Otherwise: a transport error is 503; any other status is 401 "Unauthorized"; an unreadable or undecodable body is 500; `valid: false` is 401 with the service's message |
| `Auth.AuthMiddleware` | pkg/middleware/auth/auth.go:13-95 | a malformed header is rejected with the header check's answer and the service is not consulted. Otherwise the service is consulted with exactly the token, and the decision is `Verdict`'s on its answer, so a forwarded request carries the service's user id. The next handler runs iff the service vouches for that token. Every rejection is 401, 500 or 503 |
| `Auth.ForwardHidesUserId` | pkg/middleware/auth/auth.go:87-93 | after forwarding, a lookup by the plain string key "user_id" finds exactly what it found before |
| `Router.GetValidationMsg` | internal/delivery/http/router/account_router.go:167-178 | a sentence that starts with the field name iff the tag is `required`, `min` or `max`: "<F> is required", "<F> must be at least <p> characters", "<F> must be at most <p> characters"; "validation error" otherwise |
| `Router.CollectMessages` | internal/delivery/http/router/account_router.go:133-138 | one message per validator error, in the validator's order, none dropped |
| `Router.ThreeMissingFieldsThreeMessages` | internal/delivery/http/router/account_router.go:131-144 | three missing fields are answered with three messages, in declaration order |
| `Router.LongGenderMessage` | internal/delivery/http/router/account_router.go:131-144 | an over-long gender is answered "Gender must be at most 1 characters" |
| `Router.GetReply` | internal/delivery/http/router/account_router.go:71-95 | the read answer: an empty parameter gives 400 "invalid request". Otherwise the status is 200 iff the use case succeeds, with the account as message; a use-case error gets its classified status and its text |
| `Router.CreateReply` | internal/delivery/http/router/account_router.go:109-165 | the create run. An empty body is 400 "request body is empty", and any other decode error is 400 "failed to decode request body". Validation errors give one 400 listing their messages. None of these stores anything. It panics iff the request is valid and the context holds no string under the plain "user_id", and then writes and stores nothing. Otherwise an unparsable id writes a 400 and the run carries on to the insert, and only the insert's error is answered. A stored row's key was new. No response is ever 200, and a run that neither stores nor panics writes something |
| `Router.AccountRouter.constructor` | internal/delivery/http/router/account_router.go:36-46 | the router keeps the use case it is given |
| `Router.AccountRouter.GetAccountHandler` | internal/delivery/http/router/account_router.go:71-95 | writes exactly the one response `GetReply` gives on the current table |
| `Router.AccountRouter.CreateAccountHandler` | internal/delivery/http/router/account_router.go:109-165 | writes and panics as `CreateReply` says on the old table; the rows gain exactly the row it stores, and keys stay unique |
| `Router.AccountRouter.ServeGetAccount` | internal/delivery/http/router/account_router.go:48-56 | the read route behind the middleware: a rejection is the only response; a forwarded request gets exactly `GetReply`'s response; 200 is possible only after forwarding |
| `Router.AccountRouter.ServeCreateAccount` | internal/delivery/http/router/account_router.go:48-56 | the create route behind the middleware: a rejection is the only response and stores nothing. A forwarded request runs as `CreateReply` says with the forwarded context. A forwarded valid request without a plain "user_id" therefore always panics, writes nothing and stores nothing |
| `LegacyRouter.LegacyGetValidationMsg` | internal/delivery/http/router/account.go:164-173 | a sentence iff the tag is `required` or `min`; `max` gets "validation error"; on every other tag it agrees with the current router |
| `LegacyRouter.LegacyMessagesNameTheirField` | internal/delivery/http/router/account.go:129-142 | with the older table every error is `required`, so every message is "<Field> is required" |
| `LegacyRouter.AccountRouter.constructor` | internal/delivery/http/router/account.go:35-45 | the router keeps the use case it is given |
| `LegacyRouter.AccountRouter.GetAccountHandler` | internal/delivery/http/router/account.go:68-92 | writes exactly the one response the current read handler's `GetReply` gives |
| `LegacyRouter.AccountRouter.CreateAccountHandler` | internal/delivery/http/router/account.go:107-162 | the same early 400 answers. A valid request is created under the generated id, whatever `UserId` the body carried. A use-case error is answered with its classified status |
| `Config.MissingFields` | internal/config/config_manager.go:89-103 | names exactly the empty fields, none when the configuration is complete |
| `Config.ValidateConfig` | internal/config/config_manager.go:89-107 | nil iff log level, address and database URL are all set; otherwise "missing required fields: " and the missing names, in order, joined with ", " |
| `Config.MissingTwoFields` | internal/config/config_manager.go:89-103 | with only the log level set, the error reads "missing required fields: address, database_url" |
| `Config.OverlayNothingSet` | internal/config/config_manager.go:74-79 | an empty environment leaves the configuration as it is |
| `Config.OverlayTwice` | internal/config/config_manager.go:74-79 | two environments laid on one after the other act as their union, the later one winning |
| `Config.OverlayAllSet` | internal/config/config_manager.go:74-79 | with all three variables set, the configuration underneath does not matter |
| `Config.LoadFromEnv` | internal/config/config_manager.go:74-87 | a reader failure is wrapped; otherwise the variables are laid over the configuration, and "no env vars found" is reported iff the result is the empty configuration |
| `Config.NoEnvVarsHiddenByFile` | internal/config/config_manager.go:80-83 | after a file that set any field, an empty environment is not reported |
| `Config.NewServerConfig` | internal/config/config_manager.go:21-43 | a configuration is returned iff the merged one is complete and the two loaders did not both fail; what is returned is the merged configuration |
| `Config.FileFailureTolerated` | internal/config/config_manager.go:24-31 | a failed file load is tolerated when the environment sets every field |
| `Config.SearchFindsModuleRoot` | internal/config/config_manager.go:109-123 | the search answers only with one of the first ten ancestors of the start, and only with one that holds go.mod |
| `Config.SelfParentExhaustsProbes` | internal/config/config_manager.go:109-123 | a path that is its own parent and holds no go.mod ends with "max iterations reached while searching for go.mod" instead of looping |
| `Config.FindModuleRoot` | internal/config/config_manager.go:109-123 | at most ten probes, on the successive ancestors of the start; "" or "/" fails at once with no probe; a found directory is the last one probed, holds go.mod, and no earlier probe found go.mod; on failure no probed directory holds go.mod |

## Left out

- Logging (`slog` calls in the use case, the routers and the loader) has no effect on the answers and is not modelled.
- The 100 ms `context.WithTimeout` deadlines, concurrent requests and the race between probe and insert are out of scope. No deadline error can reach the create handler from the repository anyway.
- SQL execution and `sqlx` binding are modelled as operations on the rows. Each driver failure is an input (`SelectFaults`, `InsertFaults`). `rows.Close` and `cancel` are not modelled.
- `uuid.Parse` is the input `parseUuid`. It gives the id it returns and its error, so a partly filled id on error is covered. `uuid.New` is the input `generated`.
- The four calls to `time.Now()` are one input, `today`.
- `time.Parse` is modelled for the layout "02-01-2006" only. A date is year, month and day; time of day and time zone are left out.
- JSON decoding of request bodies is an input (`DecodeOutcome`). Encoding the response envelope is left out: a response is a status and a message.
- `http.Error` appends a newline to its message, and its content type differs from `response.JSON`. Neither is modelled.
- The `json.Marshal` failure branch of the middleware (auth.go:36-40) cannot be taken for a struct holding one string, so it is not modelled.
- The POST to the authorization service is the input `authority`: a transport failure, or a status and a body outcome. The 5-second client timeout and the service URL are not modelled.
- The current router registers `auth.NewMiddleware(...).Handler`, which is not part of this model. `Router.AccountRouter.ServeGetAccount` and `Router.AccountRouter.ServeCreateAccount` compose the `AuthMiddleware` of pkg/middleware/auth/auth.go instead.
- The older router registers its routes without middleware (account.go:49-52). Its handlers are its entry points, so it has no serve methods.
- chi routing is left out. The path parameter is the input `userIdParam`.
- `loadFromFile` is an input: the configuration after it and its error (`Loaded`). Reading `CONFIG_PATH`, the working directory, the file and its JSON is file-system I/O.
- `cleanenv.ReadEnv` is modelled as laying the variables that are set over the configuration. Its failure is an input, and a partial update before that failure is not modelled.
- `os.Stat` of go.mod and `filepath.Dir` are the inputs `hasGoMod` and `parent`.
- The unbounded `FindModuleRoot` of internal/config/config.go is not part of this model.
- Startup wiring, migrations, `server.go` and the stub files are not part of this model.
- Usecase.AccountUsecase.Get: "`Select` is not called after a parse error" is stated as "the answer on that path does not depend on the table or the driver faults"; the call itself is not observable in the contract.
- Router.AccountRouter.GetAccountHandler: "the use case is not called for an empty parameter" is stated only through the answer, which does not depend on the table.
- Storage.AccountRepository.Insert: the deferred rollback's own result is discarded, as in the source. The contract states the resulting rows, not the rollback call.

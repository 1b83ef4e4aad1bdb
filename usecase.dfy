/** The account use case: `Get` gates on the UUID text, reads the account
    and derives its age; `Create` hands the request to the repository. The
    four calls to `time.Now()` are one input, `today`. */
module Usecase {
  import opened Common
  import opened Dates
  import opened AccountDtos
  import opened Storage

  /** Age in whole years at `today` of someone born on `birth`: the year
      difference, one less while this year's birthday is still to come. */
  function AgeAt(birth: Date, today: Date): int
  {
    today.year - birth.year - (if EarlierInYear(today, birth) then 1 else 0)
  }

  /** The `n`-th anniversary of `birth` (the same month and day, `n` years on). */
  function Anniversary(birth: Date, n: int): Date
  {
    Date(birth.year + n, birth.month, birth.day)
  }

  /** The age is the number of anniversaries reached: `n` exactly when the
      `n`-th anniversary is not after `today` and the next one is after it. */
  lemma AgeCountsAnniversaries(birth: Date, today: Date, n: int)
    ensures AgeAt(birth, today) == n <==>
              NotAfter(Anniversary(birth, n), today) && Before(today, Anniversary(birth, n + 1))
  {
  }

  /** On the birthday itself the age is not decremented. */
  lemma BirthdayCounts()
    ensures AgeAt(Date(1990, 6, 1), Date(2024, 6, 1)) == 34
    ensures AgeAt(Date(1990, 6, 2), Date(2024, 6, 1)) == 33
  {
  }

  /** For a fixed birthdate the age never decreases as `today` advances. */
  lemma AgeMonotone(birth: Date, earlier: Date, later: Date)
    requires NotAfter(earlier, later)
    ensures AgeAt(birth, earlier) <= AgeAt(birth, later)
  {
  }

  /** Nobody born on or before `today` has a negative age. */
  lemma AgeNotNegative(birth: Date, today: Date)
    requires NotAfter(birth, today)
    ensures AgeAt(birth, today) >= 0
  {
  }

  /** An account stored with the zero date (a birthdate that did not parse)
      is given an age of about two thousand years. */
  lemma ZeroDateAge()
    ensures AgeAt(ZeroDate, Date(2024, 6, 1)) == 2023
  {
  }

  /** What `Get` answers for a table: the id's parse error, else the
      repository's answer with the age filled in. */
  function GetOutcome(table: map<Uuid, Account>, userId: string, parseUuid: string -> ParsedUuid,
                      faults: SelectFaults, today: Date): Result<GetAccountResponse, Error>
  {
    var parsed := parseUuid(userId);
    if parsed.err.Some? then Failure(parsed.err.value)
    else
      match SelectOutcome(table, parsed.id, faults)
      case Failure(e) => Failure(e)
      case Success(account) => Success(account.(age := AgeAt(account.birthdate, today)))
  }

  /** `AccountUsecase` over the repository it was built with. */
  class AccountUsecase {
    const repository: AccountRepository

    constructor (repository: AccountRepository)
      ensures this.repository == repository
    {
      this.repository := repository;
    }

    /** `Get`: a parse error of the id is returned as is and the repository is
        not consulted; a repository error is returned as is; otherwise the
        stored account comes back with only its age set. */
    method Get(userId: string, parseUuid: string -> ParsedUuid, faults: SelectFaults, today: Date)
      returns (r: Result<GetAccountResponse, Error>)
      requires repository.Valid()
      ensures parseUuid(userId).err.Some? ==> r == Failure(parseUuid(userId).err.value)
      ensures parseUuid(userId).err.None? ==>
                var selected := SelectOutcome(repository.Table(), parseUuid(userId).id, faults);
                (selected.Failure? ==> r == selected)
                && (selected.Success? ==> r == Success(selected.value.(age := AgeAt(selected.value.birthdate, today))))
      ensures r.Success? ==> parseUuid(userId).err.None? && r.value.userId == parseUuid(userId).id
      ensures r == GetOutcome(repository.Table(), userId, parseUuid, faults, today)
    {
      var parsed := parseUuid(userId);
      if parsed.err.Some? {
        return Failure(parsed.err.value);
      }
      var selected := repository.Select(parsed.id, faults);
      if selected.Failure? {
        return selected;
      }
      var account := selected.value;
      account := account.(age := today.year - account.birthdate.year);
      if today.month < account.birthdate.month {
        account := account.(age := account.age - 1);
      } else if today.month == account.birthdate.month {
        if today.day < account.birthdate.day {
          account := account.(age := account.age - 1);
        }
      }
      r := Success(account);
    }

    /** `Create`: exactly what `Insert` answers, and its effect on the table. */
    method Create(req: CreateAccountRequest, faults: InsertFaults) returns (err: Option<Error>)
      requires repository.Valid()
      modifies repository
      ensures repository.Valid()
      ensures err == InsertOutcome(old(repository.Table()), req, faults)
      ensures err.None? ==> repository.rows == old(repository.rows) + [NewAccount(req)]
      ensures err.Some? ==> repository.rows == old(repository.rows)
    {
      err := repository.Insert(req, faults);
    }
  }
}

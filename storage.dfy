/** The PostgreSQL account repository, with the database replaced by the
    rows of the `accounts` table it owns. Every driver failure the code can
    observe (the existence probe, the query, fetching the row, the row scan,
    begin, the insert, commit) is an input; every error the repository returns is
    built afresh with `errors.New`, so none of them is a deadline error. */
module Storage {
  import opened Common
  import opened Dates
  import opened AccountDtos

  /** A row of `accounts` (`storage.Account`). */
  datatype Account = Account(
    userId: Uuid,
    firstname: string,
    surname: string,
    patronymic: string,
    gender: string,
    birthdate: Date)

  /** `newAccount`: the request's fields copied, the birthdate parsed with
      the layout "02-01-2006" and the parse error discarded, so text that
      does not parse is stored as the zero date. */
  function NewAccount(a: CreateAccountRequest): (acc: Account)
    ensures acc.userId == a.userId && acc.firstname == a.firstname && acc.surname == a.surname
    ensures acc.patronymic == a.patronymic && acc.gender == a.gender
    ensures ParseDate(a.birthdate).None? ==> acc.birthdate == ZeroDate
    ensures ParseDate(a.birthdate).Some? ==>
              IsValid(acc.birthdate) && 0 <= acc.birthdate.year <= 9999 && FormatDate(acc.birthdate) == a.birthdate
  {
    var parsed := ParseDate(a.birthdate);
    if parsed.Some? then
      FormatParse(a.birthdate);
      Account(a.userId, a.firstname, a.surname, a.patronymic, a.gender, parsed.value)
    else
      Account(a.userId, a.firstname, a.surname, a.patronymic, a.gender, ZeroDate)
  }

  /** The example birthdate of the request's documentation is ISO text, which
      the layout rejects: the account is stored with the zero date. */
  lemma IsoBirthdateStoredAsZeroDate(a: CreateAccountRequest)
    requires a.birthdate == "1990-01-01"
    ensures NewAccount(a).birthdate == ZeroDate
  {
    IsoTextDoesNotParse();
  }

  /** The response `Select` builds from a row: the row's fields, `Age` left at 0. */
  function ResponseOf(acc: Account): GetAccountResponse
  {
    GetAccountResponse(acc.userId, acc.firstname, acc.surname, acc.patronymic, acc.gender, 0, acc.birthdate)
  }

  /** No two rows share a `user_id`. */
  predicate UniqueKeys(rows: seq<Account>)
  {
    forall i, j :: 0 <= i < j < |rows| ==> rows[i].userId != rows[j].userId
  }

  /** The rows `WHERE user_id = id`, in table order. */
  function RowsWith(rows: seq<Account>, id: Uuid): seq<Account>
  {
    if rows == [] then []
    else (if rows[0].userId == id then [rows[0]] else []) + RowsWith(rows[1..], id)
  }

  /** The table as a dictionary: each key to the first row that has it. */
  function TableOf(rows: seq<Account>): map<Uuid, Account>
  {
    if rows == [] then map[] else TableOf(rows[1..])[rows[0].userId := rows[0]]
  }

  /** A key is in the dictionary exactly when some row has it, and then it
      maps to the first such row in table order. */
  lemma {:induction false} TableOfKeys(rows: seq<Account>, id: Uuid)
    ensures RowsWith(rows, id) == [] <==> forall i :: 0 <= i < |rows| ==> rows[i].userId != id
    ensures id in TableOf(rows) <==> RowsWith(rows, id) != []
    ensures id in TableOf(rows) ==> TableOf(rows)[id] == RowsWith(rows, id)[0] && TableOf(rows)[id].userId == id
  {
    if rows != [] {
      TableOfKeys(rows[1..], id);
      assert forall i :: 1 <= i < |rows| ==> rows[i] == rows[1..][i - 1];
    }
  }

  /** With unique keys a query by key yields at most one row. */
  lemma {:induction false} UniqueRowPerKey(rows: seq<Account>, id: Uuid)
    requires UniqueKeys(rows)
    ensures |RowsWith(rows, id)| <= 1
  {
    if rows != [] {
      assert UniqueKeys(rows[1..]) by {
        forall i, j | 0 <= i < j < |rows[1..]| ensures rows[1..][i].userId != rows[1..][j].userId {
          assert rows[1..][i] == rows[i + 1] && rows[1..][j] == rows[j + 1];
        }
      }
      UniqueRowPerKey(rows[1..], id);
      if rows[0].userId == id {
        TableOfKeys(rows[1..], id);
        forall i | 0 <= i < |rows[1..]| ensures rows[1..][i].userId != id {
          assert rows[1..][i] == rows[i + 1];
        }
      }
    }
  }

  /** Appending a row whose key is new extends the dictionary by that key alone. */
  lemma {:induction false} TableOfAppend(rows: seq<Account>, acc: Account)
    requires acc.userId !in TableOf(rows)
    ensures TableOf(rows + [acc]) == TableOf(rows)[acc.userId := acc]
  {
    if rows == [] {
      assert [] + [acc] == [acc];
      assert [acc][1..] == [];
    } else {
      assert (rows + [acc])[1..] == rows[1..] + [acc];
      assert acc.userId !in TableOf(rows[1..]) && acc.userId != rows[0].userId;
      TableOfAppend(rows[1..], acc);
    }
  }

  /** Appending a row whose key is new keeps the keys unique. */
  lemma AppendKeepsUnique(rows: seq<Account>, acc: Account)
    requires UniqueKeys(rows) && acc.userId !in TableOf(rows)
    ensures UniqueKeys(rows + [acc])
  {
    TableOfKeys(rows, acc.userId);
    var all := rows + [acc];
    forall i, j | 0 <= i < j < |all| ensures all[i].userId != all[j].userId {
      if j == |rows| {
        assert all[i] == rows[i];
      } else {
        assert all[i] == rows[i] && all[j] == rows[j];
      }
    }
  }

  /** `err.Error()` of `errors.New(prefix + cause.Error())`. */
  function Wrap(prefix: string, cause: Error): Error
  {
    Error(false, prefix + cause.text)
  }

  const ProbeFailedPrefix := "error checking account existence: "
  const QueryFailedPrefix := "failed to execute query: "
  const NoAccountText := "no account with such id"
  const ScanFailedPrefix := "failed to get account: "
  const AlreadyExistsText := "account with this id already exists"
  const BeginFailedPrefix := "failed to begin transaction: "
  const InsertFailedPrefix := "failed to insert account: "
  const CommitFailedPrefix := "failed to commit transaction: "
  /** `sql.ErrTxDone`. */
  const TxDoneText := "sql: transaction has already been committed or rolled back"

  /** The driver failures one `Select` can meet: executing the query,
      fetching the row (`rows.Next()` then reports no row, and the cause in
      `rows.Err()` is never read), scanning the row. */
  datatype SelectFaults = SelectFaults(query: Option<Error>, next: Option<Error>, scan: Option<Error>)

  /** The driver failures one `Insert` can meet, one per step. */
  datatype InsertFaults = InsertFaults(probe: Option<Error>, begin: Option<Error>, exec: Option<Error>, commit: Option<Error>)

  const NoSelectFaults := SelectFaults(None, None, None)
  const NoInsertFaults := InsertFaults(None, None, None, None)

  /** What `Select` answers on a table: a query failure first, then no row
      (a missing key, or a row whose fetch failed), then a scan failure,
      otherwise the stored row with age 0. */
  function SelectOutcome(table: map<Uuid, Account>, id: Uuid, faults: SelectFaults): (r: Result<GetAccountResponse, Error>)
    ensures r.Success? <==> faults.query.None? && id in table && faults.next.None? && faults.scan.None?
    ensures r.Success? ==> r.value.age == 0 && r.value == ResponseOf(table[id])
    ensures faults.query.None? && (id !in table || faults.next.Some?) ==> r == Failure(Error(false, NoAccountText))
    ensures r.Failure? ==> !r.error.deadline
  {
    if faults.query.Some? then Failure(Wrap(QueryFailedPrefix, faults.query.value))
    else if id !in table || faults.next.Some? then Failure(Error(false, NoAccountText))
    else if faults.scan.Some? then Failure(Wrap(ScanFailedPrefix, faults.scan.value))
    else Success(ResponseOf(table[id]))
  }

  /** Whether an `Insert` opens a transaction: the probe succeeds, the key
      is new and `BeginTxx` succeeds. */
  predicate OpensTransaction(table: map<Uuid, Account>, a: CreateAccountRequest, faults: InsertFaults)
  {
    faults.probe.None? && a.userId !in table && faults.begin.None?
  }

  /** What `Insert` answers on a table: the first failing step, in the order
      probe, existing key, begin, insert, commit; `None` for success. */
  function InsertOutcome(table: map<Uuid, Account>, a: CreateAccountRequest, faults: InsertFaults): (r: Option<Error>)
    ensures r.None? <==> a.userId !in table && faults == NoInsertFaults
    ensures faults.probe.None? && a.userId in table ==> r == Some(Error(false, AlreadyExistsText))
    ensures r.Some? ==> !r.value.deadline
  {
    if faults.probe.Some? then Some(Wrap(ProbeFailedPrefix, faults.probe.value))
    else if a.userId in table then Some(Error(false, AlreadyExistsText))
    else if faults.begin.Some? then Some(Wrap(BeginFailedPrefix, faults.begin.value))
    else if faults.exec.Some? then Some(Wrap(InsertFailedPrefix, faults.exec.value))
    else if faults.commit.Some? then Some(Wrap(CommitFailedPrefix, faults.commit.value))
    else None
  }

  /** Once an account is stored, inserting another request with the same
      `UserId` is refused (or fails earlier, at the probe), and a select by
      that key returns the stored row. */
  lemma InsertThenSameKey(table: map<Uuid, Account>, a: CreateAccountRequest, b: CreateAccountRequest, faults: InsertFaults)
    requires InsertOutcome(table, a, NoInsertFaults).None?
    requires b.userId == a.userId
    ensures InsertOutcome(table[a.userId := NewAccount(a)], b, faults).Some?
    ensures SelectOutcome(table[a.userId := NewAccount(a)], a.userId, NoSelectFaults) == Success(ResponseOf(NewAccount(a)))
  {
  }

  /** `AccountRepository`: the rows of `accounts`, and a ghost count of the
      transactions it has opened. */
  class AccountRepository {
    var rows: seq<Account>
    ghost var transactionsBegun: nat

    ghost predicate Valid()
      reads this`rows
    {
      UniqueKeys(rows)
    }

    /** The table as a dictionary from `user_id` to its row. */
    function Table(): map<Uuid, Account>
      reads this`rows
    {
      TableOf(rows)
    }

    /** `NewAccountRepository` over a table that already holds `initial`. */
    constructor (initial: seq<Account>)
      requires UniqueKeys(initial)
      ensures Valid() && rows == initial && transactionsBegun == 0
    {
      rows := initial;
      transactionsBegun := 0;
    }

    /** `checkExistence`: `SELECT EXISTS(...)`, or the probe's failure wrapped. */
    method CheckExistence(id: Uuid, fault: Option<Error>) returns (found: bool, err: Option<Error>)
      ensures fault.None? ==> err.None? && (found <==> id in Table())
      ensures fault.Some? ==> !found && err == Some(Error(false, ProbeFailedPrefix + fault.value.text))
    {
      if fault.Some? {
        return false, Some(Wrap(ProbeFailedPrefix, fault.value));
      }
      TableOfKeys(rows, id);
      found := RowsWith(rows, id) != [];
      err := None;
    }

    /** `Select`: the query by key, the first row of its result, the scan. */
    method Select(id: Uuid, faults: SelectFaults) returns (r: Result<GetAccountResponse, Error>)
      ensures r == SelectOutcome(Table(), id, faults)
      ensures r.Success? ==> r.value.userId == id
    {
      if faults.query.Some? {
        return Failure(Wrap(QueryFailedPrefix, faults.query.value));
      }
      var result := RowsWith(rows, id);
      TableOfKeys(rows, id);
      if result == [] || faults.next.Some? {
        return Failure(Error(false, NoAccountText));
      }
      if faults.scan.Some? {
        return Failure(Wrap(ScanFailedPrefix, faults.scan.value));
      }
      var account := result[0];
      r := Success(ResponseOf(account));
    }

    /** `BeginTxx`: a fresh transaction over this repository, or the driver's error. */
    method BeginTx(fault: Option<Error>) returns (tx: Transaction?, err: Option<Error>)
      modifies this`transactionsBegun
      ensures err == fault
      ensures fault.Some? ==> tx == null && transactionsBegun == old(transactionsBegun)
      ensures fault.None? ==> tx != null && fresh(tx) && tx.repository == this && tx.pending == [] && !tx.done
                              && transactionsBegun == old(transactionsBegun) + 1
    {
      if fault.Some? {
        return null, fault;
      }
      tx := new Transaction(this);
      transactionsBegun := transactionsBegun + 1;
      err := None;
    }

    /** `Insert`: probe, refuse an existing key, open a transaction, write,
        commit; the deferred rollback runs whenever the local error is set.
        On success exactly `newAccount(a)` is added under `a.UserId`; on any
        error the rows are as before. */
    method Insert(a: CreateAccountRequest, faults: InsertFaults) returns (err: Option<Error>)
      requires Valid()
      modifies this
      ensures Valid()
      ensures err == InsertOutcome(old(Table()), a, faults)
      ensures err.None? ==> rows == old(rows) + [NewAccount(a)] && Table() == old(Table())[a.userId := NewAccount(a)]
      ensures err.Some? ==> rows == old(rows) && Table() == old(Table())
      ensures transactionsBegun == old(transactionsBegun) + (if OpensTransaction(old(Table()), a, faults) then 1 else 0)
    {
      var found, probeErr := CheckExistence(a.userId, faults.probe);
      if probeErr.Some? {
        return probeErr;
      }
      if found {
        return Some(Error(false, AlreadyExistsText));
      }
      var account := NewAccount(a);
      var tx, beginErr := BeginTx(faults.begin);
      if beginErr.Some? {
        return Some(Wrap(BeginFailedPrefix, beginErr.value));
      }
      var execErr := tx.NamedExec(account, faults.exec);
      if execErr.Some? {
        err := Some(Wrap(InsertFailedPrefix, execErr.value));
      } else {
        TableOfAppend(rows, account);
        AppendKeepsUnique(rows, account);
        assert tx.pending == [account];
        var commitErr := tx.Commit(faults.commit);
        if commitErr.Some? {
          err := Some(Wrap(CommitFailedPrefix, commitErr.value));
        } else {
          err := None;
        }
      }
      if err.Some? {
        var _ := tx.Rollback();
      }
    }
  }

  /** An `sqlx.Tx`: the rows written but not yet committed, and whether it
      has been committed or rolled back. */
  class Transaction {
    const repository: AccountRepository
    var pending: seq<Account>
    var done: bool

    constructor (repository: AccountRepository)
      ensures this.repository == repository && pending == [] && !done
    {
      this.repository := repository;
      pending := [];
      done := false;
    }

    /** `NamedExecContext` of the insert: the row joins the pending writes. */
    method NamedExec(account: Account, fault: Option<Error>) returns (err: Option<Error>)
      modifies this
      ensures done == old(done)
      ensures old(done) ==> err == Some(Error(false, TxDoneText)) && pending == old(pending)
      ensures !old(done) && fault.Some? ==> err == fault && pending == old(pending)
      ensures !old(done) && fault.None? ==> err.None? && pending == old(pending) + [account]
    {
      if done {
        return Some(Error(false, TxDoneText));
      }
      if fault.Some? {
        return fault;
      }
      pending := pending + [account];
      err := None;
    }

    /** `Commit`: the transaction ends either way; only a commit that
        succeeds applies the pending writes to the table. */
    method Commit(fault: Option<Error>) returns (err: Option<Error>)
      modifies this, repository`rows
      ensures done
      ensures old(done) ==> err == Some(Error(false, TxDoneText)) && repository.rows == old(repository.rows)
                            && pending == old(pending)
      ensures !old(done) && fault.Some? ==> err == fault && repository.rows == old(repository.rows) && pending == []
      ensures !old(done) && fault.None? ==> err.None? && repository.rows == old(repository.rows) + old(pending) && pending == []
    {
      if done {
        return Some(Error(false, TxDoneText));
      }
      done := true;
      if fault.Some? {
        pending := [];
        return fault;
      }
      repository.rows := repository.rows + pending;
      pending := [];
      err := None;
    }

    /** `Rollback`: the pending writes are discarded; a finished transaction
        answers `sql.ErrTxDone`. */
    method Rollback() returns (err: Option<Error>)
      modifies this
      ensures done && pending == (if old(done) then old(pending) else [])
      ensures old(done) ==> err == Some(Error(false, TxDoneText))
      ensures !old(done) ==> err.None?
    {
      if done {
        return Some(Error(false, TxDoneText));
      }
      done := true;
      pending := [];
      err := None;
    }
  }
}

/** database/database.go: the database handle (its open transaction, pending error and
    last query type), the query helpers, `Force`, the insert/update statement text and
    the classification of driver errors. The driver is an oracle: each call that would
    reach PostgreSQL takes its outcome as a parameter. */
module Database {
  import opened Wrappers
  import Util
  import Change

  // ---------------------------------------------------------------------------
  // Statement text (insertSQL, updateSQL)

  /** `:c` for each column `c`. */
  function Placeholders(cols: seq<string>): (r: seq<string>)
    ensures |r| == |cols| && forall i :: 0 <= i < |cols| ==> r[i] == ":" + cols[i]
  {
    if cols == [] then [] else [":" + cols[0]] + Placeholders(cols[1..])
  }

  /** `c = :c` for each column `c`. */
  function Assignments(cols: seq<string>): (r: seq<string>)
    ensures |r| == |cols| && forall i :: 0 <= i < |cols| ==> r[i] == cols[i] + " = :" + cols[i]
  {
    if cols == [] then [] else [cols[0] + " = :" + cols[0]] + Assignments(cols[1..])
  }

  /** The optional tail `returning K`, present iff K is not empty. */
  function Returning(keyColumn: string): string
  {
    if keyColumn != "" then "returning " + keyColumn else ""
  }

  /** The text the `insertSQL` template produces. The blank written after every
      column is removed by the `{{- end}}` that follows it, so columns are separated
      by ", " alone; the blank after the closing parenthesis stays. */
  function InsertSQL(columns: seq<string>, tableName: string, keyColumn: string): string
  {
    "insert into " + tableName + " (" + Util.Join(columns, ", ") + ") values (" +
    Util.Join(Placeholders(columns), ", ") + ") " + Returning(keyColumn)
  }

  /** The text the `updateSQL` template produces; with no columns the set list is
      empty and two blanks separate `set` from `where`. */
  function UpdateSQL(columns: seq<string>, tableName: string, whereClause: string, keyColumn: string): string
  {
    "update " + tableName + " set " + Util.Join(Assignments(columns), ", ") + " where " +
    whereClause + " " + Returning(keyColumn)
  }

  /** One `range` of the insert template: each item is written after ", " unless it
      is the first, as the `$putComa` flag decides. */
  method RenderList(items: seq<string>) returns (out: string)
    ensures out == Util.Join(items, ", ")
  {
    out := "";
    var putComa := false;
    var i := 0;
    while i < |items|
      invariant 0 <= i <= |items|
      invariant putComa <==> i > 0
      invariant out == Util.Join(items[..i], ", ")
    {
      Util.JoinSnoc(items[..i], items[i], ", ");
      assert items[..i + 1] == items[..i] + [items[i]];
      if putComa {
        out := out + ", ";
      }
      out := out + items[i];
      putComa := true;
      i := i + 1;
    }
    assert items[..i] == items;
  }

  /** `insertSQL`: executes the template step by step. */
  method RenderInsertSQL(columns: seq<string>, tableName: string, keyColumn: string) returns (out: string)
    ensures out == InsertSQL(columns, tableName, keyColumn)
  {
    var names := RenderList(columns);
    var params := RenderList(Placeholders(columns));
    out := "insert into " + tableName + " (" + names + ") values (" + params + ") ";
    if keyColumn != "" {
      out := out + "returning " + keyColumn;
    }
  }

  /** `updateSQL`: executes the template step by step. */
  method RenderUpdateSQL(columns: seq<string>, tableName: string, whereClause: string, keyColumn: string)
    returns (out: string)
    ensures out == UpdateSQL(columns, tableName, whereClause, keyColumn)
  {
    var sets := RenderList(Assignments(columns));
    out := "update " + tableName + " set " + sets + " where " + whereClause + " ";
    if keyColumn != "" {
      out := out + "returning " + keyColumn;
    }
  }

  /** The category insert of the HTTP tests: two columns, returning the ID. */
  lemma InsertSQLExample(tableName: string, keyColumn: string)
    ensures InsertSQL(["title", "slug"], tableName, keyColumn) ==
      "insert into " + tableName + " (" + "title, slug" + ") values (" + ":title, :slug" + ") " +
      Returning(keyColumn)
    ensures Returning("id") == "returning id" && Returning("") == ""
  {
    var ps := Placeholders(["title", "slug"]);
    assert ps[0] == ":" + "title" == ":title" && ps[1] == ":" + "slug" == ":slug";
    assert ps == [":title", ":slug"];
    assert [":title", ":slug"][1..] == [":slug"];
    assert Util.Join(["title", "slug"], ", ") == "title, slug";
    assert Util.Join([":title", ":slug"], ", ") == ":title, :slug";
  }

  /** An update of two columns, and one of none (for which the set list is empty). */
  lemma UpdateSQLExample(tableName: string, whereClause: string, keyColumn: string)
    ensures UpdateSQL(["title", "slug"], tableName, whereClause, keyColumn) ==
      "update " + tableName + " set " + "title = :title, slug = :slug" + " where " + whereClause + " " +
      Returning(keyColumn)
    ensures UpdateSQL([], tableName, whereClause, keyColumn) ==
      "update " + tableName + " set " + " where " + whereClause + " " + Returning(keyColumn)
  {
    var xs := Assignments(["title", "slug"]);
    assert xs[0] == "title" + " = :" + "title" == "title = :title";
    assert xs[1] == "slug" + " = :" + "slug" == "slug = :slug";
    assert xs == ["title = :title", "slug = :slug"];
    assert ["title = :title", "slug = :slug"][1..] == ["slug = :slug"];
    assert Util.Join(["title = :title", "slug = :slug"], ", ") == "title = :title, slug = :slug";
    assert Util.Join(Assignments([]), ", ") == "";
  }

  /** Every column of an insert is bound to the named parameter of the same name: the
      statement's column list and value list, split at ',', have one piece per column,
      and the i-th value piece is the i-th column piece with ':' before the name (when
      no column contains a comma). */
  lemma {:induction false} InsertListsSplitBack(columns: seq<string>, tableName: string, keyColumn: string)
    requires |columns| >= 1
    requires forall i :: 0 <= i < |columns| ==> ',' !in columns[i]
    ensures var names := Util.Join(columns, ", ");
      var values := Util.Join(Placeholders(columns), ", ");
      InsertSQL(columns, tableName, keyColumn) ==
        "insert into " + tableName + " (" + names + ") values (" + values + ") " + Returning(keyColumn)
    ensures var names := Util.Split(Util.Join(columns, ", "), ',');
      var values := Util.Split(Util.Join(Placeholders(columns), ", "), ',');
      |names| == |values| == |columns| &&
      forall i :: 0 <= i < |columns| ==>
        names[i] == Util.Blank(i) + columns[i] && values[i] == Util.Blank(i) + ":" + columns[i]
  {
    Util.SplitCommaSpaceJoin(columns);
    var ps := Placeholders(columns);
    forall i | 0 <= i < |ps| ensures ',' !in ps[i] {
      assert ps[i] == ":" + columns[i];
      forall k | 0 <= k < |ps[i]| ensures ps[i][k] != ',' {
        if k > 0 {
          assert ps[i][k] == columns[i][k - 1];
        }
      }
    }
    Util.SplitCommaSpaceJoin(ps);
    forall i | 0 <= i < |columns| ensures Util.Blank(i) + ps[i] == Util.Blank(i) + ":" + columns[i] {
    }
  }

  // ---------------------------------------------------------------------------
  // The handle's state machine

  /** The part of a `Database` the core updates: the open transaction (an opaque
      handle, or none), the pending error and the last query type. */
  datatype Handle = Handle(tx: Option<nat>, error: Option<Error>, queryType: string)

  /** The driver's answer to `Beginx`. */
  datatype BeginOutcome = Began(handle: nat) | BeginFailed(err: Error)

  /** `beginTx`: an open transaction is reused (and the pending error cleared);
      otherwise a new one is begun, or the failure becomes the pending error. */
  function BeginTxNext(h: Handle, begin: BeginOutcome): (r: Handle)
    ensures r.queryType == h.queryType
    ensures h.tx.Some? ==> r == h.(error := None)
    ensures h.tx.None? && begin.Began? ==> r == h.(tx := Some(begin.handle))
    ensures h.tx.None? && begin.BeginFailed? ==> r == h.(error := Some(begin.err))
  {
    if h.tx.None? then
      match begin
      case Began(t) => h.(tx := Some(t))
      case BeginFailed(err) => h.(tx := None, error := Some(err))
    else h.(error := None)
  }

  /** `rollback`: the transaction stays recorded; a failed driver rollback becomes the
      pending error, anything else clears it. */
  function RollbackNext(h: Handle, rbErr: Option<Error>): (r: Handle)
    ensures r.tx == h.tx && r.queryType == h.queryType
    ensures r.error == (if h.tx.Some? then rbErr else None)
  {
    if h.tx.Some? && rbErr.Some? then h.(error := rbErr) else h.(error := None)
  }

  /** `commit`: without a transaction nothing happens; a failed commit becomes the
      pending error; a successful one forgets the transaction and clears the error. */
  function CommitNext(h: Handle, cErr: Option<Error>): (r: Handle)
    ensures h.tx.None? ==> r == h
    ensures h.tx.Some? && cErr.Some? ==> r == h.(error := cErr)
    ensures h.tx.Some? && cErr.None? ==> r == h.(tx := None, error := None)
  {
    if h.tx.None? then h
    else if cErr.Some? then h.(error := cErr)
    else h.(tx := None, error := None)
  }

  /** What the transaction callback does, as far as the handle sees it: its return
      value and the pending error and query type it leaves behind. The callback
      issues inserts, updates and queries, none of which opens or closes the
      transaction. */
  datatype CallbackRun = CallbackRun(returned: Option<Error>, error: Option<Error>, queryType: string)

  /** `Transaction`: begin (or reuse), run the callback once, then roll back if it
      returned an error and commit otherwise. */
  function TransactionNext(h: Handle, begin: BeginOutcome, cb: CallbackRun,
                           rbErr: Option<Error>, cErr: Option<Error>): Handle
  {
    var started := BeginTxNext(h, begin);
    var after := started.(error := cb.error, queryType := cb.queryType);
    if cb.returned.Some? then RollbackNext(after, rbErr) else CommitNext(after, cErr)
  }

  /** A successful callback and commit leave no transaction and no pending error; a
      failing callback whose rollback succeeds leaves no pending error but keeps the
      transaction recorded (rollback never forgets it). */
  lemma TransactionOutcome(h: Handle, begin: BeginOutcome, cb: CallbackRun,
                           rbErr: Option<Error>, cErr: Option<Error>)
    ensures var started := BeginTxNext(h, begin);
      var r := TransactionNext(h, begin, cb, rbErr, cErr);
      && (cb.returned.None? && started.tx.Some? && cErr.None? ==> r.tx.None? && r.error.None?)
      && (cb.returned.None? && started.tx.Some? && cErr.Some? ==> r.tx == started.tx && r.error == cErr)
      && (cb.returned.Some? ==> r.tx == started.tx && r.error == (if started.tx.Some? then rbErr else None))
      && (h.tx.Some? ==> started.tx == h.tx)
      && (h.tx.None? && begin.Began? ==> started.tx == Some(begin.handle))
  {
  }

  /** After a failed callback the transaction stays recorded, so the next
      `Transaction` reuses it instead of beginning a new one, whatever `Beginx` would
      answer. */
  lemma RolledBackTransactionIsReused(h: Handle, begin: BeginOutcome, cb: CallbackRun,
                                      rbErr: Option<Error>, begin2: BeginOutcome)
    requires h.tx.Some? || begin.Began?
    requires cb.returned.Some?
    ensures var r := TransactionNext(h, begin, cb, rbErr, None);
      r.tx.Some? && BeginTxNext(r, begin2).tx == r.tx
  {
  }

  /** When `Beginx` fails the callback still runs, and since there is then nothing
      to commit, the begin error is replaced by whatever the callback left. */
  lemma BeginFailureIsLost(h: Handle, err: Error, cb: CallbackRun, cErr: Option<Error>)
    requires h.tx.None? && cb.returned.None?
    ensures TransactionNext(h, BeginFailed(err), cb, None, cErr) == Handle(None, cb.error, cb.queryType)
  {
  }

  /** What `Database.Force` does: panic with an HTTP status and message, or return
      the receiver. */
  datatype Forced = Panic(status: int, message: string) | Returned(handle: Handle)

  const StatusNotFound: int := 404
  const StatusUnprocessableEntity: int := 422

  /** `Database.Force`. Its receiver is a copy, and the deferred reset runs on that
      copy after the result was taken, so the handle comes back unchanged. */
  function ForceDatabase(h: Handle): (r: Forced)
    ensures r.Panic? <==> h.error.Some? && h.queryType in {"row", "insert", "update"}
    ensures r.Panic? && h.queryType == "row" ==> r == Panic(StatusNotFound, "not found")
    ensures r.Panic? && h.queryType != "row" ==> r == Panic(StatusUnprocessableEntity, "incorrect given parameters")
    ensures r.Returned? ==> r.handle == h
  {
    if h.error.Some? && h.queryType == "row" then Panic(StatusNotFound, "not found")
    else if h.error.Some? && (h.queryType == "insert" || h.queryType == "update") then
      Panic(StatusUnprocessableEntity, "incorrect given parameters")
    else Returned(h)
  }

  /** Forcing twice is forcing once: the returned handle is the receiver. */
  lemma ForceIdempotent(h: Handle)
    ensures ForceDatabase(h).Returned? ==> ForceDatabase(ForceDatabase(h).handle) == ForceDatabase(h)
  {
  }

  // ---------------------------------------------------------------------------
  // Results

  /** A row as the driver scans it. */
  datatype Row = Row(cells: seq<string>)

  /** `Result`. `Count` is never assigned by the core. */
  datatype Result = Result(queryType: string, rows: seq<Row>, count: int, error: Option<Error>)

  /** What `Result.Force` does: panic (only for a failed single-row query) or return
      the result unchanged. */
  datatype ForcedResult = ResultPanic(status: int, message: string) | ResultReturned(result: Result)

  function ForceResult(r: Result): (f: ForcedResult)
    ensures f.ResultPanic? <==> r.error.Some? && r.queryType == "row"
    ensures f.ResultPanic? ==> f == ResultPanic(StatusNotFound, "not found")
    ensures f.ResultReturned? ==> f.result == r
  {
    if r.error.Some? && r.queryType == "row" then ResultPanic(StatusNotFound, "not found")
    else ResultReturned(r)
  }

  /** The driver's answer to a multi-row query: an error, or rows, possibly with a
      scan failure at some position and an error reported at the end of iteration. */
  datatype QueryOutcome =
    | QueryFailed(err: Error)
    | QueryRows(rows: seq<Row>, scanFailure: Option<(nat, Error)>, iterationError: Option<Error>)

  /** The rows read before a scan failure (or all of them). */
  function RowsRead(rows: seq<Row>, scanFailure: Option<(nat, Error)>): (r: seq<Row>)
    ensures |r| <= |rows| && r == rows[..|r|]
  {
    if scanFailure.Some? && scanFailure.value.0 < |rows| then rows[..scanFailure.value.0] else rows
  }

  /** The error `query` reports after reading rows: the iteration error if any,
      otherwise the scan failure if one occurred. */
  function RowsError(rows: seq<Row>, scanFailure: Option<(nat, Error)>, iterationError: Option<Error>): Option<Error>
  {
    if iterationError.Some? then iterationError
    else if scanFailure.Some? && scanFailure.value.0 < |rows| then Some(scanFailure.value.1)
    else None
  }

  /** The driver's answer to a single-row query. */
  datatype RowOutcome = RowFound(row: Row) | RowFailed(err: Error)

  /** The driver's answers while an insert or update statement runs. */
  datatype StatementOutcome = StatementOutcome(prepareErr: Option<Error>, scanErr: Option<Error>, closeErr: Option<Error>)

  /** The error `Insert`/`Update` return: the first failing step. */
  function StatementError(o: StatementOutcome): Option<Error>
  {
    if o.prepareErr.Some? then o.prepareErr
    else if o.scanErr.Some? then o.scanErr
    else o.closeErr
  }

  /** The handle after `Insert`/`Update` (query type `qt`): a failed prepare becomes
      the pending error; a failed scan or close does too, followed by a rollback when
      a transaction is open. */
  function StatementNext(h: Handle, qt: string, o: StatementOutcome, rbErr: Option<Error>): (r: Handle)
    ensures r.queryType == qt && r.tx == h.tx
  {
    var h1 := h.(queryType := qt);
    if o.prepareErr.Some? then h1.(error := o.prepareErr)
    else if o.scanErr.Some? || o.closeErr.Some? then
      var failed := h1.(error := if o.scanErr.Some? then o.scanErr else o.closeErr);
      if failed.tx.Some? then RollbackNext(failed, rbErr) else failed
    else h1
  }

  /** Inside a transaction, a statement that fails after preparing leaves no pending
      error when the rollback succeeds; outside one the failure stays pending. A
      successful statement keeps the previous pending error. */
  lemma StatementErrorHandling(h: Handle, qt: string, o: StatementOutcome, rbErr: Option<Error>)
    ensures var r := StatementNext(h, qt, o, rbErr);
      && (StatementError(o).None? ==> r.error == h.error)
      && (o.prepareErr.Some? ==> r.error == o.prepareErr)
      && (o.prepareErr.None? && StatementError(o).Some? && h.tx.Some? ==> r.error == rbErr)
      && (o.prepareErr.None? && StatementError(o).Some? && h.tx.None? ==> r.error == StatementError(o))
  {
  }

  /** The outcome of `Delete`: an execution error, or the number of affected rows. */
  datatype DeleteOutcome = DeleteFailed(err: Error) | RowsAffected(count: int)

  const NoRowAffected: string := "do not found row affected"

  /** `dbError`: 1 (`TableNotFound`) for PostgreSQL's "42P01" (undefined table), 0
      (`OtherError`) for any other PostgreSQL error, -1 otherwise. */
  function DbError(isPostgres: bool, err: Error): (r: int)
    ensures r == 1 <==> isPostgres && err.PqError? && err.code == "42P01"
    ensures r == 0 <==> isPostgres && err.PqError? && err.code != "42P01"
    ensures r == -1 <==> !isPostgres || !err.PqError?
  {
    if isPostgres && err.PqError? then (if err.code == "42P01" then 1 else 0) else -1
  }

  class Database {
    var tx: Option<nat>
    var error: Option<Error>
    var queryType: string

    function Current(): Handle
      reads this
    {
      Handle(tx, error, queryType)
    }

    constructor ()
      ensures Current() == Handle(None, None, "")
    {
      tx := None;
      error := None;
      queryType := "";
    }

    method BeginTx(begin: BeginOutcome)
      modifies this
      ensures Current() == BeginTxNext(old(Current()), begin)
    {
      if tx.None? {
        match begin {
          case Began(t) =>
            tx := Some(t);
          case BeginFailed(err) =>
            error := Some(err);
            tx := None;
        }
        return;
      }
      error := None;
    }

    method Rollback(rbErr: Option<Error>)
      modifies this
      ensures Current() == RollbackNext(old(Current()), rbErr)
    {
      if tx.Some? {
        if rbErr.Some? {
          error := rbErr;
          return;
        }
      }
      error := None;
    }

    method Commit(cErr: Option<Error>)
      modifies this
      ensures Current() == CommitNext(old(Current()), cErr)
    {
      if tx.Some? {
        if cErr.Some? {
          error := cErr;
          return;
        }
        tx := None;
        error := None;
      }
    }

    /** `Transaction(cb)`. */
    method Transaction(begin: BeginOutcome, cb: CallbackRun, rbErr: Option<Error>, cErr: Option<Error>)
      returns (rolledBack: bool)
      modifies this
      ensures rolledBack <==> cb.returned.Some?
      ensures Current() == TransactionNext(old(Current()), begin, cb, rbErr, cErr)
    {
      BeginTx(begin);
      error, queryType := cb.error, cb.queryType;
      if cb.returned.Some? {
        Rollback(rbErr);
        return true;
      }
      Commit(cErr);
      return false;
    }

    /** `Force`, on the receiver's copy. */
    method Force() returns (r: Forced)
      ensures r == ForceDatabase(Current())
    {
      var copy := Current();
      if copy.error.Some? {
        if copy.queryType == "row" {
          return Panic(StatusNotFound, "not found");
        } else if copy.queryType == "insert" || copy.queryType == "update" {
          return Panic(StatusUnprocessableEntity, "incorrect given parameters");
        }
      }
      r := Returned(copy);
      // the deferred reset of QueryType and Error happens on `copy` after this point
    }

    /** `query` (`Query`, or `QueryWithModel` when `intoTarget`): a pending error is
      returned without running anything; an execution error triggers a rollback and
      becomes the pending error; otherwise the rows are read, into the result or
      into the target slice, until a scan fails. */
    method Query(exec: QueryOutcome, rbErr: Option<Error>, intoTarget: bool)
      returns (result: Result, target: seq<Row>)
      modifies this
      ensures old(error).Some? ==> result == Result("", [], 0, old(error)) && target == [] && Current() == old(Current())
      ensures old(error).None? && exec.QueryFailed? ==>
        result == Result("", [], 0, Some(exec.err)) && target == [] &&
        Current() == old(Current()).(error := Some(exec.err))
      ensures old(error).None? && exec.QueryRows? ==>
        var read := RowsRead(exec.rows, exec.scanFailure);
        && result == Result("", if intoTarget then [] else read, 0, RowsError(exec.rows, exec.scanFailure, exec.iterationError))
        && target == (if intoTarget then read else [])
        && Current() == old(Current())
    {
      result := Result("", [], 0, None);
      target := [];
      if error.Some? {
        result := result.(error := error);
        return;
      }
      match exec {
        case QueryFailed(err) =>
          Rollback(rbErr);
          error := Some(err);
          result := result.(error := Some(err));
          return;
        case QueryRows(rows, scanFailure, iterationError) =>
          var read: seq<Row> := [];
          var i := 0;
          while i < |rows|
            invariant 0 <= i <= |rows| && read == rows[..i]
            invariant result.error.None?
            invariant scanFailure.Some? ==> i <= scanFailure.value.0
          {
            if scanFailure.Some? && scanFailure.value.0 == i {
              result := result.(error := Some(scanFailure.value.1));
              break;
            }
            read := read + [rows[i]];
            i := i + 1;
          }
          assert read == RowsRead(rows, scanFailure);
          if intoTarget {
            target := read;
          } else {
            result := result.(rows := read);
          }
          if iterationError.Some? {
            result := result.(error := iterationError);
          }
      }
    }

    /** `queryRow` (`QueryRow`, or `QueryRowWithModel` when `intoTarget`): always a
      "row" result, run even when an error is pending; a failure triggers a rollback,
      which clears or replaces the pending error. When scanning into a target, the
      result still carries one row: the empty map that was never filled. */
    method QueryRow(outcome: RowOutcome, rbErr: Option<Error>, intoTarget: bool)
      returns (result: Result, target: Option<Row>)
      modifies this
      ensures result.queryType == "row" && result.count == 0
      ensures outcome.RowFailed? ==>
        result.rows == [] && result.error == Some(outcome.err) && target == None &&
        Current() == RollbackNext(old(Current()), rbErr)
      ensures outcome.RowFound? ==>
        result.rows == [if intoTarget then Row([]) else outcome.row] && result.error == None &&
        target == (if intoTarget then Some(outcome.row) else None) &&
        Current() == old(Current())
    {
      result := Result("row", [], 0, None);
      target := None;
      match outcome {
        case RowFailed(err) =>
          Rollback(rbErr);
          result := result.(error := Some(err));
        case RowFound(row) =>
          if intoTarget {
            target := Some(row);
            result := result.(rows := [Row([])]);
          } else {
            result := result.(rows := [row]);
          }
      }
    }

    /** `Insert(m, data, keys...)`: the columns are the keys `GetChanges` reports for
      an insert of `data` over the empty record `m`, and the returning list is the
      given keys joined by ", ". Scanning the returned row into `data` is not
      modelled. */
    method Insert(fields: seq<Change.Field>, m: array<Change.Value>, reqFields: seq<Change.Field>,
                  data: seq<Change.Value>, tableName: string, keys: seq<string>,
                  outcome: StatementOutcome, rbErr: Option<Error>)
      returns (err: Option<Error>, statement: string)
      requires Change.Compatible(fields, m[..], reqFields, data)
      modifies this, m
      ensures var o := Change.Outcomes(["insert"], true, fields, old(m[..]), reqFields, data);
        statement == InsertSQL(o.keys, tableName, Util.Join(keys, ", ")) && m[..] == o.values
      ensures err == StatementError(outcome)
      ensures Current() == StatementNext(old(Current()), "insert", outcome, rbErr)
    {
      var _, c1, _ := Change.GetChanges(fields, m, reqFields, data, ["insert"]);
      queryType := "insert";
      statement := RenderInsertSQL(c1, tableName, Util.Join(keys, ", "));
      err := RunStatement(outcome, rbErr);
    }

    /** `Update(m, data, whereClause, keys...)`: the stored record's ID is first
      copied into `data`; the where clause defaults to "id = :id". */
    method Update(fields: seq<Change.Field>, m: array<Change.Value>, reqFields: seq<Change.Field>,
                  data: array<Change.Value>, tableName: string, whereClause: Option<string>,
                  keys: seq<string>, outcome: StatementOutcome, rbErr: Option<Error>)
      returns (err: Option<Error>, statement: string)
      requires m != data
      requires IdField(fields, m[..]).Some? && IdField(reqFields, data[..]).Some?
      requires Change.Compatible(fields, m[..], reqFields, data[..])
      modifies this, m, data
      ensures data[..] == old(data[..])[IdField(reqFields, old(data[..])).value := old(m[..])[IdField(fields, old(m[..])).value]]
      ensures var o := Change.Outcomes(["update"], true, fields, old(m[..]), reqFields, data[..]);
        statement == UpdateSQL(o.keys, tableName, if whereClause.Some? then whereClause.value else "id = :id",
                               Util.Join(keys, ", ")) &&
        m[..] == o.values
      ensures err == StatementError(outcome)
      ensures Current() == StatementNext(old(Current()), "update", outcome, rbErr)
    {
      CopyId(fields, m, reqFields, data);
      var _, c1, _ := Change.GetChanges(fields, m, reqFields, data[..], ["update"]);
      queryType := "update";
      var where := if whereClause.Some? then whereClause.value else "id = :id";
      statement := RenderUpdateSQL(c1, tableName, where, Util.Join(keys, ", "));
      err := RunStatement(outcome, rbErr);
    }

    /** The stored record's ID written into the requested record. */
    static method CopyId(fields: seq<Change.Field>, m: array<Change.Value>, reqFields: seq<Change.Field>,
                         data: array<Change.Value>)
      requires m != data
      requires IdField(fields, m[..]).Some? && IdField(reqFields, data[..]).Some?
      requires Change.Compatible(fields, m[..], reqFields, data[..])
      modifies data
      ensures data[..] == old(data[..])[IdField(reqFields, old(data[..])).value := m[IdField(fields, m[..]).value]]
      ensures Change.Compatible(fields, m[..], reqFields, data[..])
    {
      var i := IdField(fields, m[..]).value;
      var j := IdField(reqFields, data[..]).value;
      ghost var before := data[..];
      data[j] := m[i];
      assert data[..] == before[j := m[i]];
      Change.CompatibleWithRequested(fields, m[..], reqFields, before, j, m[i]);
    }

    /** The prepare / query-and-scan / close sequence shared by `Insert` and `Update`. */
    method RunStatement(outcome: StatementOutcome, rbErr: Option<Error>) returns (err: Option<Error>)
      modifies this
      ensures err == StatementError(outcome)
      ensures Current() == StatementNext(old(Current()).(queryType := queryType), queryType, outcome, rbErr)
      ensures queryType == old(queryType)
    {
      if outcome.prepareErr.Some? {
        error := outcome.prepareErr;
        return outcome.prepareErr;
      }
      if outcome.scanErr.Some? {
        error := outcome.scanErr;
        if tx.Some? {
          Rollback(rbErr);
        }
        return outcome.scanErr;
      }
      if outcome.closeErr.Some? {
        error := outcome.closeErr;
        if tx.Some? {
          Rollback(rbErr);
        }
        return outcome.closeErr;
      }
      return None;
    }

    /** `Delete(table, where)`: the same rules inside and outside a transaction, and
      the handle is left alone. */
    method Delete(tableName: string, whereClause: string, outcome: DeleteOutcome)
      returns (result: Result, statement: string)
      ensures statement == "DELETE FROM " + tableName + " WHERE " + whereClause
      ensures result.queryType == "row" && result.rows == [] && result.count == 0
      ensures result.error.None? <==> outcome.RowsAffected? && outcome.count > 0
      ensures outcome.DeleteFailed? ==> result.error == Some(outcome.err)
      ensures outcome.RowsAffected? && outcome.count <= 0 ==> result.error == Some(Message(NoRowAffected))
    {
      result := Result("row", [], 0, None);
      statement := "DELETE FROM " + tableName + " WHERE " + whereClause;
      match outcome {
        case DeleteFailed(err) =>
          result := result.(error := Some(err));
        case RowsAffected(n) =>
          if n <= 0 {
            result := result.(error := Some(Message(NoRowAffected)));
          }
      }
    }
  }

  /** The position of the `ID` field, which must be an int64. */
  function IdField(fields: seq<Change.Field>, vals: seq<Change.Value>): (r: Option<nat>)
    ensures r.Some? ==> r.value < |fields| && fields[r.value].name == "ID"
    ensures r.Some? ==> r.value < |vals| && vals[r.value].Int64Value?
  {
    match Change.FindField(fields, "ID")
    case None => None
    case Some(i) => if i < |vals| && vals[i].Int64Value? then Some(i) else None
  }
}

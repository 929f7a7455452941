/** The migration bookkeeping of database/database.go: which SQL files are loaded and
    in what order (`migrationFiles`), and which of them `newMigrations` applies inside
    one transaction. Globbing and reading files are inputs; the driver is an oracle. */
module Migrations {
  import opened Wrappers
  import Util

  /** `sqlS`: a migration file's number, base name and contents. */
  datatype Migration = Migration(number: int, name: string, data: string)

  /** A path the glob matched, with its contents, or `None` when reading it failed. */
  datatype SqlFile = SqlFile(path: string, contents: Option<string>)

  /** The base name: the last "/"-separated piece of the path. */
  function FileName(path: string): string
  {
    var parts := Util.Split(path, '/');
    parts[|parts| - 1]
  }

  /** The number before the first ".", read with `strconv.Atoi` and its error ignored:
      0 for a syntax error, the nearest bound for a value out of range. */
  function FileNumber(name: string): int
  {
    Util.ParseInt(Util.Split(name, '.')[0]).value
  }

  /** The migration a readable file gives. */
  function Load(f: SqlFile): (r: Option<Migration>)
    ensures r.Some? <==> f.contents.Some?
    ensures r.Some? ==>
      r.value.name == FileName(f.path) && r.value.number == FileNumber(r.value.name) &&
      r.value.data == f.contents.value
  {
    match f.contents
    case None => None
    case Some(data) => Some(Migration(FileNumber(FileName(f.path)), FileName(f.path), data))
  }

  /** The readable files, in glob order. */
  function Loaded(files: seq<SqlFile>): (r: seq<Migration>)
    ensures |r| <= |files|
  {
    if files == [] then []
    else
      var prefix := Loaded(files[..|files| - 1]);
      match Load(files[|files| - 1])
      case None => prefix
      case Some(m) => prefix + [m]
  }

  /** Every loaded migration comes from a readable file, named and numbered after it. */
  lemma {:induction false} LoadedFromFiles(files: seq<SqlFile>)
    ensures forall m :: m in Loaded(files) ==>
      exists i :: 0 <= i < |files| && Load(files[i]) == Some(m)
  {
    if files != [] {
      var prefix := files[..|files| - 1];
      LoadedFromFiles(prefix);
      forall m | m in Loaded(files)
        ensures exists i :: 0 <= i < |files| && Load(files[i]) == Some(m)
      {
        if m in Loaded(prefix) {
          var i :| 0 <= i < |prefix| && Load(prefix[i]) == Some(m);
          assert files[i] == prefix[i];
        } else {
          assert Load(files[|files| - 1]) == Some(m);
        }
      }
    }
  }

  /** Ordered by number, largest first. */
  predicate Descending(s: seq<Migration>)
  {
    forall i, j :: 0 <= i < j < |s| ==> s[i].number >= s[j].number
  }

  /** Puts `x` before the first element whose number does not exceed its own. */
  function InsertDescending(s: seq<Migration>, x: Migration): (r: seq<Migration>)
    ensures multiset(r) == multiset(s) + multiset{x}
    ensures |r| == |s| + 1 && (r[0] == x || (s != [] && r[0] == s[0]))
    ensures Descending(s) ==> Descending(r)
  {
    if s == [] then [x]
    else if x.number >= s[0].number then
      ConsDescending(x, s);
      [x] + s
    else
      var rest := InsertDescending(s[1..], x);
      InsertBelowHead(s, x, rest);
      [s[0]] + rest
  }

  /** An element no smaller than the head of a descending sequence can go in front. */
  lemma ConsDescending(x: Migration, s: seq<Migration>)
    requires s != [] && x.number >= s[0].number
    ensures Descending(s) ==> Descending([x] + s)
  {
    if Descending(s) {
      forall i, j | 0 <= i < j < |[x] + s| ensures ([x] + s)[i].number >= ([x] + s)[j].number {
        if i == 0 {
          assert ([x] + s)[j] == s[j - 1] && s[0].number >= s[j - 1].number;
        } else {
          assert ([x] + s)[i] == s[i - 1] && ([x] + s)[j] == s[j - 1];
        }
      }
    }
  }

  /** The insertion below the head keeps the head in front. */
  lemma InsertBelowHead(s: seq<Migration>, x: Migration, rest: seq<Migration>)
    requires s != [] && x.number < s[0].number
    requires multiset(rest) == multiset(s[1..]) + multiset{x}
    requires Descending(s[1..]) ==> Descending(rest)
    ensures multiset([s[0]] + rest) == multiset(s) + multiset{x}
    ensures Descending(s) ==> Descending([s[0]] + rest)
  {
    assert s == [s[0]] + s[1..];
    if Descending(s) {
      assert Descending(s[1..]) by {
        forall i, j | 0 <= i < j < |s[1..]| ensures s[1..][i].number >= s[1..][j].number {
          assert s[1..][i] == s[i + 1] && s[1..][j] == s[j + 1];
        }
      }
      HeadBoundsInsert(s[0], s[1..], x, rest);
    }
  }

  /** An element at least as large as the elements of `t` and `x` heads a descending
      insertion of `x` into the descending `t`. */
  lemma HeadBoundsInsert(h: Migration, t: seq<Migration>, x: Migration, r: seq<Migration>)
    requires Descending([h] + t) && x.number <= h.number
    requires multiset(r) == multiset(t) + multiset{x} && Descending(r)
    ensures Descending([h] + r)
  {
    forall k | 0 <= k < |r| ensures r[k].number <= h.number {
      assert r[k] in multiset(r);
      if r[k] != x {
        assert multiset(t)[r[k]] == multiset(r)[r[k]] > 0;
        assert r[k] in t;
        var j :| 0 <= j < |t| && t[j] == r[k];
        assert ([h] + t)[0] == h && ([h] + t)[j + 1] == t[j];
      }
    }
    forall i, j | 0 <= i < j < |[h] + r| ensures ([h] + r)[i].number >= ([h] + r)[j].number {
      if i > 0 {
        assert ([h] + r)[i] == r[i - 1] && ([h] + r)[j] == r[j - 1];
      } else {
        assert ([h] + r)[j] == r[j - 1];
      }
    }
  }

  /** `sort.Slice` with "number greater than" as the order: some permutation that is
      descending (the library's sort is not stable, so equal numbers come in either
      order). */
  method SortDescending(s: seq<Migration>) returns (r: seq<Migration>)
    ensures Descending(r) && multiset(r) == multiset(s)
  {
    r := [];
    var i := 0;
    while i < |s|
      invariant 0 <= i <= |s|
      invariant Descending(r) && multiset(r) == multiset(s[..i])
    {
      assert s[..i + 1] == s[..i] + [s[i]];
      r := InsertDescending(r, s[i]);
      i := i + 1;
    }
    assert s[..i] == s;
  }

  /** `migrationFiles(db, typ)` over the files the glob matched for `typ`. */
  method MigrationFiles(files: seq<SqlFile>, typ: string) returns (sqls: seq<Migration>)
    ensures typ != "down" ==> sqls == Loaded(files)
    ensures typ == "down" ==> Descending(sqls) && multiset(sqls) == multiset(Loaded(files))
  {
    sqls := [];
    var i := 0;
    while i < |files|
      invariant 0 <= i <= |files|
      invariant sqls == Loaded(files[..i])
    {
      assert files[..i + 1][..i] == files[..i];
      var f := files[i];
      var fileName := FileName(f.path);
      var n := FileNumber(fileName);
      if f.contents.Some? {
        sqls := sqls + [Migration(n, fileName, f.contents.value)];
      }
      i := i + 1;
    }
    assert files[..i] == files;
    if typ == "down" {
      sqls := SortDescending(sqls);
    }
  }

  // ---------------------------------------------------------------------------
  // newMigrations

  /** The first migration, run by `baseMigrations` and skipped here. */
  const BaseMigration: string := "01.postgres.up.sql"

  /** What `database/sql` answers for every statement on a transaction that was
      already rolled back. */
  const TxDone: Error := Message("sql: transaction has already been committed or rolled back")

  /** A file is applied when it is not the base migration and its number exceeds the
      last recorded one, or when nothing is recorded yet. */
  predicate Selected(f: Migration, last: Option<int>)
  {
    f.name != BaseMigration && (last.None? || f.number > last.value)
  }

  /** The files to apply, in order. */
  function Selection(files: seq<Migration>, last: Option<int>): (r: seq<Migration>)
    ensures forall k :: 0 <= k < |r| ==> Selected(r[k], last)
    ensures |r| <= |files|
  {
    if files == [] then []
    else
      var prefix := Selection(files[..|files| - 1], last);
      if Selected(files[|files| - 1], last) then prefix + [files[|files| - 1]] else prefix
  }

  function Names(ms: seq<Migration>): (r: seq<string>)
    ensures |r| == |ms| && forall k :: 0 <= k < |ms| ==> r[k] == ms[k].name
  {
    if ms == [] then [] else Names(ms[..|ms| - 1]) + [ms[|ms| - 1].name]
  }

  /** The driver's answers for one file: executing its SQL, then recording it in the
      migration table. */
  datatype ExecResult = ExecResult(execErr: Option<Error>, recordErr: Option<Error>)

  /** The loop's state: the last error assigned, the files whose SQL reached a live
      transaction, the files recorded (and logged), and whether the transaction is
      still live. */
  datatype Progress = Progress(err: Option<Error>, attempted: seq<string>, recorded: seq<string>, live: bool)

  /** One iteration. A failed execution rolls the transaction back; `break` only
      leaves the `switch`, so later selected files still reach `Exec`, which then
      fails with `TxDone`. A failed record keeps the transaction and the error is
      overwritten by the next selected file. */
  function Apply(p: Progress, f: Migration, r: ExecResult, last: Option<int>): Progress
  {
    if !Selected(f, last) then p
    else if !p.live then p.(err := Some(TxDone))
    else if r.execErr.Some? then p.(err := r.execErr, attempted := p.attempted + [f.name], live := false)
    else
      p.(err := r.recordErr, attempted := p.attempted + [f.name],
         recorded := if r.recordErr.None? then p.recorded + [f.name] else p.recorded)
  }

  /** The state after the first `n` files. */
  function RunMigrations(files: seq<Migration>, results: seq<ExecResult>, last: Option<int>, n: nat): Progress
    requires |results| == |files| && n <= |files|
  {
    if n == 0 then Progress(None, [], [], true)
    else Apply(RunMigrations(files, results, last, n - 1), files[n - 1], results[n - 1], last)
  }

  /** What `newMigrations` ends with. When `Beginx` fails the transaction is nil and
      the unconditional `tx.Commit()` (if nothing earlier) dereferences it. */
  datatype MigrationRun = Migrated(err: Option<Error>, attempted: seq<string>, recorded: seq<string>)
                        | NilTransactionPanic

  /** `newMigrations`: `last` is the number column of the last row of the migration
      table, `None` when no row came back (a failed query also returns no rows);
      `files` is `migrationFiles(db, "up")`. The commit's own error is ignored. */
  method NewMigrations(files: seq<Migration>, last: Option<int>, beginOk: bool, results: seq<ExecResult>)
    returns (run: MigrationRun)
    requires |results| == |files|
    ensures !beginOk ==> run == NilTransactionPanic
    ensures beginOk ==> var p := RunMigrations(files, results, last, |files|);
      run == Migrated(p.err, p.attempted, p.recorded)
  {
    if !beginOk {
      return NilTransactionPanic;
    }
    var err: Option<Error> := None;
    var attempted: seq<string> := [];
    var recorded: seq<string> := [];
    var live := true;
    var i := 0;
    while i < |files|
      invariant 0 <= i <= |files|
      invariant RunMigrations(files, results, last, i) == Progress(err, attempted, recorded, live)
    {
      var f := files[i];
      if f.name == BaseMigration {
        // nothing to do
      } else if last.None? || f.number > last.value {
        if !live {
          err := Some(TxDone);
        } else {
          err := results[i].execErr;
          attempted := attempted + [f.name];
          if err.Some? {
            live := false;
          } else {
            err := results[i].recordErr;
            if err.None? {
              recorded := recorded + [f.name];
            }
          }
        }
      }
      i := i + 1;
    }
    return Migrated(err, attempted, recorded);
  }

  /** The applied names are a prefix of the selected ones, and all of them while the
      transaction is live. */
  predicate Follows(attempted: seq<string>, live: bool, selected: seq<string>)
  {
    attempted <= selected && (live ==> attempted == selected)
  }

  /** The applied files are the selected ones, in order, up to and including the first
      whose execution failed; while no execution has failed, they are all of them. */
  lemma {:induction false} AttemptedFollowSelection(files: seq<Migration>, results: seq<ExecResult>,
                                                    last: Option<int>, n: nat)
    requires |results| == |files| && n <= |files|
    ensures var p := RunMigrations(files, results, last, n);
      Follows(p.attempted, p.live, Names(Selection(files[..n], last)))
  {
    if n > 0 {
      AttemptedFollowSelection(files, results, last, n - 1);
      var before := RunMigrations(files, results, last, n - 1);
      assert RunMigrations(files, results, last, n) == Apply(before, files[n - 1], results[n - 1], last);
      SelectionStep(files, last, n);
      ApplyKeepsSelection(before, files[n - 1], results[n - 1], last, Names(Selection(files[..n - 1], last)));
    }
  }

  /** One iteration keeps the applied files a prefix of the selected ones, and all of
      them while the transaction is live. */
  lemma ApplyKeepsSelection(p: Progress, f: Migration, r: ExecResult, last: Option<int>, prior: seq<string>)
    requires Follows(p.attempted, p.live, prior)
    ensures var q := Apply(p, f, r, last);
      Follows(q.attempted, q.live, prior + (if Selected(f, last) then [f.name] else []))
  {
    if Selected(f, last) && !p.live {
      PrefixOfLonger(p.attempted, prior, [f.name]);
    } else if !Selected(f, last) {
      assert prior + [] == prior;
    }
  }

  /** One more file, selected or not. */
  lemma SelectionStep(files: seq<Migration>, last: Option<int>, n: nat)
    requires 0 < n <= |files|
    ensures Names(Selection(files[..n], last)) ==
      Names(Selection(files[..n - 1], last)) + (if Selected(files[n - 1], last) then [files[n - 1].name] else [])
  {
    var sel := Selection(files[..n - 1], last);
    assert files[..n][..n - 1] == files[..n - 1];
    if Selected(files[n - 1], last) {
      assert Selection(files[..n], last) == sel + [files[n - 1]];
      assert (sel + [files[n - 1]])[..|sel|] == sel;
    } else {
      assert sel + [] == sel;
    }
  }

  lemma PrefixOfLonger(a: seq<string>, b: seq<string>, c: seq<string>)
    requires a <= b
    ensures a <= b + c
  {
    assert (b + c)[..|a|] == b[..|a|];
  }

  /** The base migration is never applied here. */
  lemma BaseNeverApplied(files: seq<Migration>, results: seq<ExecResult>, last: Option<int>)
    requires |results| == |files|
    ensures BaseMigration !in RunMigrations(files, results, last, |files|).attempted
  {
    AttemptedFollowSelection(files, results, last, |files|);
    var p := RunMigrations(files, results, last, |files|);
    var sel := Names(Selection(files[..|files|], last));
    forall k | 0 <= k < |p.attempted| ensures p.attempted[k] != BaseMigration {
      assert p.attempted[k] == sel[k];
    }
  }

  /** How many of the first `n` files are selected. */
  function SelectedCount(files: seq<Migration>, last: Option<int>, n: nat): nat
    requires n <= |files|
  {
    |Selection(files[..n], last)|
  }

  lemma SelectedCountStep(files: seq<Migration>, last: Option<int>, n: nat)
    requires 0 < n <= |files|
    ensures SelectedCount(files, last, n) ==
      SelectedCount(files, last, n - 1) + (if Selected(files[n - 1], last) then 1 else 0)
  {
    assert files[..n][..n - 1] == files[..n - 1];
  }

  /** Once the transaction is rolled back nothing more is applied or recorded, the
      transaction stays dead, and every later selected file leaves `TxDone` as the
      error. */
  lemma {:induction false} FailureIsFinal(files: seq<Migration>, results: seq<ExecResult>,
                                          last: Option<int>, n: nat, m: nat)
    requires |results| == |files| && n <= m <= |files|
    requires !RunMigrations(files, results, last, n).live
    ensures var p := RunMigrations(files, results, last, n);
      var q := RunMigrations(files, results, last, m);
      && !q.live && q.attempted == p.attempted && q.recorded == p.recorded
      && SelectedCount(files, last, m) >= SelectedCount(files, last, n)
      && (SelectedCount(files, last, m) > SelectedCount(files, last, n) ==> q.err == Some(TxDone))
      && (SelectedCount(files, last, m) == SelectedCount(files, last, n) ==> q.err == p.err)
  {
    if m > n {
      FailureIsFinal(files, results, last, n, m - 1);
      SelectedCountStep(files, last, m);
      var before := RunMigrations(files, results, last, m - 1);
      var after := RunMigrations(files, results, last, m);
      if Selected(files[m - 1], last) {
        assert after == before.(err := Some(TxDone));
      } else {
        assert after == before;
      }
    }
  }

  /** The selected files among the first `n` whose record succeeds. */
  function RecordedNames(files: seq<Migration>, results: seq<ExecResult>, last: Option<int>, n: nat): seq<string>
    requires |results| == |files| && n <= |files|
  {
    if n == 0 then []
    else
      var prefix := RecordedNames(files, results, last, n - 1);
      if Selected(files[n - 1], last) && results[n - 1].recordErr.None? then prefix + [files[n - 1].name] else prefix
  }

  /** When every selected file executes, the transaction stays live and every selected
      file is applied, in order. */
  lemma {:induction false} AllSelectedApplied(files: seq<Migration>, results: seq<ExecResult>,
                                              last: Option<int>, n: nat)
    requires |results| == |files| && n <= |files|
    requires forall i :: 0 <= i < |files| && Selected(files[i], last) ==> results[i].execErr.None?
    ensures var p := RunMigrations(files, results, last, n);
      p.live && p.attempted == Names(Selection(files[..n], last))
  {
    if n > 0 {
      AllSelectedApplied(files, results, last, n - 1);
      SelectionStep(files, last, n);
      if Selected(files[n - 1], last) {
        assert results[n - 1].execErr.None?;
      } else {
        assert RunMigrations(files, results, last, n) == RunMigrations(files, results, last, n - 1);
      }
    }
  }

  /** When every selected file executes, exactly the selected files whose record
      succeeded are recorded, and with no failure at all no error is reported. */
  lemma {:induction false} AllExecutionsSucceed(files: seq<Migration>, results: seq<ExecResult>,
                                                last: Option<int>, n: nat)
    requires |results| == |files| && n <= |files|
    requires forall i :: 0 <= i < |files| && Selected(files[i], last) ==> results[i].execErr.None?
    ensures var p := RunMigrations(files, results, last, n);
      && p.recorded == RecordedNames(files, results, last, n)
      && ((forall i :: 0 <= i < n ==> results[i].recordErr.None?) ==> p.err.None?)
  {
    if n > 0 {
      AllExecutionsSucceed(files, results, last, n - 1);
      AllSelectedApplied(files, results, last, n - 1);
      var prev := RunMigrations(files, results, last, n - 1);
      assert prev.live;
      if Selected(files[n - 1], last) {
        assert results[n - 1].execErr.None?;
      } else {
        assert RunMigrations(files, results, last, n) == prev;
      }
    }
  }

  /** With migration 3 recorded, of the files 01 (base), 02, 03, 04 and 05 only 04
      and 05 are applied. */
  lemma SelectionExample(d: string)
    ensures var fs := [Migration(1, BaseMigration, d), Migration(2, "02", d), Migration(3, "03", d),
                       Migration(4, "04", d), Migration(5, "05", d)];
      Selection(fs, Some(3)) == [fs[3], fs[4]] && Selection(fs, None) == fs[1..]
  {
    var fs := [Migration(1, BaseMigration, d), Migration(2, "02", d), Migration(3, "03", d),
               Migration(4, "04", d), Migration(5, "05", d)];
    assert fs[..5] == fs;
    assert fs[..5][..4] == fs[..4] && fs[..4][..3] == fs[..3] && fs[..3][..2] == fs[..2];
    assert fs[..2][..1] == fs[..1] && fs[..1][..0] == [];
    assert Selection(fs[..1], Some(3)) == [] && Selection(fs[..1], None) == [];
    assert Selection(fs[..2], Some(3)) == [] && Selection(fs[..2], None) == [fs[1]];
    assert Selection(fs[..3], Some(3)) == [] && Selection(fs[..3], None) == [fs[1], fs[2]];
    assert Selection(fs[..4], Some(3)) == [fs[3]] && Selection(fs[..4], None) == [fs[1], fs[2], fs[3]];
  }
}

/** database/validator.go: `ValidateConstraint` turns a PostgreSQL integrity-constraint
    violation into messages keyed by the snake_case name of every field whose `unique`
    or `foreign` tag names the violated constraint. The codes are those of class 23
    ("Integrity Constraint Violation") of PostgreSQL's SQLSTATE table (Appendix A of
    the PostgreSQL manual); the codes and messages are those of database/constants.go. */
module Validator {
  import opened Wrappers
  import Util
  import Change
  import Fixtures

  const UniqueViolation: string := "23505"
  const ForeignKeyViolation: string := "23503"
  const NotNullViolation: string := "23502"

  const UniqueError: string := "has been already taken"
  const NotExistsError: string := "does not exists"
  const NotNullError: string := "is not null"

  /** `Tag`: which kind of tag matched, and the constraint. */
  datatype Tag = Tag(name: string, constraint: string)

  /** The message `constraintErrors` writes for an error code. */
  function ViolationMessage(code: string): (msg: string)
    ensures code == UniqueViolation ==> msg == UniqueError
    ensures code == ForeignKeyViolation ==> msg == NotExistsError
    ensures code != UniqueViolation && code != ForeignKeyViolation ==> msg == ""
    ensures msg != NotNullError
  {
    if code == UniqueViolation then UniqueError
    else if code == ForeignKeyViolation then NotExistsError
    else ""
  }

  /** A field gets an entry when its whole `unique` tag is the constraint and (since
      that tag is then split at ",") the constraint has no comma, or when its
      `foreign` tag is the constraint. */
  predicate Matches(f: Change.Field, constraint: string)
  {
    (f.unique == Some(constraint) && ',' !in constraint) || f.foreign == Some(constraint)
  }

  /** The map for the first fields, each matching field writing its key in turn. */
  function ConstraintMap(fields: seq<Change.Field>, constraint: string, code: string): map<string, string>
  {
    if fields == [] then map[]
    else
      var prev := ConstraintMap(fields[..|fields| - 1], constraint, code);
      var f := fields[|fields| - 1];
      if Matches(f, constraint) then prev[Util.ToSnakeCase(f.name) := ViolationMessage(code)] else prev
  }

  /** What one `constraintErrors` call leaves: the field's key is written once per
      tag, always with the same message. */
  function Recorded(errs: map<string, string>, name: string, code: string, tags: nat): map<string, string>
  {
    if tags == 0 then errs else errs[Util.ToSnakeCase(name) := ViolationMessage(code)]
  }

  /** `constraintErrors`. */
  method ConstraintErrors(field: Change.Field, code: string, tags: seq<Tag>, errs: map<string, string>)
    returns (r: map<string, string>)
    ensures r == Recorded(errs, field.name, code, |tags|)
  {
    r := errs;
    var i := 0;
    while i < |tags|
      invariant 0 <= i <= |tags|
      invariant r == Recorded(errs, field.name, code, i)
    {
      var msg := "";
      if code == UniqueViolation {
        msg := UniqueError;
      } else if code == ForeignKeyViolation {
        msg := NotExistsError;
      }
      r := r[Util.ToSnakeCase(field.name) := msg];
      i := i + 1;
    }
  }

  /** The pieces of a `unique` tag equal to the constraint. */
  method UniqueTags(tag: string, constraint: string) returns (tags: seq<Tag>)
    ensures |tags| == multiset(Util.Split(tag, ','))[constraint]
  {
    var uTags := Util.Split(tag, ',');
    tags := [];
    var j := 0;
    while j < |uTags|
      invariant 0 <= j <= |uTags|
      invariant |tags| == multiset(uTags[..j])[constraint]
    {
      assert uTags[..j + 1] == uTags[..j] + [uTags[j]];
      if uTags[j] == constraint {
        tags := tags + [Tag("unique", constraint)];
      }
      j := j + 1;
    }
    assert uTags[..j] == uTags;
  }

  /** Splitting a tag equal to the constraint yields the constraint itself exactly
      when it holds no comma. */
  lemma SplitSelf(constraint: string)
    ensures multiset(Util.Split(constraint, ','))[constraint] > 0 <==> ',' !in constraint
  {
    if ',' in constraint {
      Util.SplitPiecesFree(constraint, ',');
      var pieces := Util.Split(constraint, ',');
      assert constraint !in pieces;
    } else {
      Util.SplitWithoutSeparator(constraint, ',');
    }
  }

  /** `ValidateConstraint(err, r)` over the fields of `r`'s type; the error comes back
      unchanged. */
  method ValidateConstraint(err: Option<Error>, fields: seq<Change.Field>)
    returns (errs: map<string, string>, out: Option<Error>)
    ensures out == err
    ensures err.None? || err.value.Message? ==> errs == map[]
    ensures err.Some? && err.value.PqError? ==> errs == ConstraintMap(fields, err.value.constraint, err.value.code)
  {
    errs := map[];
    out := err;
    if err.None? || !err.value.PqError? {
      return;
    }
    var constraint, code := err.value.constraint, err.value.code;
    var i := 0;
    while i < |fields|
      invariant 0 <= i <= |fields|
      invariant errs == ConstraintMap(fields[..i], constraint, code)
    {
      assert fields[..i + 1][..i] == fields[..i];
      errs := FieldErrors(fields[i], constraint, code, errs);
      i := i + 1;
    }
    assert fields[..i] == fields;
  }

  /** The body of `ValidateConstraint`'s loop for one field. */
  method FieldErrors(field: Change.Field, constraint: string, code: string, errs: map<string, string>)
    returns (r: map<string, string>)
    ensures r == if Matches(field, constraint) then errs[Util.ToSnakeCase(field.name) := ViolationMessage(code)] else errs
  {
    var tags: seq<Tag> := [];
    if field.unique.Some? && field.unique.value == constraint {
      tags := UniqueTags(field.unique.value, constraint);
      SplitSelf(constraint);
    }
    r := ConstraintErrors(field, code, tags, errs);
    var uniqueCount := |tags|;
    if field.foreign.Some? && field.foreign.value == constraint {
      tags := tags + [Tag("foreign", constraint)];
    }
    r := ConstraintErrors(field, code, tags, r);
    FieldRecorded(errs, field, constraint, code, uniqueCount, |tags|);
  }


  /** Some field matching the constraint has `key` as its snake_case name. */
  predicate Marked(fields: seq<Change.Field>, constraint: string, key: string)
  {
    exists i :: 0 <= i < |fields| && Matches(fields[i], constraint) && Util.ToSnakeCase(fields[i].name) == key
  }

  /** The two `constraintErrors` calls for one field write its entry exactly when it
      matches the constraint. */
  lemma FieldRecorded(errs: map<string, string>, field: Change.Field, constraint: string, code: string,
                      uniqueCount: nat, count: nat)
    requires uniqueCount > 0 <==> field.unique == Some(constraint) && ',' !in constraint
    requires count == uniqueCount + (if field.foreign == Some(constraint) then 1 else 0)
    ensures Recorded(Recorded(errs, field.name, code, uniqueCount), field.name, code, count)
      == if Matches(field, constraint) then errs[Util.ToSnakeCase(field.name) := ViolationMessage(code)] else errs
  {
  }

  /** A key is present exactly when some matching field has that snake_case name. */
  lemma {:induction false} ConstraintMapEntries(fields: seq<Change.Field>, constraint: string, code: string)
    ensures forall key :: key in ConstraintMap(fields, constraint, code) <==> Marked(fields, constraint, key)
  {
    if fields != [] {
      var prefix := fields[..|fields| - 1];
      var last := |fields| - 1;
      ConstraintMapEntries(prefix, constraint, code);
      var prev := ConstraintMap(prefix, constraint, code);
      var msg := ViolationMessage(code);
      assert ConstraintMap(fields, constraint, code) ==
        if Matches(fields[last], constraint) then prev[Util.ToSnakeCase(fields[last].name) := msg] else prev;
      forall key ensures key in ConstraintMap(fields, constraint, code) <==> Marked(fields, constraint, key) {
        MarkedStep(fields, constraint, key);
      }
    }
  }

  /** A key is marked by a sequence of fields when it is marked by all but the last
      field or by the last one alone. */
  lemma MarkedStep(fields: seq<Change.Field>, constraint: string, key: string)
    requires fields != []
    ensures var last := |fields| - 1;
      Marked(fields, constraint, key) <==>
      Marked(fields[..last], constraint, key) ||
      (Matches(fields[last], constraint) && Util.ToSnakeCase(fields[last].name) == key)
  {
    var last := |fields| - 1;
    var prefix := fields[..last];
    if Marked(prefix, constraint, key) {
      var i :| 0 <= i < |prefix| && Matches(prefix[i], constraint) && Util.ToSnakeCase(prefix[i].name) == key;
      assert fields[i] == prefix[i];
    }
    if Marked(fields, constraint, key) {
      var i :| 0 <= i < |fields| && Matches(fields[i], constraint) && Util.ToSnakeCase(fields[i].name) == key;
      if i < last {
        assert prefix[i] == fields[i];
      }
    }
  }

  /** Every entry carries the code's message. */
  lemma {:induction false} ConstraintMapMessages(fields: seq<Change.Field>, constraint: string, code: string)
    ensures forall key :: key in ConstraintMap(fields, constraint, code) ==>
      ConstraintMap(fields, constraint, code)[key] == ViolationMessage(code)
  {
    if fields != [] {
      ConstraintMapMessages(fields[..|fields| - 1], constraint, code);
    }
  }

  /** Calling `constraintErrors` again with more tags for the same field changes
      nothing more: the calls are idempotent. */
  lemma RecordedIdempotent(errs: map<string, string>, name: string, code: string, k1: nat, k2: nat)
    requires k1 <= k2
    ensures Recorded(Recorded(errs, name, code, k1), name, code, k2) == Recorded(errs, name, code, k2)
  {
  }

  /** Only PostgreSQL's unique and foreign-key codes give a message; the not-null
      code, like any other, gives the empty message. */
  lemma NotNullGivesEmptyMessage(fields: seq<Change.Field>, constraint: string)
    ensures ViolationMessage(NotNullViolation) == ""
    ensures forall key :: key in ConstraintMap(fields, constraint, NotNullViolation) ==>
      ConstraintMap(fields, constraint, NotNullViolation)[key] == ""
  {
    ConstraintMapMessages(fields, constraint, NotNullViolation);
  }

  /** Fields that do not match add nothing. */
  lemma {:induction false} ConstraintMapSkip(fields: seq<Change.Field>, constraint: string, code: string, n: nat)
    requires n <= |fields|
    requires forall i :: n <= i < |fields| ==> !Matches(fields[i], constraint)
    ensures ConstraintMap(fields, constraint, code) == ConstraintMap(fields[..n], constraint, code)
  {
    if |fields| > n {
      var prefix := fields[..|fields| - 1];
      ConstraintMapSkip(prefix, constraint, code, n);
      assert prefix[..n] == fields[..n];
    } else {
      assert fields[..n] == fields;
    }
  }

  /** Fields that do not match ahead of the others add nothing. */
  lemma {:induction false} PrefixSilent(silent: seq<Change.Field>, fields: seq<Change.Field>, constraint: string, code: string)
    requires forall i :: 0 <= i < |silent| ==> !Matches(silent[i], constraint)
    ensures ConstraintMap(silent + fields, constraint, code) == ConstraintMap(fields, constraint, code)
  {
    if fields == [] {
      assert silent + fields == silent;
      ConstraintMapSkip(silent, constraint, code, 0);
      assert silent[..0] == [];
    } else {
      var n := |silent + fields|;
      PrefixSilent(silent, fields[..|fields| - 1], constraint, code);
      assert (silent + fields)[..n - 1] == silent + fields[..|fields| - 1];
      assert (silent + fields)[n - 1] == fields[|fields| - 1];
    }
  }

  /** Around the tagged fields of a record, the untagged ones add nothing. */
  lemma UntaggedSilent(before: seq<(string, string)>, tagged: seq<Change.Field>, after: seq<(string, string)>,
                       constraint: string, code: string)
    ensures ConstraintMap(Fixtures.PlainFields(before) + tagged + Fixtures.PlainFields(after), constraint, code)
      == ConstraintMap(tagged, constraint, code)
  {
    var a, b := Fixtures.PlainFields(before), Fixtures.PlainFields(after);
    var fs := a + tagged + b;
    forall i | |a| + |tagged| <= i < |fs| ensures !Matches(fs[i], constraint) {
      assert fs[i] == b[i - |a| - |tagged|];
    }
    ConstraintMapSkip(fs, constraint, code, |a| + |tagged|);
    assert fs[..|a| + |tagged|] == a + tagged;
    PrefixSilent(a, tagged, constraint, code);
  }

  /** Of two fields, only the first matching. */
  lemma FirstOfTwo(f: Change.Field, g: Change.Field, constraint: string, code: string)
    requires Matches(f, constraint) && !Matches(g, constraint)
    ensures ConstraintMap([f, g], constraint, code) == map[Util.ToSnakeCase(f.name) := ViolationMessage(code)]
  {
    var m := ViolationMessage(code);
    assert [f][..0] == [];
    assert ConstraintMap([f], constraint, code) == map[Util.ToSnakeCase(f.name) := m];
    assert [f, g][..1] == [f];
  }

  /** Of two tagged fields among untagged ones, only the first matching. */
  lemma OnlyFirstOfTwo(before: seq<(string, string)>, f: Change.Field, g: Change.Field, after: seq<(string, string)>,
                       constraint: string, code: string)
    requires Matches(f, constraint) && !Matches(g, constraint)
    ensures ConstraintMap(Fixtures.PlainFields(before) + [f, g] + Fixtures.PlainFields(after), constraint, code)
      == map[Util.ToSnakeCase(f.name) := ViolationMessage(code)]
  {
    UntaggedSilent(before, [f, g], after, constraint, code);
    FirstOfTwo(f, g, constraint, code);
  }

  /** Of three fields, the first two matching. */
  lemma FirstTwoOfThree(f: Change.Field, g: Change.Field, h: Change.Field, constraint: string, code: string)
    requires Matches(f, constraint) && Matches(g, constraint) && !Matches(h, constraint)
    ensures ConstraintMap([f, g, h], constraint, code)
      == map[Util.ToSnakeCase(f.name) := ViolationMessage(code), Util.ToSnakeCase(g.name) := ViolationMessage(code)]
  {
    var m := ViolationMessage(code);
    assert [f][..0] == [];
    assert ConstraintMap([f], constraint, code) == map[Util.ToSnakeCase(f.name) := m];
    assert [f, g][..1] == [f];
    assert ConstraintMap([f, g], constraint, code) == map[Util.ToSnakeCase(f.name) := m, Util.ToSnakeCase(g.name) := m];
    assert [f, g, h][..2] == [f, g];
  }

  /** The foreign-key case of the validator test: `job_id` "does not exists". */
  lemma JobDetailForeignKey()
    ensures ConstraintMap(Fixtures.JobDetailFields, Fixtures.JobForeignKey, ForeignKeyViolation)
      == map["job_id" := NotExistsError]
  {
    var c := Fixtures.JobForeignKey;
    assert !Matches(Fixtures.JobSourceField, c) by {
      assert |Fixtures.JobSourceForeignKey| != |c|;
    }
    OnlyFirstOfTwo(Fixtures.JobDetailLeading, Fixtures.JobIdField, Fixtures.JobSourceField, Fixtures.JobDetailTrailing,
                   c, ForeignKeyViolation);
    Util.SnakeCaseJobId();
    assert Fixtures.JobIdField.name == "JobID";
    assert ViolationMessage(ForeignKeyViolation) == NotExistsError;
    assert Fixtures.JobDetailFields == Fixtures.PlainFields(Fixtures.JobDetailLeading) + [Fixtures.JobIdField, Fixtures.JobSourceField] + Fixtures.PlainFields(Fixtures.JobDetailTrailing);
  }

  /** A composite unique constraint marks every field that carries it: `PostID` and
      `CategoryID` both get "has been already taken". */
  lemma CompositeUnique()
    ensures ConstraintMap(Fixtures.PostCategoryAssignmentFields, Fixtures.PostCategoryUnique, UniqueViolation)
      == map[Util.ToSnakeCase("PostID") := UniqueError, Util.ToSnakeCase("CategoryID") := UniqueError]
  {
    var c := Fixtures.PostCategoryUnique;
    assert ',' !in c && |"fk_post_category_assignments_source_user_id"| != |c|;
    FirstTwoOfThree(Fixtures.PostIdField, Fixtures.CategoryIdField, Fixtures.AssignmentSourceField, c, UniqueViolation);
    UntaggedSilent([("DBInterface", ""), ("ID", "id")],
                   [Fixtures.PostIdField, Fixtures.CategoryIdField, Fixtures.AssignmentSourceField],
                   [("InsertedAt", "inserted_at")], c, UniqueViolation);
  }
}

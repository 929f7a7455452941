/** Field lists of some records of database/model and of the validator test, as the
    constraint validator sees them: Go field name, `db` tag, `unique` and `foreign`
    tags. The embedded `DBInterface` has no `db` tag. */
module Fixtures {
  import opened Wrappers
  import Change

  /** Fields with a `db` tag and neither a `unique` nor a `foreign` tag, from their
      Go names and columns. */
  function PlainFields(columns: seq<(string, string)>): (fs: seq<Change.Field>)
    ensures |fs| == |columns|
    ensures forall i :: 0 <= i < |fs| ==> fs[i] == Change.Field(columns[i].0, columns[i].1, None, None)
  {
    if columns == [] then [] else [Change.Field(columns[0].0, columns[0].1, None, None)] + PlainFields(columns[1..])
  }

  /** The composite unique constraint of post-category assignments (written in two
      pieces so that its characters need not be examined one at a time). */
  const PostCategoryUnique: string := "post_category_assignments" + "_post_category_unique"

  const PostIdField: Change.Field :=
    Change.Field("PostID", "post_id", Some(PostCategoryUnique), Some("fk_post_category_assignments_post_id"))
  const CategoryIdField: Change.Field :=
    Change.Field("CategoryID", "category_id", Some(PostCategoryUnique), Some("fk_post_category_assignments_category_id"))
  const AssignmentSourceField: Change.Field :=
    Change.Field("SourceUserID", "source_user_id", None, Some("fk_post_category_assignments_source_user_id"))

  /** `model.PostCategoryAssignment`: `PostID` and `CategoryID` share one composite
      unique constraint and each has its own foreign key. */
  const PostCategoryAssignmentFields: seq<Change.Field> :=
    PlainFields([("DBInterface", ""), ("ID", "id")])
    + [PostIdField, CategoryIdField, AssignmentSourceField]
    + PlainFields([("InsertedAt", "inserted_at")])

  /** The foreign keys of the validator test's job details (written in two pieces, like
      the constraint above). */
  const JobForeignKey: string := "fk_ra_job_details_" + "job_id"
  const JobSourceForeignKey: string := "fk_ra_job_details_" + "source_user_id"

  const JobIdField: Change.Field := Change.Field("JobID", "job_id", None, Some(JobForeignKey))
  const JobSourceField: Change.Field := Change.Field("SourceUserID", "source_user_id", None, Some(JobSourceForeignKey))

  /** The untagged columns of the job details ahead of and after the two foreign keys. */
  const JobDetailLeading: seq<(string, string)> := [("DBInterface", ""), ("ID", "id"), ("NodeID", "node_id")]
  const JobDetailTrailing: seq<(string, string)> :=
    [("Code", "code"), ("Name", "name"), ("Type", "type"), ("Detail", "detail"),
     ("Before", "before"), ("BeforeJobs", "before_jobs"), ("After", "after"),
     ("AfterJobs", "after_jobs"), ("ScriptFile", "script_file"), ("Script", "script"),
     ("InsertedAt", "inserted_at")]

  /** `TestJobDetail` of database/validator_test.go: `JobID` carries the foreign key
      the test violates. */
  const JobDetailFields: seq<Change.Field> :=
    PlainFields(JobDetailLeading) + [JobIdField, JobSourceField] + PlainFields(JobDetailTrailing)
}

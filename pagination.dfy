/** model/pagination.go: the pagination record, its defaults and its validation. */
module Pagination {
  import opened Wrappers
  import Util

  /** `model.Pagination`. */
  datatype Pagination = Pagination(limit: int, offset: int, orderBy: string, orderField: string)

  /** The `lte=40` bound on `Limit`. */
  const MaxLimit: int := 40

  /** `NewPagination`: the defaults. */
  function NewPagination(): (p: Pagination)
    ensures p.limit == MaxLimit && p.offset == 0 && p.orderBy == "desc" && p.orderField == "id"
  {
    Pagination(40, 0, "desc", "id")
  }

  /** What `Validate` returns: the field error map and the error, if any. */
  datatype Checked = Checked(errs: map<string, string>, err: Option<string>)

  /** The struct tags: `Limit` at most 40, `OrderBy` one of "asc" and "desc". */
  predicate StructValid(m: Pagination)
  {
    m.limit <= MaxLimit && (m.orderBy == "asc" || m.orderBy == "desc")
  }

  /** `utils.ValidateStruct(m)` for the two tagged fields: each failing field under its
      Go name with the tag it fails. */
  function ValidateStruct(m: Pagination): (r: Checked)
    ensures r.err.None? <==> StructValid(m)
    ensures r.err.None? ==> r.errs == map[]
    ensures "Limit" in r.errs <==> m.limit > MaxLimit
    ensures "OrderBy" in r.errs <==> !(m.orderBy == "asc" || m.orderBy == "desc")
    ensures r.errs.Keys <= {"Limit", "OrderBy"}
  {
    var limitErrs: map<string, string> := if m.limit > MaxLimit then map["Limit" := "lte"] else map[];
    var orderErrs: map<string, string> := if m.orderBy == "asc" || m.orderBy == "desc" then map[] else map["OrderBy" := "oneof"];
    var errs := limitErrs + orderErrs;
    Checked(errs, if StructValid(m) then None else Some("invalid pagination"))
  }

  /** The message of a rejected order field. */
  function OrderFieldMessage(orderFields: seq<string>): string
  {
    "the value entered should be " + Util.Join(orderFields, ", ") + " one of values."
  }

  /** `Validate(orderFields...)`: with a non-empty list, an order field outside it fails
      first; otherwise the struct tags decide. */
  function Validate(m: Pagination, orderFields: seq<string>): (r: Checked)
    ensures |orderFields| > 0 && m.orderField !in orderFields ==>
      r == Checked(map["order_field" := "is not valid"], Some(OrderFieldMessage(orderFields)))
    ensures r.err.None? <==> (orderFields == [] || m.orderField in orderFields) && StructValid(m)
    ensures r.err.None? ==> r.errs == map[]
  {
    if |orderFields| > 0 && !(m.orderField in orderFields) then
      Checked(map["order_field" := "is not valid"], Some(OrderFieldMessage(orderFields)))
    else ValidateStruct(m)
  }

  /** The defaults pass whenever the list is empty or admits "id". */
  lemma DefaultsValidate(orderFields: seq<string>)
    requires orderFields == [] || "id" in orderFields
    ensures Validate(NewPagination(), orderFields) == Checked(map[], None)
  {
  }

  /** A rejected order field hides every struct error. */
  lemma OrderFieldFailsFirst(m: Pagination, orderFields: seq<string>)
    requires |orderFields| > 0 && m.orderField !in orderFields
    ensures Validate(m, orderFields).errs.Keys == {"order_field"}
    ensures "Limit" !in Validate(m, orderFields).errs && "OrderBy" !in Validate(m, orderFields).errs
  {
  }

  /** The message lists the admitted fields separated by ", ". */
  lemma OrderFieldMessageTwo(a: string, b: string)
    ensures OrderFieldMessage([a, b]) == "the value entered should be " + a + ", " + b + " one of values."
  {
    assert [a, b][1..] == [b];
    assert Util.Join([a, b], ", ") == a + ", " + b;
  }
}

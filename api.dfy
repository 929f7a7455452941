/** api/api.go: `ParseQuery` flattens the decoded query string, and `Paginate` reads
    `limit`, `offset`, `order_by` and `order_field` from it into a pagination record. */
module Api {
  import opened Wrappers
  import Util
  import Pagination

  /** `ParseQuery`: the first value of every key of the decoded query (which
      `url.ParseQuery` never leaves without a value). */
  method ParseQuery(qs: map<string, seq<string>>) returns (values: map<string, string>)
    requires forall k :: k in qs ==> |qs[k]| >= 1
    ensures values.Keys == qs.Keys
    ensures forall k :: k in qs ==> values[k] == qs[k][0]
  {
    values := map[];
    var pending := qs.Keys;
    while pending != {}
      invariant pending <= qs.Keys
      invariant values.Keys == qs.Keys - pending
      invariant forall k :: k in values ==> values[k] == qs[k][0]
      decreases pending
    {
      var key :| key in pending;
      values := values[key := qs[key][0]];
      pending := pending - {key};
    }
  }

  const StatusBadRequest: int := 400
  const InvalidParams: string := "paginate params not valid"
  const NotValid: string := "is not valid"

  /** How `Paginate` ends: the pagination and `Validate`'s error map, or a 400 panic
      carrying an error map. */
  datatype Paginated = Paginated(pagination: Pagination.Pagination, errs: map<string, string>)
                     | BadRequest(status: int, message: string, errs: map<string, string>)

  /** The record after the assignments: each present parameter overwrites its default,
      a number taking the value `strconv` returns even when it reports an error. */
  function Requested(q: map<string, string>): (p: Pagination.Pagination)
  {
    var d := Pagination.NewPagination();
    Pagination.Pagination(
      if "limit" in q then Util.ParseInt(q["limit"]).value else d.limit,
      if "offset" in q then Util.ParseInt(q["offset"]).value else d.offset,
      if "order_by" in q then q["order_by"] else d.orderBy,
      if "order_field" in q then q["order_field"] else d.orderField)
  }

  /** An `order_field` parameter outside the list (any one, when the list is empty). */
  predicate OrderFieldRejected(q: map<string, string>, orderFields: seq<string>)
  {
    "order_field" in q && q["order_field"] !in orderFields
  }

  /** `err` before the first check: the order field error, else the error of the last
      number parsed, which is `offset` whenever it is present. */
  predicate ParamsFailed(q: map<string, string>, orderFields: seq<string>)
  {
    OrderFieldRejected(q, orderFields) ||
    (if "offset" in q then Util.ParseInt(q["offset"]).failed
     else "limit" in q && Util.ParseInt(q["limit"]).failed)
  }

  /** `errs` before the first check: every rejected parameter, whichever came last. */
  function ParamErrors(q: map<string, string>, orderFields: seq<string>): (errs: map<string, string>)
    ensures forall k :: k in errs ==> errs[k] == NotValid
    ensures "limit" in errs <==> "limit" in q && Util.ParseInt(q["limit"]).failed
    ensures "offset" in errs <==> "offset" in q && Util.ParseInt(q["offset"]).failed
    ensures "order_field" in errs <==> OrderFieldRejected(q, orderFields)
    ensures errs.Keys <= {"limit", "offset", "order_field"}
  {
    var e1: map<string, string> := if "limit" in q && Util.ParseInt(q["limit"]).failed then map["limit" := NotValid] else map[];
    var e2 := if "offset" in q && Util.ParseInt(q["offset"]).failed then e1["offset" := NotValid] else e1;
    if OrderFieldRejected(q, orderFields) then e2["order_field" := NotValid] else e2
  }

  /** The outcome of `Paginate` with query `q`. */
  function PaginateResult(q: map<string, string>, orderFields: seq<string>): Paginated
  {
    if ParamsFailed(q, orderFields) then BadRequest(StatusBadRequest, InvalidParams, ParamErrors(q, orderFields))
    else
      var v := Pagination.Validate(Requested(q), orderFields);
      if v.err.Some? then BadRequest(StatusBadRequest, InvalidParams, v.errs) else Paginated(Requested(q), v.errs)
  }

  /** `Paginate(ctx, orderFields...)` on the query values `q`. */
  method Paginate(q: map<string, string>, orderFields: seq<string>) returns (r: Paginated)
    ensures r == PaginateResult(q, orderFields)
  {
    var err: Option<string> := None;
    var errs: map<string, string> := map[];
    var pagination := Pagination.NewPagination();
    if "limit" in q {
      var parsed := Util.ParseInt(q["limit"]);
      pagination := pagination.(limit := parsed.value);
      err := if parsed.failed then Some("strconv.Atoi") else None;
      if parsed.failed {
        errs := errs["limit" := NotValid];
      }
    }
    if "offset" in q {
      var parsed := Util.ParseInt(q["offset"]);
      pagination := pagination.(offset := parsed.value);
      err := if parsed.failed then Some("strconv.ParseInt") else None;
      if parsed.failed {
        errs := errs["offset" := NotValid];
      }
    }
    if "order_by" in q {
      pagination := pagination.(orderBy := q["order_by"]);
    }
    if "order_field" in q {
      pagination := pagination.(orderField := q["order_field"]);
      var found, _ := Util.InArray(q["order_field"], Util.Slice(orderFields));
      if !found {
        err := Some("order field is not valid");
        errs := errs["order_field" := NotValid];
      }
    }
    assert pagination == Requested(q);
    if err.Some? {
      return BadRequest(StatusBadRequest, InvalidParams, errs);
    }
    var v := Pagination.Validate(pagination, orderFields);
    if v.err.Some? {
      return BadRequest(StatusBadRequest, InvalidParams, v.errs);
    }
    return Paginated(pagination, v.errs);
  }

  /** A successful pagination satisfies the struct tags, and its order field is admitted
      by the list, or is the default "id" when the list is empty. */
  lemma PaginatedIsValid(q: map<string, string>, orderFields: seq<string>)
    requires PaginateResult(q, orderFields).Paginated?
    ensures var p := PaginateResult(q, orderFields).pagination;
      Pagination.StructValid(p) && p == Requested(q) &&
      (if orderFields == [] then p.orderField == "id" && "order_field" !in q else p.orderField in orderFields)
    ensures PaginateResult(q, orderFields).errs == map[]
  {
  }

  /** With no parameters the defaults come back whenever they validate. */
  lemma AbsentParamsKeepDefaults(orderFields: seq<string>)
    requires orderFields == [] || "id" in orderFields
    ensures PaginateResult(map[], orderFields) == Paginated(Pagination.NewPagination(), map[])
  {
    Pagination.DefaultsValidate(orderFields);
    assert Requested(map[]) == Pagination.NewPagination();
  }

  /** A rejected order field ends in a 400 whose map marks it. */
  lemma RejectedOrderField(q: map<string, string>, orderFields: seq<string>)
    requires OrderFieldRejected(q, orderFields)
    ensures PaginateResult(q, orderFields).BadRequest?
    ensures PaginateResult(q, orderFields).errs["order_field"] == NotValid
  {
  }

  /** The offset parse overwrites the limit's error: a non-numeric `limit` next to a
      valid `offset` passes the first check, and the limit becomes 0. */
  lemma LimitErrorMasked(offset: int, orderFields: seq<string>)
    requires Util.IsInt64(offset)
    requires orderFields == [] || "id" in orderFields
    ensures var q := map["limit" := "abc", "offset" := Util.FormatInt(offset)];
      !ParamsFailed(q, orderFields) && "limit" in ParamErrors(q, orderFields) &&
      PaginateResult(q, orderFields) == Paginated(Pagination.Pagination(0, offset, "desc", "id"), map[])
  {
    Util.ParseIntExamples();
    Util.ParseFormatInt(offset);
    var q := map["limit" := "abc", "offset" := Util.FormatInt(offset)];
    assert Requested(q) == Pagination.Pagination(0, offset, "desc", "id");
  }

  /** A limit above 40 passes the parameter checks and fails validation. */
  lemma LimitTooLarge(q: map<string, string>, orderFields: seq<string>)
    requires !ParamsFailed(q, orderFields) && "limit" in q && Util.ParseInt(q["limit"]).value > Pagination.MaxLimit
    ensures PaginateResult(q, orderFields).BadRequest?
  {
  }

  /** The pagination test: `limit=20&offset=10` on the post list. */
  lemma LimitTwentyOffsetTen(orderFields: seq<string>)
    requires orderFields == [] || "id" in orderFields
    ensures PaginateResult(map["limit" := "20", "offset" := "10"], orderFields)
      == Paginated(Pagination.Pagination(20, 10, "desc", "id"), map[])
  {
    Util.ParseFormatInt(20);
    Util.ParseFormatInt(10);
    assert Util.FormatInt(20) == "20" && Util.FormatInt(10) == "10";
    var q := map["limit" := "20", "offset" := "10"];
    assert Requested(q) == Pagination.Pagination(20, 10, "desc", "id");
  }
}

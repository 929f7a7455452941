/** database/change.go: comparing a stored record with a requested one field by field,
    producing the list of changes, the changed column names and the named SQL
    parameters, and copying the requested values into the stored record.

    A Go struct is modelled as a sequence of field descriptions (name and struct tags)
    together with a sequence (or array) of field values in the same order. */
module Change {
  import opened Wrappers

  /** `decimal.Decimal`: coefficient times ten to the exponent. */
  datatype Decimal = Decimal(coefficient: int, exponent: int)

  const ZeroDecimal: Decimal := Decimal(0, 0)

  /** A `time.Time`: its instant and the text its `String` method renders. Two times
      compare equal with `==` exactly when both agree. */
  datatype Instant = Instant(stamp: int, text: string)

  /** The value of one struct field, by the field's Go type. `Other` stands for every
      type `getChanges` does not handle (other structs, slices, pointers, ...). */
  datatype Value =
    | ZeroString(s: string, valid: bool)
    | ZeroInt(i: int, valid: bool)
    | ZeroBool(b: bool, valid: bool)
    | NullDecimal(d: Decimal, valid: bool)
    | ZeroTime(t: Instant, valid: bool)
    | TimeValue(t: Instant)
    | StringValue(s: string)
    | Int64Value(i: int)
    | IntValue(i: int)
    | BoolValue(b: bool)
    | Other(payload: string)

  /** Two values of the same Go type. */
  predicate SameKind(a: Value, b: Value)
  {
    match a
    case ZeroString(_, _) => b.ZeroString?
    case ZeroInt(_, _) => b.ZeroInt?
    case ZeroBool(_, _) => b.ZeroBool?
    case NullDecimal(_, _) => b.NullDecimal?
    case ZeroTime(_, _) => b.ZeroTime?
    case TimeValue(_) => b.TimeValue?
    case StringValue(_) => b.StringValue?
    case Int64Value(_) => b.Int64Value?
    case IntValue(_) => b.IntValue?
    case BoolValue(_) => b.BoolValue?
    case Other(_) => b.Other?
  }

  /** The kinds of field that produce a change on every call, changed or not. */
  predicate AlwaysEmits(v: Value)
  {
    v.ZeroBool? || v.NullDecimal? || v.BoolValue?
  }

  /** A struct field: its Go name, its `db` tag ("" when absent) and its `unique` and
      `foreign` tags (`Lookup` results). */
  datatype Field = Field(name: string, db: string, unique: Option<string>, foreign: Option<string>)

  /** `Change`: Key is the Go field name, Name its column. */
  datatype Change = Change(key: string, name: string, str: string, integer: int, boolean: bool, decimal: Decimal)

  /** A value stored in the named-parameter map (`map[string]interface{}`). */
  datatype Param = PStr(s: string) | PInt(i: int) | PBool(b: bool) | PDec(d: Decimal)

  /** Field names are unique within a Go struct. */
  predicate UniqueNames(fields: seq<Field>)
  {
    forall i, j :: 0 <= i < j < |fields| ==> fields[i].name != fields[j].name
  }

  /** `reflect.Type.FieldByName`: the index of the field with this name. */
  function FindField(fields: seq<Field>, name: string): (r: Option<nat>)
    ensures r.Some? ==> r.value < |fields| && fields[r.value].name == name
    ensures r.Some? ==> forall j :: 0 <= j < r.value ==> fields[j].name != name
    ensures r.None? <==> forall j :: 0 <= j < |fields| ==> fields[j].name != name
  {
    if |fields| == 0 then None
    else if fields[0].name == name then Some(0)
    else match FindField(fields[1..], name)
      case None => None
      case Some(j) => Some(j + 1)
  }

  /** Whether `getChanges` looks at a field at all: it is not the embedded
      `DBInterface`, it is not `ID`, and the requested struct has a field of that name
      whose `db` tag is non-empty. With `skipIgnored`, a `db:"-"` tag on the requested
      field excludes it too (the corrected guard; see `DashColumnAsWritten`). */
  predicate Considered(skipIgnored: bool, f: Field, reqFields: seq<Field>)
  {
    f.name != "DBInterface" && Guard(skipIgnored, f, reqFields)
  }

  /** The guard at the head of `getChanges` itself (the `DBInterface` test is the caller's). */
  predicate Guard(skipIgnored: bool, f: Field, reqFields: seq<Field>)
  {
    f.name != "ID" &&
    match FindField(reqFields, f.name)
    case None => false
    case Some(j) => reqFields[j].db != "" && (!skipIgnored || reqFields[j].db != "-")
  }

  /** What handling one field does: the change it appends (its column is appended to
      the keys at the same time), the parameter it writes and the field's new value. */
  datatype Step = Step(change: Option<Change>, param: Option<(string, Param)>, value: Value)

  function StrChange(f: Field, s: string): Change { Change(f.name, f.db, s, 0, false, ZeroDecimal) }
  function IntChange(f: Field, i: int): Change { Change(f.name, f.db, "", i, false, ZeroDecimal) }
  function BoolChange(f: Field, b: bool): Change { Change(f.name, f.db, "", 0, b, ZeroDecimal) }
  function DecChange(f: Field, d: Decimal): Change { Change(f.name, f.db, "", 0, false, d) }

  /** The value-level effect of `getChanges` on one considered field, by its type. */
  function FieldStep(typ: string, f: Field, cur: Value, req: Value): (s: Step)
    requires SameKind(cur, req)
    ensures SameKind(cur, s.value)
    ensures s.change.Some? ==> s.change.value.key == f.name && s.change.value.name == f.db
    ensures s.change.Some? ==> s.param.Some? && s.param.value.0 == f.db
    ensures s.change.None? && s.param.Some? ==> s.param.value.0 == ""
  {
    match cur
    case ZeroString(s, _) =>
      if s != req.s && req.s != "" then Step(Some(StrChange(f, req.s)), Some((f.db, PStr(req.s))), req)
      else Step(None, None, cur)
    case ZeroInt(i, valid) =>
      if i != req.i && req.i != 0 then
        // only the Int64 part is copied; Valid keeps its old value
        Step(Some(IntChange(f, req.i)), Some((f.db, PInt(req.i))), ZeroInt(req.i, valid))
      else if typ == "insert" then
        // the change record is still empty here, so the parameter is written under ""
        Step(None, Some(("", PInt(req.i))), req)
      else Step(None, None, cur)
    case ZeroBool(_, _) =>
      // the field is "set" to itself, so the stored value does not change
      Step(Some(BoolChange(f, req.b)), Some((f.db, PBool(req.b))), cur)
    case NullDecimal(_, _) =>
      Step(Some(DecChange(f, req.d)), Some((f.db, PDec(req.d))), req)
    case ZeroTime(_, _) =>
      if cur != req then Step(Some(StrChange(f, req.t.text)), Some((f.db, PStr(req.t.text))), req)
      else Step(None, None, cur)
    case TimeValue(_) =>
      if cur != req then Step(Some(StrChange(f, req.t.text)), Some((f.db, PStr(req.t.text))), req)
      else Step(None, None, cur)
    case StringValue(s) =>
      if s != req.s then Step(Some(StrChange(f, req.s)), Some((f.db, PStr(req.s))), req)
      else Step(None, None, cur)
    case Int64Value(i) =>
      if i != req.i then Step(Some(IntChange(f, req.i)), Some((f.db, PInt(req.i))), req)
      else Step(None, None, cur)
    case IntValue(i) =>
      if i != req.i then Step(Some(IntChange(f, req.i)), Some((f.db, PInt(req.i))), req)
      else Step(None, None, cur)
    case BoolValue(_) =>
      Step(Some(BoolChange(f, req.b)), Some((f.db, PBool(req.b))), req)
    case Other(_) =>
      Step(None, None, cur)
  }

  /** The stored and requested records fit together: lengths agree, names are unique
      and a field the requested struct shares by name has the same type. */
  predicate Compatible(fields: seq<Field>, vals: seq<Value>, reqFields: seq<Field>, req: seq<Value>)
  {
    |fields| == |vals| && |reqFields| == |req| && UniqueNames(reqFields) &&
    forall i :: 0 <= i < |fields| ==>
      match FindField(reqFields, fields[i].name)
      case None => true
      case Some(j) => SameKind(vals[i], req[j])
  }

  /** Replacing a requested value by one of its kind keeps the records fitting. */
  lemma CompatibleWithRequested(fields: seq<Field>, vals: seq<Value>, reqFields: seq<Field>, req: seq<Value>,
                                j: nat, v: Value)
    requires Compatible(fields, vals, reqFields, req) && j < |req| && SameKind(req[j], v)
    ensures Compatible(fields, vals, reqFields, req[j := v])
  {
    forall i | 0 <= i < |fields|
      ensures match FindField(reqFields, fields[i].name)
        case None => true
        case Some(k) => SameKind(vals[i], req[j := v][k])
    {
      var found := FindField(reqFields, fields[i].name);
      if found.Some? && found.value == j {
        KindShared(req[j], vals[i], v);
      }
    }
  }

  /** The accumulated result after the first `n` fields. */
  datatype Outcome = Outcome(changes: seq<Change>, keys: seq<string>, params: map<string, Param>, values: seq<Value>)

  function Put(params: map<string, Param>, p: Option<(string, Param)>): (r: map<string, Param>)
    ensures p.None? ==> r == params
    ensures p.Some? ==> r.Keys == params.Keys + {p.value.0} && r[p.value.0] == p.value.1
    ensures p.Some? ==> forall k :: k in params && k != p.value.0 ==> r[k] == params[k]
  {
    if p.Some? then params[p.value.0 := p.value.1] else params
  }

  /** The step for field `i`, which must be considered. */
  function StepAt(typ: string, skipIgnored: bool, fields: seq<Field>, vals: seq<Value>,
                  reqFields: seq<Field>, req: seq<Value>, i: nat): Step
    requires Compatible(fields, vals, reqFields, req) && i < |fields|
    requires Considered(skipIgnored, fields[i], reqFields)
  {
    var j := FindField(reqFields, fields[i].name).value;
    FieldStep(typ, fields[i], vals[i], req[j])
  }

  /** The loop of `GetChanges` over the first `n` fields of the stored record. */
  function Run(typ: string, skipIgnored: bool, fields: seq<Field>, vals: seq<Value>,
               reqFields: seq<Field>, req: seq<Value>, n: nat): (o: Outcome)
    requires Compatible(fields, vals, reqFields, req) && n <= |fields|
    ensures |o.values| == n
  {
    if n == 0 then Outcome([], [], map[], [])
    else
      var o := Run(typ, skipIgnored, fields, vals, reqFields, req, n - 1);
      if Considered(skipIgnored, fields[n - 1], reqFields) then
        var s := StepAt(typ, skipIgnored, fields, vals, reqFields, req, n - 1);
        if s.change.Some? then
          Outcome(o.changes + [s.change.value], o.keys + [s.change.value.name], Put(o.params, s.param), o.values + [s.value])
        else
          Outcome(o.changes, o.keys, Put(o.params, s.param), o.values + [s.value])
      else Outcome(o.changes, o.keys, o.params, o.values + [vals[n - 1]])
  }

  /** The final clean-up: entries under the empty key or holding the empty string go. */
  function Filter(params: map<string, Param>): (r: map<string, Param>)
    ensures forall k :: k in r <==> k in params && k != "" && params[k] != PStr("")
    ensures forall k :: k in r ==> r[k] == params[k]
  {
    map k | k in params && k != "" && params[k] != PStr("") :: params[k]
  }

  /** `GetChanges(m, c, typs...)`: nothing at all without a type argument, otherwise the
      loop over every field followed by the clean-up. */
  function Outcomes(typs: seq<string>, skipIgnored: bool, fields: seq<Field>, vals: seq<Value>,
                    reqFields: seq<Field>, req: seq<Value>): (o: Outcome)
    requires Compatible(fields, vals, reqFields, req)
    ensures |o.values| == |vals|
  {
    if |typs| == 0 then Outcome([], [], map[], vals)
    else
      var o := Run(typs[0], skipIgnored, fields, vals, reqFields, req, |fields|);
      Outcome(o.changes, o.keys, Filter(o.params), o.values)
  }

  // ---------------------------------------------------------------------------
  // The imperative code

  /** `getChanges` for field `i` of the stored record `m`. */
  method GetFieldChanges(typ: string, reqFields: seq<Field>, field: Field, m: array<Value>, i: nat,
                         c: seq<Value>, changes0: seq<Change>, keys0: seq<string>,
                         namedParams0: map<string, Param>)
    returns (changes: seq<Change>, keys: seq<string>, namedParams: map<string, Param>)
    requires i < m.Length && |reqFields| == |c|
    requires match FindField(reqFields, field.name)
      case None => true
      case Some(j) => SameKind(m[i], c[j])
    modifies m
    ensures Guard(true, field, reqFields) ==>
      var s := FieldStep(typ, field, old(m[i]), c[FindField(reqFields, field.name).value]);
      && changes == changes0 + (if s.change.Some? then [s.change.value] else [])
      && keys == keys0 + (if s.change.Some? then [s.change.value.name] else [])
      && namedParams == Put(namedParams0, s.param)
      && m[..] == old(m[..])[i := s.value]
    ensures !Guard(true, field, reqFields) ==>
      changes == changes0 && keys == keys0 && namedParams == namedParams0 && m[..] == old(m[..])
  {
    changes, keys, namedParams := changes0, keys0, namedParams0;
    var found := FindField(reqFields, field.name);
    if found.None? || reqFields[found.value].db == "" || reqFields[found.value].db == "-" || field.name == "ID" {
      return;
    }
    var val := m[i];
    var val2 := c[found.value];
    match val {
      case ZeroString(s, _) =>
        if s != val2.s && val2.s != "" {
          var change := StrChange(field, val2.s);
          changes := changes + [change];
          keys := keys + [change.name];
          namedParams := namedParams[change.name := PStr(change.str)];
          m[i] := val2;
        }
      case ZeroInt(n, valid) =>
        if n != val2.i && val2.i != 0 {
          var change := IntChange(field, val2.i);
          changes := changes + [change];
          keys := keys + [change.name];
          namedParams := namedParams[change.name := PInt(change.integer)];
          m[i] := ZeroInt(val2.i, valid);
        } else if typ == "insert" {
          namedParams := namedParams["" := PInt(val2.i)];
          m[i] := val2;
        }
      case ZeroBool(_, _) =>
        var change := BoolChange(field, val2.b);
        changes := changes + [change];
        keys := keys + [change.name];
        namedParams := namedParams[change.name := PBool(change.boolean)];
      case NullDecimal(_, _) =>
        var change := DecChange(field, val2.d);
        changes := changes + [change];
        keys := keys + [change.name];
        namedParams := namedParams[change.name := PDec(change.decimal)];
        m[i] := val2;
      case ZeroTime(_, _) =>
        if val != val2 {
          var change := StrChange(field, val2.t.text);
          changes := changes + [change];
          keys := keys + [change.name];
          namedParams := namedParams[change.name := PStr(change.str)];
          m[i] := val2;
        }
      case TimeValue(_) =>
        if val != val2 {
          var change := StrChange(field, val2.t.text);
          changes := changes + [change];
          keys := keys + [change.name];
          namedParams := namedParams[change.name := PStr(change.str)];
          m[i] := val2;
        }
      case StringValue(s) =>
        if s != val2.s {
          var change := StrChange(field, val2.s);
          changes := changes + [change];
          keys := keys + [change.name];
          namedParams := namedParams[change.name := PStr(change.str)];
          m[i] := val2;
        }
      case Int64Value(n) =>
        if n != val2.i {
          var change := IntChange(field, val2.i);
          changes := changes + [change];
          keys := keys + [change.name];
          namedParams := namedParams[change.name := PInt(change.integer)];
          m[i] := val2;
        }
      case IntValue(n) =>
        if n != val2.i {
          var change := IntChange(field, val2.i);
          changes := changes + [change];
          keys := keys + [change.name];
          namedParams := namedParams[change.name := PInt(change.integer)];
          m[i] := val2;
        }
      case BoolValue(_) =>
        var change := BoolChange(field, val2.b);
        changes := changes + [change];
        keys := keys + [change.name];
        namedParams := namedParams[change.name := PBool(change.boolean)];
        m[i] := val2;
      case Other(_) =>
    }
  }

  /** `GetChanges(m, c, typs...)` on the stored record `m` (updated in place) and the
      requested record `c`. */
  method GetChanges(fields: seq<Field>, m: array<Value>, reqFields: seq<Field>, c: seq<Value>,
                    typs: seq<string>)
    returns (changes: seq<Change>, keys: seq<string>, namedParams: map<string, Param>)
    requires Compatible(fields, m[..], reqFields, c)
    modifies m
    ensures var o := Outcomes(typs, true, fields, old(m[..]), reqFields, c);
      changes == o.changes && keys == o.keys && namedParams == o.params && m[..] == o.values
  {
    changes, keys, namedParams := [], [], map[];
    if |typs| <= 0 {
      return;
    }
    var typ := typs[0];
    ghost var vals := m[..];
    var i := 0;
    while i < |fields|
      invariant 0 <= i <= |fields| && m.Length == |fields|
      invariant var o := Run(typ, true, fields, vals, reqFields, c, i);
        changes == o.changes && keys == o.keys && namedParams == o.params && m[..i] == o.values
      invariant forall k :: i <= k < |fields| ==> m[k] == vals[k]
    {
      var field := fields[i];
      ghost var before := m[..];
      if field.name != "DBInterface" {
        changes, keys, namedParams := GetFieldChanges(typ, reqFields, field, m, i, c, changes, keys, namedParams);
      }
      assert m[..i] == before[..i];
      assert m[..i + 1] == m[..i] + [m[i]];
      i := i + 1;
    }
    assert m[..] == m[..i];
    namedParams := FilterParams(namedParams);
  }

  /** The clean-up loop of `GetChanges`, deleting entries while ranging over the map. */
  method FilterParams(params: map<string, Param>) returns (r: map<string, Param>)
    ensures r == Filter(params)
  {
    r := params;
    var remaining := params.Keys;
    while remaining != {}
      invariant remaining <= params.Keys
      invariant forall k :: k in r <==> k in params && (k in remaining || (k != "" && params[k] != PStr("")))
      invariant forall k :: k in r ==> r[k] == params[k]
      decreases |remaining|
    {
      var k :| k in remaining;
      if k == "" || params[k] == PStr("") {
        r := r - {k};
      }
      remaining := remaining - {k};
    }
    assert r == Filter(params);
  }

  // ---------------------------------------------------------------------------
  // Properties

  /** Keys and changes are appended together: the i-th key is the i-th change's column. */
  lemma {:induction false} KeysFollowChanges(typ: string, skip: bool, fields: seq<Field>, vals: seq<Value>,
                                             reqFields: seq<Field>, req: seq<Value>, n: nat)
    requires Compatible(fields, vals, reqFields, req) && n <= |fields|
    ensures var o := Run(typ, skip, fields, vals, reqFields, req, n);
      |o.keys| == |o.changes| && forall i :: 0 <= i < |o.keys| ==> o.keys[i] == o.changes[i].name
  {
    if n > 0 {
      KeysFollowChanges(typ, skip, fields, vals, reqFields, req, n - 1);
    }
  }

  /** Every parameter is written under a changed column or under the empty key. */
  lemma {:induction false} ParamsUnderKeys(typ: string, skip: bool, fields: seq<Field>, vals: seq<Value>,
                                           reqFields: seq<Field>, req: seq<Value>, n: nat)
    requires Compatible(fields, vals, reqFields, req) && n <= |fields|
    ensures forall k :: k in Run(typ, skip, fields, vals, reqFields, req, n).params ==>
      k == "" || k in Run(typ, skip, fields, vals, reqFields, req, n).keys
  {
    if n > 0 {
      ParamsUnderKeys(typ, skip, fields, vals, reqFields, req, n - 1);
      var p := Run(typ, skip, fields, vals, reqFields, req, n - 1);
      assert forall k :: k in p.params ==> k == "" || k in p.keys;
      var o := Run(typ, skip, fields, vals, reqFields, req, n);
      if Considered(skip, fields[n - 1], reqFields) {
        var s := StepAt(typ, skip, fields, vals, reqFields, req, n - 1);
        assert o.params == Put(p.params, s.param);
        if s.change.Some? {
          assert o.keys == p.keys + [s.change.value.name];
          assert s.param.value.0 == s.change.value.name;
        } else {
          assert o.keys == p.keys;
        }
        forall k | k in o.params ensures k == "" || k in o.keys {
          if k !in p.params {
            assert k == s.param.value.0;
          } else {
            assert k == "" || k in p.keys;
          }
        }
      } else {
        assert o.params == p.params && o.keys == p.keys;
      }
    }
  }

  /** After `GetChanges` every named parameter is a changed column, none is the empty
      key and none holds the empty string; changes and keys correspond one to one. */
  lemma NamedParamsAreChangedColumns(typs: seq<string>, skip: bool, fields: seq<Field>, vals: seq<Value>,
                                     reqFields: seq<Field>, req: seq<Value>)
    requires Compatible(fields, vals, reqFields, req)
    ensures var o := Outcomes(typs, skip, fields, vals, reqFields, req);
      && (forall k :: k in o.params ==> k != "" && k in o.keys && o.params[k] != PStr(""))
      && |o.keys| == |o.changes|
      && (forall i :: 0 <= i < |o.keys| ==> o.keys[i] == o.changes[i].name)
  {
    if |typs| > 0 {
      ParamsUnderKeys(typs[0], skip, fields, vals, reqFields, req, |fields|);
      KeysFollowChanges(typs[0], skip, fields, vals, reqFields, req, |fields|);
    }
  }

  /** The value field `i` holds after the run. */
  function ValueAfter(typ: string, skip: bool, fields: seq<Field>, vals: seq<Value>,
                      reqFields: seq<Field>, req: seq<Value>, i: nat): Value
    requires Compatible(fields, vals, reqFields, req) && i < |fields|
  {
    if Considered(skip, fields[i], reqFields) then StepAt(typ, skip, fields, vals, reqFields, req, i).value
    else vals[i]
  }

  /** The new value of each field: the step's value where the field is considered,
      the old value elsewhere. */
  lemma {:induction false} RunValues(typ: string, skip: bool, fields: seq<Field>, vals: seq<Value>,
                                     reqFields: seq<Field>, req: seq<Value>, n: nat)
    requires Compatible(fields, vals, reqFields, req) && n <= |fields|
    ensures var o := Run(typ, skip, fields, vals, reqFields, req, n);
      forall i :: 0 <= i < n ==> o.values[i] == ValueAfter(typ, skip, fields, vals, reqFields, req, i)
  {
    if n > 0 {
      RunValues(typ, skip, fields, vals, reqFields, req, n - 1);
      var prev := Run(typ, skip, fields, vals, reqFields, req, n - 1).values;
      var o := Run(typ, skip, fields, vals, reqFields, req, n).values;
      assert o == prev + [ValueAfter(typ, skip, fields, vals, reqFields, req, n - 1)];
      forall i | 0 <= i < n
        ensures o[i] == ValueAfter(typ, skip, fields, vals, reqFields, req, i)
      {
        if i < n - 1 {
          assert o[i] == prev[i];
        }
      }
    }
  }


  /** A step on a field that already holds what a step produced changes nothing more
      and reports a change only for the kinds that always report one. */
  lemma StepSettles(typ: string, f: Field, cur: Value, req: Value)
    requires SameKind(cur, req) && typ != "insert"
    ensures var v := FieldStep(typ, f, cur, req).value;
      var s := FieldStep(typ, f, v, req);
      s.value == v && (s.change.Some? <==> AlwaysEmits(cur))
  {
    match cur {
      case ZeroString(_, _) =>
      case ZeroInt(_, _) =>
      case ZeroBool(_, _) =>
      case NullDecimal(_, _) =>
      case ZeroTime(_, _) =>
      case TimeValue(_) =>
      case StringValue(_) =>
      case Int64Value(_) =>
      case IntValue(_) =>
      case BoolValue(_) =>
      case Other(_) =>
    }
  }

  /** Comparing a record with itself changes no value and reports a change exactly for
      the kinds that always report one. */
  lemma StepOnSelf(typ: string, f: Field, v: Value)
    ensures var s := FieldStep(typ, f, v, v);
      s.value == v && (s.change.Some? <==> AlwaysEmits(v))
  {
  }

  /** The number of considered fields of an always-reporting kind among the first `n`. */
  function AlwaysEmitCount(skip: bool, fields: seq<Field>, vals: seq<Value>, reqFields: seq<Field>, n: nat): nat
    requires n <= |fields| == |vals|
  {
    if n == 0 then 0
    else AlwaysEmitCount(skip, fields, vals, reqFields, n - 1)
         + (if Considered(skip, fields[n - 1], reqFields) && AlwaysEmits(vals[n - 1]) then 1 else 0)
  }

  /** Steps that keep every value and report only always-reporting kinds. */
  predicate QuietFields(typ: string, skip: bool, fields: seq<Field>, vals: seq<Value>,
                        reqFields: seq<Field>, req: seq<Value>)
    requires Compatible(fields, vals, reqFields, req)
  {
    forall i :: 0 <= i < |fields| && Considered(skip, fields[i], reqFields) ==>
      var s := StepAt(typ, skip, fields, vals, reqFields, req, i);
      s.value == vals[i] && (s.change.Some? <==> AlwaysEmits(vals[i]))
  }

  /** One field of a quiet record. */
  lemma QuietAt(typ: string, skip: bool, fields: seq<Field>, vals: seq<Value>,
                reqFields: seq<Field>, req: seq<Value>, i: nat)
    requires Compatible(fields, vals, reqFields, req) && i < |fields|
    requires QuietFields(typ, skip, fields, vals, reqFields, req) && Considered(skip, fields[i], reqFields)
    ensures var s := StepAt(typ, skip, fields, vals, reqFields, req, i);
      s.value == vals[i] && (s.change.Some? <==> AlwaysEmits(vals[i]))
  {
  }

  lemma {:induction false} QuietRun(typ: string, skip: bool, fields: seq<Field>, vals: seq<Value>,
                                    reqFields: seq<Field>, req: seq<Value>, n: nat)
    requires Compatible(fields, vals, reqFields, req) && n <= |fields|
    requires QuietFields(typ, skip, fields, vals, reqFields, req)
    ensures var o := Run(typ, skip, fields, vals, reqFields, req, n);
      o.values == vals[..n] && |o.changes| == AlwaysEmitCount(skip, fields, vals, reqFields, n)
  {
    if n > 0 {
      QuietRun(typ, skip, fields, vals, reqFields, req, n - 1);
      var prev := Run(typ, skip, fields, vals, reqFields, req, n - 1);
      var o := Run(typ, skip, fields, vals, reqFields, req, n);
      assert vals[..n] == vals[..n - 1] + [vals[n - 1]];
      if Considered(skip, fields[n - 1], reqFields) {
        var st := StepAt(typ, skip, fields, vals, reqFields, req, n - 1);
        QuietAt(typ, skip, fields, vals, reqFields, req, n - 1);
        assert o.values == prev.values + [st.value];
        assert |o.changes| == |prev.changes| + (if st.change.Some? then 1 else 0);
      } else {
        assert o.values == prev.values + [vals[n - 1]] && o.changes == prev.changes;
      }
    }
  }

  /** `GetChanges` of a record against an identical copy changes no stored value and
      reports exactly the boolean and decimal fields it considers. */
  lemma CompareWithSelf(typs: seq<string>, skip: bool, fields: seq<Field>, vals: seq<Value>)
    requires Compatible(fields, vals, fields, vals) && UniqueNames(fields)
    ensures var o := Outcomes(typs, skip, fields, vals, fields, vals);
      o.values == vals &&
      |o.changes| == (if |typs| == 0 then 0 else AlwaysEmitCount(skip, fields, vals, fields, |fields|))
  {
    if |typs| > 0 {
      forall i | 0 <= i < |fields| && Considered(skip, fields[i], fields)
        ensures var s := StepAt(typs[0], skip, fields, vals, fields, vals, i);
          s.value == vals[i] && (s.change.Some? <==> AlwaysEmits(vals[i]))
      {
        var j := FindField(fields, fields[i].name).value;
        assert j == i;
        StepOnSelf(typs[0], fields[i], vals[i]);
      }
      QuietRun(typs[0], skip, fields, vals, fields, vals, |fields|);
      assert vals[..|fields|] == vals;
    }
  }

  /** The first run keeps every field's type. */
  lemma FirstRunCompatible(typ: string, skip: bool, fields: seq<Field>, vals: seq<Value>,
                           reqFields: seq<Field>, req: seq<Value>)
    requires Compatible(fields, vals, reqFields, req)
    ensures Compatible(fields, Run(typ, skip, fields, vals, reqFields, req, |fields|).values, reqFields, req)
  {
    var first := Run(typ, skip, fields, vals, reqFields, req, |fields|).values;
    RunValues(typ, skip, fields, vals, reqFields, req, |fields|);
    forall i | 0 <= i < |fields|
      ensures match FindField(reqFields, fields[i].name)
        case None => true
        case Some(j) => SameKind(first[i], req[j])
    {
      var found := FindField(reqFields, fields[i].name);
      if found.Some? {
        var j := found.value;
        if Considered(skip, fields[i], reqFields) {
          var st := StepAt(typ, skip, fields, vals, reqFields, req, i);
          assert first[i] == st.value;
          KindShared(vals[i], st.value, req[j]);
        } else {
          assert first[i] == vals[i];
        }
      }
    }
  }

  /** Two values of one value's kind are of the same kind. */
  lemma KindShared(a: Value, b: Value, c: Value)
    requires SameKind(a, b) && SameKind(a, c)
    ensures SameKind(b, c)
  {
  }

  lemma FirstRunQuiet(typ: string, skip: bool, fields: seq<Field>, vals: seq<Value>,
                      reqFields: seq<Field>, req: seq<Value>)
    requires Compatible(fields, vals, reqFields, req) && typ != "insert"
    ensures var first := Run(typ, skip, fields, vals, reqFields, req, |fields|).values;
      Compatible(fields, first, reqFields, req) &&
      QuietFields(typ, skip, fields, first, reqFields, req)
  {
    var first := Run(typ, skip, fields, vals, reqFields, req, |fields|).values;
    FirstRunCompatible(typ, skip, fields, vals, reqFields, req);
    RunValues(typ, skip, fields, vals, reqFields, req, |fields|);
    forall i | 0 <= i < |fields| && Considered(skip, fields[i], reqFields)
      ensures var s := StepAt(typ, skip, fields, first, reqFields, req, i);
        s.value == first[i] && (s.change.Some? <==> AlwaysEmits(first[i]))
    {
      var j := FindField(reqFields, fields[i].name).value;
      StepSettles(typ, fields[i], vals[i], req[j]);
    }
  }

  /** Outside an insert, running `GetChanges` a second time with the same request
      changes no stored value and reports exactly the boolean and decimal fields it
      considers. (On an insert a nullable integer's Valid flag is only copied on the
      second run, see `InsertCopiesValidLate`.) */
  lemma SecondRunSettles(typ: string, skip: bool, fields: seq<Field>, vals: seq<Value>,
                         reqFields: seq<Field>, req: seq<Value>)
    requires Compatible(fields, vals, reqFields, req) && typ != "insert"
    ensures var first := Run(typ, skip, fields, vals, reqFields, req, |fields|).values;
      Compatible(fields, first, reqFields, req) &&
      var second := Run(typ, skip, fields, first, reqFields, req, |fields|);
      second.values == first &&
      |second.changes| == AlwaysEmitCount(skip, fields, first, reqFields, |fields|)
  {
    var first := Run(typ, skip, fields, vals, reqFields, req, |fields|).values;
    FirstRunQuiet(typ, skip, fields, vals, reqFields, req);
    QuietRun(typ, skip, fields, first, reqFields, req, |fields|);
    assert first[..|fields|] == first;
  }

  /** On an insert a changed nullable integer keeps its old Valid flag, and only a
      second run copies the requested one. */
  lemma InsertCopiesValidLate(f: Field)
    ensures var first := FieldStep("insert", f, ZeroInt(0, false), ZeroInt(7, true));
      first.value == ZeroInt(7, false) &&
      FieldStep("insert", f, first.value, ZeroInt(7, true)) == Step(None, Some(("", PInt(7))), ZeroInt(7, true))
  {
  }

  /** A field that is not considered produces nothing and keeps its value. */
  lemma {:induction false} IgnoredFieldSilent(typ: string, skip: bool, fields: seq<Field>, vals: seq<Value>,
                                              reqFields: seq<Field>, req: seq<Value>, n: nat)
    requires Compatible(fields, vals, reqFields, req) && 0 < n <= |fields|
    requires !Considered(skip, fields[n - 1], reqFields)
    ensures var o := Run(typ, skip, fields, vals, reqFields, req, n);
      var p := Run(typ, skip, fields, vals, reqFields, req, n - 1);
      o.changes == p.changes && o.keys == p.keys && o.params == p.params && o.values[n - 1] == vals[n - 1]
  {
  }

  /** A field of a plain comparable kind (string, integer, time) reports one change
      exactly when its stored and requested values differ, with the requested value. */
  lemma PlainFieldChangesIffDiffers(typ: string, f: Field, cur: Value, req: Value)
    requires SameKind(cur, req) && (cur.StringValue? || cur.Int64Value? || cur.IntValue? || cur.TimeValue?)
    ensures var s := FieldStep(typ, f, cur, req);
      (s.change.Some? <==> cur != req) && s.value == req &&
      (s.change.Some? ==> s.param.value.1 == (if cur.StringValue? then PStr(req.s)
                                              else if cur.TimeValue? then PStr(req.t.text)
                                              else PInt(req.i)))
  {
  }

  /** A nullable string changes only to a non-empty different string; a nullable
      integer only to a non-zero different integer, keeping its Valid flag; on insert
      an unchanged nullable integer writes its value under the empty key. */
  lemma NullableFieldRules(typ: string, f: Field, cur: Value, req: Value)
    requires SameKind(cur, req) && (cur.ZeroString? || cur.ZeroInt?)
    ensures var s := FieldStep(typ, f, cur, req);
      && (cur.ZeroString? ==> (s.change.Some? <==> cur.s != req.s && req.s != ""))
      && (cur.ZeroInt? ==> (s.change.Some? <==> cur.i != req.i && req.i != 0))
      && (cur.ZeroInt? && s.change.Some? ==> s.value == ZeroInt(req.i, cur.valid))
      && (cur.ZeroInt? && s.change.None? ==>
            (typ == "insert" <==> s.param == Some(("", PInt(req.i)))))
  {
  }

  // ---------------------------------------------------------------------------
  // The `db:"-"` tag

  /** With the guard as written (`skipIgnored` false) a field tagged `db:"-"` is
      compared like any other; when its values differ "-" becomes a column. */
  lemma DashColumnAsWritten(typ: string)
    ensures var fields := [Field("Password", "-", None, None)];
      var o := Run(typ, false, fields, [StringValue("")], fields, [StringValue("secret")], 1);
      o.keys == ["-"]
  {
    var fields := [Field("Password", "-", None, None)];
    assert FindField(fields, "Password") == Some(0);
  }

  /** With the corrected guard, when both records have the same struct type every
      reported column is a real `db` tag: neither empty nor "-". */
  lemma {:induction false} KeysAreColumns(typ: string, fields: seq<Field>, vals: seq<Value>, req: seq<Value>, n: nat)
    requires Compatible(fields, vals, fields, req) && n <= |fields|
    ensures forall k :: k in Run(typ, true, fields, vals, fields, req, n).keys ==>
      k != "" && k != "-" && exists i :: 0 <= i < |fields| && fields[i].db == k
  {
    if n > 0 {
      KeysAreColumns(typ, fields, vals, req, n - 1);
      var prev := Run(typ, true, fields, vals, fields, req, n - 1).keys;
      var keys := Run(typ, true, fields, vals, fields, req, n).keys;
      if Considered(true, fields[n - 1], fields) {
        var j := FindField(fields, fields[n - 1].name).value;
        assert j == n - 1;
        var st := StepAt(typ, true, fields, vals, fields, req, n - 1);
        assert keys == prev + (if st.change.Some? then [st.change.value.name] else []);
      } else {
        assert keys == prev;
      }
    }
  }
}

/** tasks/generate_role_permissions.go: `GenerateRolePermissions` expands the router's
    controller -> role -> methods table into route rows, a route cache entry per new
    controller, and one role permission row per (role, method) of a new controller. */
module RolePermissions {
  import Util
  import AppKeys

  /** A row of the role table. */
  datatype Role = Role(id: int, code: string)

  /** The methods one role may call on a controller. */
  datatype Grant = Grant(role: string, methods: seq<string>)

  /** One controller of the router's table with its grants, in iteration order. */
  datatype RouteEntry = RouteEntry(controller: string, grants: seq<Grant>)

  /** A row of the role permission table. */
  datatype Permission = Permission(roleId: int, controller: string, action: string)

  /** `rolesMap`: each role code to the ID of the last role row with that code. */
  function RolesMap(roles: seq<Role>): map<string, int>
  {
    if roles == [] then map[]
    else RolesMap(roles[..|roles| - 1])[roles[|roles| - 1].code := roles[|roles| - 1].id]
  }

  /** `rolesMap[code]`: 0 for a code with no role row. */
  function RoleIdOf(rolesMap: map<string, int>, code: string): int
  {
    if code in rolesMap then rolesMap[code] else 0
  }

  /** The Redis key of a route, `strings.Join([]string{RedisKeys["routes"], name}, ":")`. */
  function RouteCacheKey(name: string): (key: string)
    ensures key == "routes:" + name
  {
    AppKeys.RedisTableLookups();
    var parts := [AppKeys.GetRedisKey(AppKeys.RedisTable, ["routes"]), name];
    assert Util.Join(parts[1..], ":") == name;
    Util.Join(parts, ":")
  }

  /** The permission rows of one role's methods, in order. */
  function MethodRows(controller: string, roleId: int, methods: seq<string>): seq<Permission>
  {
    if methods == [] then []
    else MethodRows(controller, roleId, methods[..|methods| - 1]) + [Permission(roleId, controller, methods[|methods| - 1])]
  }

  /** The permission rows of a new controller, grant by grant. */
  function GrantRows(controller: string, rolesMap: map<string, int>, grants: seq<Grant>): seq<Permission>
  {
    if grants == [] then []
    else
      var g := grants[|grants| - 1];
      GrantRows(controller, rolesMap, grants[..|grants| - 1]) + MethodRows(controller, RoleIdOf(rolesMap, g.role), g.methods)
  }

  /** The controllers of the table that are not stored routes, in order. */
  function NewNames(table: seq<RouteEntry>, names: seq<string>): seq<string>
  {
    if table == [] then []
    else
      var e := table[|table| - 1];
      NewNames(table[..|table| - 1], names) + (if e.controller in names then [] else [e.controller])
  }

  /** The permission rows of every new controller. */
  function TableRows(table: seq<RouteEntry>, names: seq<string>, rolesMap: map<string, int>): seq<Permission>
  {
    if table == [] then []
    else
      var e := table[|table| - 1];
      TableRows(table[..|table| - 1], names, rolesMap) +
      (if e.controller in names then [] else GrantRows(e.controller, rolesMap, e.grants))
  }

  /** The route cache entries written: each new controller under its key (the route's
      JSON text is represented by its name). */
  function RouteCache(table: seq<RouteEntry>, names: seq<string>): map<string, string>
  {
    if table == [] then map[]
    else
      var e := table[|table| - 1];
      var prev := RouteCache(table[..|table| - 1], names);
      if e.controller in names then prev else prev[RouteCacheKey(e.controller) := e.controller]
  }

  /** No row of `rows` is a failing insert. */
  predicate Free(rows: seq<Permission>, fails: set<Permission>)
  {
    forall p :: p in rows ==> p !in fails
  }

  /** The rows a sequence of inserts writes before the first one that fails (all of
      them when none fails). */
  function Written(rows: seq<Permission>, fails: set<Permission>): seq<Permission>
  {
    if rows == [] || rows[0] in fails then [] else [rows[0]] + Written(rows[1..], fails)
  }

  /** No insert the run would issue fails. */
  predicate NoFailures(table: seq<RouteEntry>, names: seq<string>, rolesMap: map<string, int>,
                       routeFails: set<string>, permissionFails: set<Permission>)
  {
    (forall k :: k in NewNames(table, names) ==> k !in routeFails) &&
    (forall p :: p in TableRows(table, names, rolesMap) ==> p !in permissionFails)
  }

  /** The loop that builds `rolesMap`. */
  method BuildRolesMap(roles: seq<Role>) returns (rolesMap: map<string, int>)
    ensures rolesMap == RolesMap(roles)
  {
    rolesMap := map[];
    var i := 0;
    while i < |roles|
      invariant 0 <= i <= |roles|
      invariant rolesMap == RolesMap(roles[..i])
    {
      assert roles[..i + 1][..i] == roles[..i];
      rolesMap := rolesMap[roles[i].code := roles[i].id];
      i := i + 1;
    }
    assert roles[..i] == roles;
  }

  /** The route table, the role permission table and the cache the task writes to. An
      insert whose route name is in `routeFails`, or whose row is in `permissionFails`,
      fails and the task panics. */
  class Store {
    var routes: seq<string>
    var permissions: seq<Permission>
    var cache: map<string, string>

    constructor (routes0: seq<string>, permissions0: seq<Permission>, cache0: map<string, string>)
      ensures routes == routes0 && permissions == permissions0 && cache == cache0
    {
      routes := routes0;
      permissions := permissions0;
      cache := cache0;
    }

    /** The innermost loop: one permission insert per method of a role. */
    method InsertMethodRows(controller: string, roleId: int, methods: seq<string>, permissionFails: set<Permission>)
      returns (panicked: bool)
      modifies this`permissions
      ensures !panicked <==> forall p :: p in MethodRows(controller, roleId, methods) ==> p !in permissionFails
      ensures !panicked ==> permissions == old(permissions) + MethodRows(controller, roleId, methods)
      ensures permissions == old(permissions) + Written(MethodRows(controller, roleId, methods), permissionFails)
      ensures old(permissions) <= permissions
    {
      var l := 0;
      while l < |methods|
        invariant 0 <= l <= |methods|
        invariant permissions == old(permissions) + MethodRows(controller, roleId, methods[..l])
        invariant forall p :: p in MethodRows(controller, roleId, methods[..l]) ==> p !in permissionFails
      {
        assert methods[..l + 1][..l] == methods[..l];
        var p := Permission(roleId, controller, methods[l]);
        if p in permissionFails {
          MethodRowsMembers(controller, roleId, methods);
          assert MethodRows(controller, roleId, methods)[l] == p;
          WrittenStops(controller, roleId, methods, permissionFails, l);
          return true;
        }
        permissions := permissions + [p];
        l := l + 1;
      }
      assert methods[..l] == methods;
      WrittenAll(MethodRows(controller, roleId, methods), permissionFails);
      return false;
    }

    /** The loop over the roles of a new controller. */
    method InsertGrantRows(controller: string, rolesMap: map<string, int>, grants: seq<Grant>,
                           permissionFails: set<Permission>)
      returns (panicked: bool)
      modifies this`permissions
      ensures !panicked <==> forall p :: p in GrantRows(controller, rolesMap, grants) ==> p !in permissionFails
      ensures !panicked ==> permissions == old(permissions) + GrantRows(controller, rolesMap, grants)
      ensures permissions == old(permissions) + Written(GrantRows(controller, rolesMap, grants), permissionFails)
      ensures old(permissions) <= permissions
    {
      var j := 0;
      while j < |grants|
        invariant 0 <= j <= |grants|
        invariant permissions == old(permissions) + GrantRows(controller, rolesMap, grants[..j])
        invariant forall p :: p in GrantRows(controller, rolesMap, grants[..j]) ==> p !in permissionFails
      {
        var g := grants[j];
        assert grants[..j + 1][..j] == grants[..j];
        assert GrantRows(controller, rolesMap, grants[..j + 1]) ==
          GrantRows(controller, rolesMap, grants[..j]) + MethodRows(controller, RoleIdOf(rolesMap, g.role), g.methods);
        ghost var before := permissions;
        var failed := InsertMethodRows(controller, RoleIdOf(rolesMap, g.role), g.methods, permissionFails);
        if failed {
          GrantFailure(controller, rolesMap, grants, permissionFails, j, old(permissions), before, permissions);
          return true;
        }
        j := j + 1;
      }
      assert grants[..j] == grants;
      WrittenAll(GrantRows(controller, rolesMap, grants), permissionFails);
      return false;
    }

    /** One controller of the table: skipped when it is a stored route, otherwise a
        route insert, its cache entry and its permission inserts. */
    method ProcessEntry(entry: RouteEntry, names: seq<string>, rolesMap: map<string, int>,
                        routeFails: set<string>, permissionFails: set<Permission>)
      returns (panicked: bool)
      modifies this
      ensures !panicked <==> entry.controller !in names ==>
        (entry.controller !in routeFails &&
         forall p :: p in GrantRows(entry.controller, rolesMap, entry.grants) ==> p !in permissionFails)
      ensures !panicked && entry.controller in names ==>
        routes == old(routes) && permissions == old(permissions) && cache == old(cache)
      ensures !panicked && entry.controller !in names ==>
        routes == old(routes) + [entry.controller] &&
        permissions == old(permissions) + GrantRows(entry.controller, rolesMap, entry.grants) &&
        cache == old(cache)[RouteCacheKey(entry.controller) := entry.controller]
      ensures panicked ==> entry.controller !in names
      ensures panicked && entry.controller in routeFails ==>
        routes == old(routes) && permissions == old(permissions) && cache == old(cache)
      ensures panicked && entry.controller !in routeFails ==>
        routes == old(routes) + [entry.controller] &&
        permissions == old(permissions) + Written(GrantRows(entry.controller, rolesMap, entry.grants), permissionFails) &&
        cache == old(cache)[RouteCacheKey(entry.controller) := entry.controller]
      ensures old(routes) <= routes && old(permissions) <= permissions
    {
      var found, _ := Util.InArray(entry.controller, Util.Slice(names));
      if found {
        return false;
      }
      if entry.controller in routeFails {
        return true;
      }
      routes := routes + [entry.controller];
      cache := cache[RouteCacheKey(entry.controller) := entry.controller];
      panicked := InsertGrantRows(entry.controller, rolesMap, entry.grants, permissionFails);
    }

    /** `GenerateRolePermissions(app, args)` over the router table `table` and the role
        rows `roles`; `panicked` says whether an insert failed. */
    method GenerateRolePermissions(table: seq<RouteEntry>, roles: seq<Role>,
                                   routeFails: set<string>, permissionFails: set<Permission>)
      returns (panicked: bool)
      modifies this
      ensures !panicked <==> NoFailures(table, old(routes), RolesMap(roles), routeFails, permissionFails)
      ensures !panicked ==> routes == old(routes) + NewNames(table, old(routes))
      ensures !panicked ==> permissions == old(permissions) + TableRows(table, old(routes), RolesMap(roles))
      ensures !panicked ==> cache == old(cache) + RouteCache(table, old(routes))
      ensures old(routes) <= routes && old(permissions) <= permissions
    {
      var names := routes;
      var rolesMap := BuildRolesMap(roles);
      var i := 0;
      while i < |table|
        invariant 0 <= i <= |table|
        invariant routes == names + NewNames(table[..i], names)
        invariant permissions == old(permissions) + TableRows(table[..i], names, rolesMap)
        invariant cache == old(cache) + RouteCache(table[..i], names)
        invariant NoFailures(table[..i], names, rolesMap, routeFails, permissionFails)
      {
        ghost var (r0, p0, c0) := (routes, permissions, cache);
        var failed := ProcessEntry(table[i], names, rolesMap, routeFails, permissionFails);
        if failed {
          FailureWitness(table, names, rolesMap, routeFails, permissionFails, i);
          return true;
        }
        Step(table, names, rolesMap, routeFails, permissionFails, i, old(permissions), old(cache),
             r0, p0, c0, routes, permissions, cache);
        i := i + 1;
      }
      assert table[..i] == table;
      return false;
    }
  }

  /** The specification functions on a one-entry-longer prefix of the table. */
  lemma Unfold(table: seq<RouteEntry>, names: seq<string>, rolesMap: map<string, int>, i: nat)
    requires i < |table|
    ensures var e := table[i];
      var isNew := e.controller !in names;
      NewNames(table[..i + 1], names) == NewNames(table[..i], names) + (if isNew then [e.controller] else []) &&
      TableRows(table[..i + 1], names, rolesMap) ==
        TableRows(table[..i], names, rolesMap) + (if isNew then GrantRows(e.controller, rolesMap, e.grants) else []) &&
      RouteCache(table[..i + 1], names) ==
        (if isNew then RouteCache(table[..i], names)[RouteCacheKey(e.controller) := e.controller]
         else RouteCache(table[..i], names))
  {
    assert table[..i + 1][..i] == table[..i];
  }

  /** An entry whose inserts do not all succeed is a failure of the whole table. */
  lemma FailureWitness(table: seq<RouteEntry>, names: seq<string>, rolesMap: map<string, int>,
                       routeFails: set<string>, permissionFails: set<Permission>, i: nat)
    requires i < |table|
    requires !(table[i].controller !in names ==> (table[i].controller !in routeFails &&
      forall p :: p in GrantRows(table[i].controller, rolesMap, table[i].grants) ==> p !in permissionFails))
    ensures !NoFailures(table, names, rolesMap, routeFails, permissionFails)
  {
    if table[i].controller in routeFails {
      NewNamesMember(table, names, i);
    } else {
      TableRowsInclude(table, names, rolesMap, i);
    }
  }

  /** One successful iteration of the loop over the table keeps its invariants. */
  lemma Step(table: seq<RouteEntry>, names: seq<string>, rolesMap: map<string, int>,
             routeFails: set<string>, permissionFails: set<Permission>, i: nat,
             basePermissions: seq<Permission>, baseCache: map<string, string>,
             r0: seq<string>, p0: seq<Permission>, c0: map<string, string>,
             r1: seq<string>, p1: seq<Permission>, c1: map<string, string>)
    requires i < |table|
    requires r0 == names + NewNames(table[..i], names)
    requires p0 == basePermissions + TableRows(table[..i], names, rolesMap)
    requires c0 == baseCache + RouteCache(table[..i], names)
    requires NoFailures(table[..i], names, rolesMap, routeFails, permissionFails)
    requires table[i].controller !in names ==> (table[i].controller !in routeFails &&
      forall p :: p in GrantRows(table[i].controller, rolesMap, table[i].grants) ==> p !in permissionFails)
    requires table[i].controller in names ==> r1 == r0 && p1 == p0 && c1 == c0
    requires table[i].controller !in names ==>
      r1 == r0 + [table[i].controller] &&
      p1 == p0 + GrantRows(table[i].controller, rolesMap, table[i].grants) &&
      c1 == c0[RouteCacheKey(table[i].controller) := table[i].controller]
    ensures r1 == names + NewNames(table[..i + 1], names)
    ensures p1 == basePermissions + TableRows(table[..i + 1], names, rolesMap)
    ensures c1 == baseCache + RouteCache(table[..i + 1], names)
    ensures NoFailures(table[..i + 1], names, rolesMap, routeFails, permissionFails)
  {
    Unfold(table, names, rolesMap, i);
    NoFailuresStep(table, names, rolesMap, routeFails, permissionFails, i);
    var e := table[i];
    var isNew := e.controller !in names;
    AppendStep(isNew, names, NewNames(table[..i], names), NewNames(table[..i + 1], names), [e.controller], r0, r1);
    AppendStep(isNew, basePermissions, TableRows(table[..i], names, rolesMap), TableRows(table[..i + 1], names, rolesMap),
               GrantRows(e.controller, rolesMap, e.grants), p0, p1);
    if isNew {
      MergeUpdate(baseCache, RouteCache(table[..i], names), RouteCacheKey(e.controller), e.controller);
    }
  }

  /** A sequence kept as `base + prefix` stays so when it and the prefix grow by the
      same part, or neither grows. */
  lemma AppendStep<T>(grows: bool, base: seq<T>, prefix: seq<T>, next: seq<T>, extra: seq<T>, x0: seq<T>, x1: seq<T>)
    requires x0 == base + prefix
    requires next == prefix + (if grows then extra else [])
    requires x1 == (if grows then x0 + extra else x0)
    ensures x1 == base + next
  {
    if grows {
      assert (base + prefix) + extra == base + (prefix + extra);
    } else {
      assert prefix + [] == prefix;
    }
  }

  /** Updating a merged map updates its right-hand side. */
  lemma MergeUpdate(a: map<string, string>, b: map<string, string>, k: string, v: string)
    ensures (a + b)[k := v] == a + b[k := v]
  {
  }

  /** The loop's failure invariant extends over an entry whose inserts all succeed. */
  lemma NoFailuresStep(table: seq<RouteEntry>, names: seq<string>, rolesMap: map<string, int>,
                       routeFails: set<string>, permissionFails: set<Permission>, i: nat)
    requires i < |table|
    requires NoFailures(table[..i], names, rolesMap, routeFails, permissionFails)
    requires table[i].controller !in names ==> (table[i].controller !in routeFails &&
      forall p :: p in GrantRows(table[i].controller, rolesMap, table[i].grants) ==> p !in permissionFails)
    ensures NoFailures(table[..i + 1], names, rolesMap, routeFails, permissionFails)
  {
    Unfold(table, names, rolesMap, i);
  }

  /** A controller of the table that is not a stored route is among the new names. */
  lemma {:induction false} NewNamesMember(table: seq<RouteEntry>, names: seq<string>, i: nat)
    requires i < |table| && table[i].controller !in names
    ensures table[i].controller in NewNames(table, names)
  {
    if i < |table| - 1 {
      assert table[..|table| - 1][i] == table[i];
      NewNamesMember(table[..|table| - 1], names, i);
    }
  }

  /** The rows of a new controller are among the rows of the table. */
  lemma {:induction false} TableRowsInclude(table: seq<RouteEntry>, names: seq<string>, rolesMap: map<string, int>, i: nat)
    requires i < |table| && table[i].controller !in names
    ensures forall p :: p in GrantRows(table[i].controller, rolesMap, table[i].grants) ==> p in TableRows(table, names, rolesMap)
  {
    if i < |table| - 1 {
      assert table[..|table| - 1][i] == table[i];
      TableRowsInclude(table[..|table| - 1], names, rolesMap, i);
    }
  }

  /** The rows of the first grants are among the rows of all of them. */
  lemma {:induction false} GrantRowsPrefix(controller: string, rolesMap: map<string, int>, grants: seq<Grant>, j: nat)
    requires j <= |grants|
    ensures forall p :: p in GrantRows(controller, rolesMap, grants[..j]) ==> p in GrantRows(controller, rolesMap, grants)
  {
    if j < |grants| {
      var prefix := grants[..|grants| - 1];
      GrantRowsPrefix(controller, rolesMap, prefix, j);
      assert prefix[..j] == grants[..j];
    } else {
      assert grants[..j] == grants;
    }
  }

  /** Inserts that all succeed are written and the run goes on with the rest. */
  lemma {:induction false} WrittenFree(a: seq<Permission>, b: seq<Permission>, fails: set<Permission>)
    requires Free(a, fails)
    ensures Written(a + b, fails) == a + Written(b, fails)
  {
    if a != [] {
      assert (a + b)[0] == a[0] && (a + b)[1..] == a[1..] + b;
      WrittenFree(a[1..], b, fails);
      assert [a[0]] + a[1..] == a;
    } else {
      assert a + b == b;
    }
  }

  /** The state the grant loop leaves when an insert of grant j fails. */
  lemma GrantFailure(controller: string, rolesMap: map<string, int>, grants: seq<Grant>,
                     fails: set<Permission>, j: nat, base: seq<Permission>, before: seq<Permission>,
                     after: seq<Permission>)
    requires j < |grants|
    requires before == base + GrantRows(controller, rolesMap, grants[..j])
    requires Free(GrantRows(controller, rolesMap, grants[..j]), fails)
    requires !Free(MethodRows(controller, RoleIdOf(rolesMap, grants[j].role), grants[j].methods), fails)
    requires after == before + Written(MethodRows(controller, RoleIdOf(rolesMap, grants[j].role), grants[j].methods), fails)
    ensures after == base + Written(GrantRows(controller, rolesMap, grants), fails)
    ensures !Free(GrantRows(controller, rolesMap, grants), fails)
    ensures base <= after
  {
    var m := MethodRows(controller, RoleIdOf(rolesMap, grants[j].role), grants[j].methods);
    assert grants[..j + 1][..j] == grants[..j];
    assert GrantRows(controller, rolesMap, grants[..j + 1]) == GrantRows(controller, rolesMap, grants[..j]) + m;
    GrantRowsPrefix(controller, rolesMap, grants, j + 1);
    WrittenAtGrant(controller, rolesMap, grants, fails, j);
    assert after == base + (GrantRows(controller, rolesMap, grants[..j]) + Written(m, fails));
  }

  /** When no insert fails, all rows are written. */
  lemma WrittenAll(rows: seq<Permission>, fails: set<Permission>)
    requires Free(rows, fails)
    ensures Written(rows, fails) == rows
  {
    WrittenFree(rows, [], fails);
    assert rows + [] == rows;
  }

  /** Once an insert has failed, nothing after it is written. */
  lemma {:induction false} WrittenFailed(a: seq<Permission>, b: seq<Permission>, fails: set<Permission>)
    requires !Free(a, fails)
    ensures Written(a + b, fails) == Written(a, fails)
  {
    assert a != [];
    assert (a + b)[0] == a[0] && (a + b)[1..] == a[1..] + b;
    if a[0] !in fails {
      WrittenFailed(a[1..], b, fails);
    }
  }

  /** The method loop stops at its first failing row: the rows before it are written. */
  lemma WrittenStops(controller: string, roleId: int, methods: seq<string>, fails: set<Permission>, l: nat)
    requires l < |methods| && Permission(roleId, controller, methods[l]) in fails
    requires Free(MethodRows(controller, roleId, methods[..l]), fails)
    ensures Written(MethodRows(controller, roleId, methods), fails) == MethodRows(controller, roleId, methods[..l])
  {
    var rows := MethodRows(controller, roleId, methods);
    MethodRowsMembers(controller, roleId, methods);
    MethodRowsMembers(controller, roleId, methods[..l]);
    assert MethodRows(controller, roleId, methods[..l]) == rows[..l];
    assert rows == rows[..l] + rows[l..];
    WrittenFree(rows[..l], rows[l..], fails);
    assert rows[l..][0] == rows[l];
  }

  /** The grant loop stops in grant j: the rows of the earlier grants and those written
      for grant j. */
  lemma WrittenAtGrant(controller: string, rolesMap: map<string, int>, grants: seq<Grant>,
                       fails: set<Permission>, j: nat)
    requires j < |grants|
    requires Free(GrantRows(controller, rolesMap, grants[..j]), fails)
    requires !Free(MethodRows(controller, RoleIdOf(rolesMap, grants[j].role), grants[j].methods), fails)
    ensures Written(GrantRows(controller, rolesMap, grants), fails) ==
      GrantRows(controller, rolesMap, grants[..j]) +
      Written(MethodRows(controller, RoleIdOf(rolesMap, grants[j].role), grants[j].methods), fails)
  {
    var a := GrantRows(controller, rolesMap, grants[..j]);
    var m := MethodRows(controller, RoleIdOf(rolesMap, grants[j].role), grants[j].methods);
    var all := GrantRows(controller, rolesMap, grants);
    assert grants[..j + 1][..j] == grants[..j];
    assert GrantRows(controller, rolesMap, grants[..j + 1]) == a + m;
    GrantRowsIsPrefix(controller, rolesMap, grants, j + 1);
    var rest := all[|a + m|..];
    assert all == a + m + rest;
    assert a + m + rest == a + (m + rest);
    WrittenFree(a, m + rest, fails);
    WrittenFailed(m, rest, fails);
  }

  /** The rows of the first j grants are a prefix of all the rows. */
  lemma {:induction false} GrantRowsIsPrefix(controller: string, rolesMap: map<string, int>, grants: seq<Grant>, j: nat)
    requires j <= |grants|
    ensures GrantRows(controller, rolesMap, grants[..j]) <= GrantRows(controller, rolesMap, grants)
  {
    if j < |grants| {
      var prefix := grants[..|grants| - 1];
      GrantRowsIsPrefix(controller, rolesMap, prefix, j);
      assert prefix[..j] == grants[..j];
    } else {
      assert grants[..j] == grants;
    }
  }

  /** The rows of one role: one per method, in order. */
  lemma {:induction false} MethodRowsMembers(controller: string, roleId: int, methods: seq<string>)
    ensures |MethodRows(controller, roleId, methods)| == |methods|
    ensures forall k :: 0 <= k < |methods| ==> MethodRows(controller, roleId, methods)[k] == Permission(roleId, controller, methods[k])
  {
    if methods != [] {
      MethodRowsMembers(controller, roleId, methods[..|methods| - 1]);
    }
  }

  /** The number of (role, method) pairs of a controller. */
  function PairCount(grants: seq<Grant>): nat
  {
    if grants == [] then 0 else PairCount(grants[..|grants| - 1]) + |grants[|grants| - 1].methods|
  }

  /** A new controller gets one row per (role, method) pair. */
  lemma {:induction false} GrantRowsCount(controller: string, rolesMap: map<string, int>, grants: seq<Grant>)
    ensures |GrantRows(controller, rolesMap, grants)| == PairCount(grants)
  {
    if grants != [] {
      var g := grants[|grants| - 1];
      GrantRowsCount(controller, rolesMap, grants[..|grants| - 1]);
      MethodRowsMembers(controller, RoleIdOf(rolesMap, g.role), g.methods);
    }
  }

  /** Every (role, method) pair of a new controller gets its row, carrying the
      controller, the method and the role's ID (0 for an unknown role). */
  lemma {:induction false} GrantRowsComplete(controller: string, rolesMap: map<string, int>, grants: seq<Grant>)
    ensures forall j, l :: 0 <= j < |grants| && 0 <= l < |grants[j].methods| ==>
      Permission(RoleIdOf(rolesMap, grants[j].role), controller, grants[j].methods[l]) in GrantRows(controller, rolesMap, grants)
  {
    if grants != [] {
      var prefix := grants[..|grants| - 1];
      var g := grants[|grants| - 1];
      var rid := RoleIdOf(rolesMap, g.role);
      GrantRowsComplete(controller, rolesMap, prefix);
      MethodRowsMembers(controller, rid, g.methods);
      var rows := GrantRows(controller, rolesMap, grants);
      assert rows == GrantRows(controller, rolesMap, prefix) + MethodRows(controller, rid, g.methods);
      forall j, l | 0 <= j < |grants| && 0 <= l < |grants[j].methods|
        ensures Permission(RoleIdOf(rolesMap, grants[j].role), controller, grants[j].methods[l]) in rows
      {
        if j < |prefix| {
          assert prefix[j] == grants[j];
        } else {
          assert MethodRows(controller, rid, g.methods)[l] == Permission(rid, controller, g.methods[l]);
        }
      }
    }
  }

  /** Every row of a new controller comes from one of its (role, method) pairs. */
  lemma {:induction false} GrantRowsSound(controller: string, rolesMap: map<string, int>, grants: seq<Grant>)
    ensures forall p :: p in GrantRows(controller, rolesMap, grants) ==>
      exists j, l :: 0 <= j < |grants| && 0 <= l < |grants[j].methods| &&
        p == Permission(RoleIdOf(rolesMap, grants[j].role), controller, grants[j].methods[l])
  {
    if grants != [] {
      var prefix := grants[..|grants| - 1];
      var g := grants[|grants| - 1];
      var rid := RoleIdOf(rolesMap, g.role);
      GrantRowsSound(controller, rolesMap, prefix);
      MethodRowsMembers(controller, rid, g.methods);
      var rows := GrantRows(controller, rolesMap, grants);
      assert rows == GrantRows(controller, rolesMap, prefix) + MethodRows(controller, rid, g.methods);
      forall p | p in rows
        ensures exists j, l :: (0 <= j < |grants| && 0 <= l < |grants[j].methods| &&
          p == Permission(RoleIdOf(rolesMap, grants[j].role), controller, grants[j].methods[l]))
      {
        if p in GrantRows(controller, rolesMap, prefix) {
          var j, l :| 0 <= j < |prefix| && 0 <= l < |prefix[j].methods| &&
            p == Permission(RoleIdOf(rolesMap, prefix[j].role), controller, prefix[j].methods[l]);
          assert grants[j] == prefix[j];
        } else {
          var k :| 0 <= k < |g.methods| && MethodRows(controller, rid, g.methods)[k] == p;
          assert grants[|grants| - 1] == g;
        }
      }
    }
  }

  /** Every permission row comes from a controller that was not a stored route, so a
      stored controller gets no rows, new methods included. */
  lemma {:induction false} RowsOfNewControllers(table: seq<RouteEntry>, names: seq<string>, rolesMap: map<string, int>)
    ensures forall p :: p in TableRows(table, names, rolesMap) ==>
      p.controller !in names && exists i :: 0 <= i < |table| && table[i].controller == p.controller
    ensures forall k :: k in NewNames(table, names) ==>
      k !in names && exists i :: 0 <= i < |table| && table[i].controller == k
  {
    if table != [] {
      var prefix := table[..|table| - 1];
      var e := table[|table| - 1];
      RowsOfNewControllers(prefix, names, rolesMap);
      GrantRowsSound(e.controller, rolesMap, e.grants);
      forall p | p in TableRows(table, names, rolesMap)
        ensures p.controller !in names && exists i :: 0 <= i < |table| && table[i].controller == p.controller
      {
        if p in TableRows(prefix, names, rolesMap) {
          var i :| 0 <= i < |prefix| && prefix[i].controller == p.controller;
          assert table[i] == prefix[i];
        } else {
          assert table[|table| - 1].controller == p.controller;
        }
      }
      forall k | k in NewNames(table, names)
        ensures k !in names && exists i :: 0 <= i < |table| && table[i].controller == k
      {
        if k in NewNames(prefix, names) {
          var i :| 0 <= i < |prefix| && prefix[i].controller == k;
          assert table[i] == prefix[i];
        } else {
          assert table[|table| - 1].controller == k;
        }
      }
    }
  }

  /** `rolesMap` knows exactly the codes of the role rows, and maps each to the ID of
      the last row with that code. */
  lemma {:induction false} RolesMapLatest(roles: seq<Role>, code: string)
    ensures code in RolesMap(roles) <==> exists i :: 0 <= i < |roles| && roles[i].code == code
    ensures code in RolesMap(roles) ==>
      exists i :: 0 <= i < |roles| && roles[i].code == code && RolesMap(roles)[code] == roles[i].id &&
        forall j :: i < j < |roles| ==> roles[j].code != code
  {
    if roles != [] {
      var prefix := roles[..|roles| - 1];
      var last := roles[|roles| - 1];
      RolesMapLatest(prefix, code);
      if last.code != code {
        if code in RolesMap(prefix) {
          var i :| 0 <= i < |prefix| && prefix[i].code == code && RolesMap(prefix)[code] == prefix[i].id &&
            forall j :: i < j < |prefix| ==> prefix[j].code != code;
          assert roles[i] == prefix[i];
          assert forall j :: i < j < |roles| ==> roles[j].code != code by {
            forall j | i < j < |roles| ensures roles[j].code != code {
              if j < |prefix| {
                assert roles[j] == prefix[j];
              }
            }
          }
        }
        if exists i :: 0 <= i < |roles| && roles[i].code == code {
          var i :| 0 <= i < |roles| && roles[i].code == code;
          assert prefix[i] == roles[i];
        }
      }
    }
  }

  /** A role code with no role row gives permission rows with role ID 0. */
  lemma UnknownRoleGetsZero(roles: seq<Role>, code: string)
    requires forall i :: 0 <= i < |roles| ==> roles[i].code != code
    ensures RoleIdOf(RolesMap(roles), code) == 0
  {
    RolesMapLatest(roles, code);
  }
}

/** api/authorization.go: `Apply` wraps a route handler with a permission check;
    `gen` answers it from a positive-only Redis cache in front of a database query over
    role assignments, their invalidations, roles and role permissions. */
module Authorization {
  import Util
  import AppKeys

  /** The authenticated caller: user ID, role ID and role code. */
  datatype AuthContext = AuthContext(id: int, roleId: int, role: string)

  /** A row of the user role assignment table. */
  datatype Assignment = Assignment(id: int, userId: int, roleId: int)

  /** A row of the role permission table. */
  datatype RolePermission = RolePermission(roleId: int, controller: string, action: string)

  /** The tables the permission query joins: assignments, the assignment IDs that have
      an invalidation row, the IDs of existing roles, and role permissions. */
  datatype Tables = Tables(assignments: seq<Assignment>, invalidated: set<int>, roles: set<int>,
                           permissions: seq<RolePermission>)

  /** The user's current assignment: no assignment of the same user has a larger ID. */
  predicate Latest(t: Tables, a: Assignment)
  {
    a in t.assignments && forall b :: b in t.assignments && b.userId == a.userId ==> b.id <= a.id
  }

  /** Some permission row of the role covers the controller and method. */
  predicate Permits(t: Tables, roleId: int, controller: string, action: string)
  {
    exists p :: p in t.permissions && p.roleId == roleId && p.controller == controller && p.action == action
  }

  /** The query of `gen` returns a row: a latest, not invalidated assignment of the
      caller to the caller's role, the role exists and permits (controller, action). */
  predicate Granted(t: Tables, auth: AuthContext, controller: string, action: string)
  {
    exists a :: a in t.assignments && Latest(t, a) && a.userId == auth.id && a.roleId == auth.roleId &&
      a.id !in t.invalidated && a.roleId in t.roles && Permits(t, a.roleId, controller, action)
  }

  /** The Redis key of a decision: `<prefix>:<role>:<id>:<controller>:<action>`. The
      role ID is not part of it. */
  function CacheKey(prefix: string, auth: AuthContext, controller: string, action: string): string
  {
    prefix + ":" + auth.role + ":" + Util.FormatInt(auth.id) + ":" + controller + ":" + action
  }

  /** The prefix `gen` reads from the key table. */
  function PermissionPrefix(): (r: string)
    ensures r == "user:permission"
  {
    AppKeys.RedisTableLookups();
    AppKeys.GetRedisKey(AppKeys.RedisTable, ["user", "permission"])
  }

  /** The value `Cache.Set(key, true, 0)` stores. */
  const CachedTrue: string := "1"

  /** `gen`: a successful cache read grants, whatever the stored value; otherwise the
      query decides (a driver failure denies) and only a grant is cached, without
      expiry. */
  function GenNext(cache: map<string, string>, prefix: string, auth: AuthContext,
                   controller: string, action: string, t: Tables, dbUp: bool): (r: (bool, map<string, string>))
    ensures r.0 <==> CacheKey(prefix, auth, controller, action) in cache || (dbUp && Granted(t, auth, controller, action))
    ensures r.1.Keys == cache.Keys + (if r.0 then {CacheKey(prefix, auth, controller, action)} else {})
    ensures forall k :: k in cache ==> k in r.1 && r.1[k] == cache[k]
  {
    var key := CacheKey(prefix, auth, controller, action);
    if key in cache then (true, cache)
    else if dbUp && Granted(t, auth, controller, action) then (true, cache[key := CachedTrue])
    else (false, cache)
  }

  /** What `Apply` does with a request. */
  datatype Decision = RunNext | Forbidden(status: int, message: string)

  const StatusForbidden: int := 403

  /** `Apply`'s decision: a superadmin always passes; anyone else passes iff `gen`
      and then the callback allow it. */
  function Decide(role: string, gen: bool, cb: bool): (d: Decision)
    ensures d == RunNext <==> role == "superadmin" || (gen && cb)
    ensures d != RunNext ==> d == Forbidden(StatusForbidden, "forbidden")
  {
    if role == "superadmin" then RunNext
    else if !gen || !cb then Forbidden(StatusForbidden, "forbidden")
    else RunNext
  }

  /** The middleware's cache. */
  class Authorizer {
    var cache: map<string, string>

    constructor (initial: map<string, string>)
      ensures cache == initial
    {
      cache := initial;
    }

    /** `gen(controller, method)` for the API's caller `auth`. */
    method Gen(auth: AuthContext, controller: string, action: string, t: Tables, dbUp: bool) returns (ok: bool)
      modifies this
      ensures (ok, cache) == GenNext(old(cache), PermissionPrefix(), auth, controller, action, t, dbUp)
    {
      var key := PermissionPrefix() + ":" + auth.role + ":" + Util.FormatInt(auth.id) + ":" + controller + ":" + action;
      if key in cache {
        return true;
      }
      if !dbUp || !Granted(t, auth, controller, action) {
        return false;
      }
      cache := cache[key := CachedTrue];
      return true;
    }

    /** The handler `Apply(next, controller, method, cb)` returns, run on one request.
        `cb` is the callback's answer; `cbRan` says whether it was evaluated. */
    method Apply(auth: AuthContext, controller: string, action: string, cb: bool, t: Tables, dbUp: bool)
      returns (d: Decision, cbRan: bool)
      modifies this
      ensures auth.role == "superadmin" ==> d == RunNext && !cbRan && cache == old(cache)
      ensures auth.role != "superadmin" ==>
        var g := GenNext(old(cache), PermissionPrefix(), auth, controller, action, t, dbUp);
        cache == g.1 && cbRan == g.0 && d == Decide(auth.role, g.0, cb)
    {
      if auth.role == "superadmin" {
        return RunNext, false;
      }
      var ok := Gen(auth, controller, action, t, dbUp);
      cbRan := ok;
      if !ok || !cb {
        return Forbidden(StatusForbidden, "forbidden"), cbRan;
      }
      return RunNext, cbRan;
    }
  }

  /** Once granted, a decision stays granted: the cached key answers every later call,
      whatever the tables (revocations included) and the driver say, and the cache
      is not written again. */
  lemma GrantIsSticky(cache: map<string, string>, prefix: string, auth: AuthContext, controller: string,
                      action: string, t: Tables, dbUp: bool, t2: Tables, dbUp2: bool)
    requires GenNext(cache, prefix, auth, controller, action, t, dbUp).0
    ensures var c1 := GenNext(cache, prefix, auth, controller, action, t, dbUp).1;
      GenNext(c1, prefix, auth, controller, action, t2, dbUp2) == (true, c1)
  {
  }

  /** Two callers that differ only in their role ID share a cache key, so a grant
      cached for one answers for the other even though the query checks the role ID. */
  lemma RoleIdNotInKey(cache: map<string, string>, prefix: string, auth: AuthContext, roleId: int,
                       controller: string, action: string, t: Tables, dbUp: bool, t2: Tables, dbUp2: bool)
    requires GenNext(cache, prefix, auth, controller, action, t, dbUp).0
    ensures var c1 := GenNext(cache, prefix, auth, controller, action, t, dbUp).1;
      GenNext(c1, prefix, auth.(roleId := roleId), controller, action, t2, dbUp2).0
  {
    assert CacheKey(prefix, auth.(roleId := roleId), controller, action) == CacheKey(prefix, auth, controller, action);
  }

  /** A denial leaves the cache as it was: only grants are cached. */
  lemma DenialWritesNothing(cache: map<string, string>, prefix: string, auth: AuthContext,
                            controller: string, action: string, t: Tables, dbUp: bool)
    requires !GenNext(cache, prefix, auth, controller, action, t, dbUp).0
    ensures GenNext(cache, prefix, auth, controller, action, t, dbUp).1 == cache
    ensures !(dbUp && Granted(t, auth, controller, action))
  {
  }

  /** The cache key, split at ':', gives back its parts when role, controller and
      action contain no ':' (the prefix "user:permission" counts as two parts). */
  lemma {:induction false} CacheKeyParts(auth: AuthContext, controller: string, action: string)
    requires ':' !in auth.role && ':' !in controller && ':' !in action
    ensures Util.Split(CacheKey(PermissionPrefix(), auth, controller, action), ':') ==
      ["user", "permission", auth.role, Util.FormatInt(auth.id), controller, action]
  {
    var id := Util.FormatInt(auth.id);
    assert ':' !in id by {
      forall k | 0 <= k < |id| ensures id[k] != ':' {
        if k > 0 {
          assert id[1..][k - 1] == id[k];
        }
      }
    }
    var parts := ["user", "permission", auth.role, id, controller, action];
    forall i | 0 <= i < |parts| ensures ':' !in parts[i] {
    }
    Util.SplitJoin(parts, ':');
    JoinSix(parts, ":");
    assert PermissionPrefix() == "user" + ":" + "permission";
  }

  /** `Join` of six parts written out. */
  lemma JoinSix(parts: seq<string>, sep: string)
    requires |parts| == 6
    ensures Util.Join(parts, sep) ==
      parts[0] + sep + parts[1] + sep + parts[2] + sep + parts[3] + sep + parts[4] + sep + parts[5]
  {
    assert parts[1..][1..] == parts[2..] && parts[2..][1..] == parts[3..];
    assert parts[3..][1..] == parts[4..] && parts[4..][1..] == parts[5..];
    assert Util.Join(parts[5..], sep) == parts[5];
    assert Util.Join(parts[4..], sep) == parts[4] + sep + parts[5];
    assert Util.Join(parts[3..], sep) == parts[3] + sep + (parts[4] + sep + parts[5]);
    assert Util.Join(parts[2..], sep) == parts[2] + sep + (parts[3] + sep + (parts[4] + sep + parts[5]));
    assert Util.Join(parts[1..], sep) == parts[1] + sep + (parts[2] + sep + (parts[3] + sep + (parts[4] + sep + parts[5])));
  }

  /** Distinct callers, controllers or methods get distinct cache keys (when their
      names contain no ':'), so a cached grant never answers a different route. */
  lemma CacheKeyInjective(a1: AuthContext, c1: string, m1: string, a2: AuthContext, c2: string, m2: string)
    requires ':' !in a1.role && ':' !in c1 && ':' !in m1 && Util.IsInt64(a1.id)
    requires ':' !in a2.role && ':' !in c2 && ':' !in m2 && Util.IsInt64(a2.id)
    requires CacheKey(PermissionPrefix(), a1, c1, m1) == CacheKey(PermissionPrefix(), a2, c2, m2)
    ensures a1.role == a2.role && a1.id == a2.id && c1 == c2 && m1 == m2
  {
    CacheKeyParts(a1, c1, m1);
    CacheKeyParts(a2, c2, m2);
    var p1 := ["user", "permission", a1.role, Util.FormatInt(a1.id), c1, m1];
    var p2 := ["user", "permission", a2.role, Util.FormatInt(a2.id), c2, m2];
    assert p1 == p2;
    assert p1[3] == p2[3];
    Util.ParseFormatInt(a1.id);
    Util.ParseFormatInt(a2.id);
  }
}

/** cmn/app.go: the table of cache key prefixes that `NewApp` writes into the global
    `RedisKeys` map, and the `GetRedisKey` lookup over it. */
module AppKeys {

  /** A `RedisKeys` value: a plain string or a nested `map[string]string`. */
  datatype Entry = Flat(text: string) | Nested(keys: map<string, string>)

  /** The entries `NewApp` writes. */
  const PermissionsEntry: Entry := Flat("permissions")
  const RoutesEntry: Entry := Flat("routes")
  const UserEntry: Entry := Nested(map["one" := "user", "permissions" := "user:permissions", "permission" := "user:permission"])
  const CategoryEntry: Entry := Nested(map["all" := "categories", "one" := "category"])

  const RedisTable: map<string, Entry> :=
    map["permissions" := PermissionsEntry, "routes" := RoutesEntry, "user" := UserEntry, "category" := CategoryEntry]

  /** The process-wide key table, populated once at start-up. */
  class App {
    var redisKeys: map<string, Entry>

    constructor ()
      ensures redisKeys == map[]
    {
      redisKeys := map[];
    }

    /** The `RedisKeys[...] = ...` assignments of `NewApp`; other entries stay. */
    method PopulateRedisKeys()
      modifies this
      ensures redisKeys == old(redisKeys) + RedisTable
      ensures forall k :: k in old(redisKeys) && k !in RedisTable ==> redisKeys[k] == old(redisKeys)[k]
    {
      redisKeys := redisKeys["permissions" := PermissionsEntry];
      redisKeys := redisKeys["routes" := RoutesEntry];
      redisKeys := redisKeys["user" := UserEntry];
      redisKeys := redisKeys["category" := CategoryEntry];
      MergeFour(old(redisKeys), "permissions", PermissionsEntry, "routes", RoutesEntry,
                "user", UserEntry, "category", CategoryEntry);
    }
  }

  /** Merging a four-entry display is updating with its entries in order. */
  lemma MergeFour<V>(m: map<string, V>, k1: string, v1: V, k2: string, v2: V, k3: string, v3: V, k4: string, v4: V)
    ensures m + map[k1 := v1, k2 := v2, k3 := v3, k4 := v4] == m[k1 := v1][k2 := v2][k3 := v3][k4 := v4]
  {
  }

  /** What the type assertions of `GetRedisKey` need: a first key whose entry is a
      nested table when a second key is given, and a string otherwise. */
  predicate Lookupable(table: map<string, Entry>, keys: seq<string>)
  {
    |keys| >= 1 && keys[0] in table &&
    (if |keys| > 1 then table[keys[0]].Nested? else table[keys[0]].Flat?)
  }

  /** `GetRedisKey(keys...)`: the nested value under the first two keys (the empty
      string when the second is missing, as for any Go map), or the plain value
      under the only key. */
  function GetRedisKey(table: map<string, Entry>, keys: seq<string>): (r: string)
    requires Lookupable(table, keys)
    ensures |keys| > 1 ==> (keys[1] in table[keys[0]].keys ==> r == table[keys[0]].keys[keys[1]])
    ensures |keys| > 1 ==> (keys[1] !in table[keys[0]].keys ==> r == "")
    ensures |keys| == 1 ==> r == table[keys[0]].text
  {
    if |keys| > 1 then
      var nested := table[keys[0]].keys;
      if keys[1] in nested then nested[keys[1]] else ""
    else table[keys[0]].text
  }

  /** Keys after the second are ignored. */
  lemma ExtraKeysIgnored(table: map<string, Entry>, keys: seq<string>, more: seq<string>)
    requires Lookupable(table, keys) && |keys| >= 2
    ensures Lookupable(table, keys + more)
    ensures GetRedisKey(table, keys + more) == GetRedisKey(table, keys[..2])
  {
    assert (keys + more)[0] == keys[0] && (keys + more)[1] == keys[1];
  }

  /** The lookups the core performs on the populated table. */
  lemma RedisTableLookups()
    ensures GetRedisKey(RedisTable, ["user", "permission"]) == "user:permission"
    ensures GetRedisKey(RedisTable, ["user", "permissions"]) == "user:permissions"
    ensures GetRedisKey(RedisTable, ["user", "one"]) == "user"
    ensures GetRedisKey(RedisTable, ["category", "all"]) == "categories"
    ensures GetRedisKey(RedisTable, ["category", "one"]) == "category"
    ensures GetRedisKey(RedisTable, ["routes"]) == "routes"
    ensures GetRedisKey(RedisTable, ["permissions"]) == "permissions"
    ensures !Lookupable(RedisTable, ["routes", "one"]) && !Lookupable(RedisTable, ["user"])
  {
  }
}

/**
 * The user-directory cache kept in the configuration hash: reused when
 * present, otherwise fetched from the membership listing, stored under its
 * key and written back to the configuration file.
 */
module UserCache {
  import opened Wrappers
  import Api

  const CacheKey: string := "username_to_user_id_map"

  /** A configuration value as the YAML file holds it. */
  datatype Value = Nil | Text(text: string) | TextList(items: seq<string>) | UserMap(users: map<string, int>)

  /** Ruby truthiness: everything but nil (the file holds no `false`). */
  predicate Truthy(v: Value)
  {
    !v.Nil?
  }

  /** How a fetched directory (or nil) is stored in the configuration. */
  function Stored(users: Option<map<string, int>>): (v: Value)
    ensures Truthy(v) <==> users.Some?
    ensures users.Some? ==> v.UserMap? && v.users == users.value
  {
    match users
    case None => Nil
    case Some(m) => UserMap(m)
  }

  /** True when the configuration already holds a usable cache. */
  predicate HasCache(config: map<string, Value>)
  {
    CacheKey in config && Truthy(config[CacheKey])
  }

  class Cache {
    /** The configuration hash, shared with the client. */
    var config: map<string, Value>
    /** The content of the configuration file on disk. */
    var persisted: map<string, Value>
    /** How many membership requests have been made. */
    var fetches: nat

    /** The configuration as loaded from the file. */
    constructor (loaded: map<string, Value>)
      ensures config == loaded && persisted == loaded && fetches == 0
    {
      config := loaded;
      persisted := loaded;
      fetches := 0;
    }

    /**
     * `rebuild_user_cache`: always fetches, stores the result (nil included)
     * under the cache key, then writes the whole configuration out.
     */
    method RebuildUserCache(response: Api.Response<seq<Api.Membership>>) returns (users: Option<map<string, int>>)
      modifies this
      ensures users == (if response.success then Some(Api.MemberMap(response.body)) else None)
      ensures config == old(config)[CacheKey := Stored(users)]
      ensures persisted == config
      ensures fetches == old(fetches) + 1
    {
      users := Api.GetAllUsersForProject(response);
      fetches := fetches + 1;
      config := config[CacheKey := Stored(users)];
      persisted := config;
    }

    /** `build_or_assign_user_cache`: the cached value when truthy, otherwise a rebuild. */
    method BuildOrAssignUserCache(response: Api.Response<seq<Api.Membership>>) returns (cache: Value)
      modifies this
      ensures HasCache(old(config)) ==> cache == old(config)[CacheKey]
      ensures HasCache(old(config)) ==> config == old(config) && persisted == old(persisted) && fetches == old(fetches)
      ensures !HasCache(old(config)) ==>
                cache == Stored(if response.success then Some(Api.MemberMap(response.body)) else None)
      ensures !HasCache(old(config)) ==>
                config == old(config)[CacheKey := cache] && persisted == config && fetches == old(fetches) + 1
    {
      if HasCache(config) {
        cache := config[CacheKey];
      } else {
        var users := RebuildUserCache(response);
        cache := Stored(users);
      }
    }
  }

  /**
   * Two process starts against one file: the first, with no cache, fetches
   * and persists; the second reloads the file and makes no request, and
   * obtains the very map the membership listing produced.
   */
  method StartTwice(loaded: map<string, Value>, first: Api.Response<seq<Api.Membership>>,
                    second: Api.Response<seq<Api.Membership>>)
    returns (initial: Value, reloaded: Value, secondFetches: nat)
    requires !HasCache(loaded)
    requires first.success
    ensures initial == UserMap(Api.MemberMap(first.body))
    ensures reloaded == initial
    ensures secondFetches == 0
  {
    var c1 := new Cache(loaded);
    initial := c1.BuildOrAssignUserCache(first);
    var c2 := new Cache(c1.persisted);
    reloaded := c2.BuildOrAssignUserCache(second);
    secondFetches := c2.fetches;
  }

  /** A failed fetch stores nil, so the next lookup fetches again. */
  method FailedFetchRetries(loaded: map<string, Value>, first: Api.Response<seq<Api.Membership>>,
                            second: Api.Response<seq<Api.Membership>>)
    returns (initial: Value, retried: Value, totalFetches: nat)
    requires !HasCache(loaded)
    requires !first.success
    ensures initial == Nil
    ensures retried == Stored(if second.success then Some(Api.MemberMap(second.body)) else None)
    ensures totalFetches == 2
  {
    var c := new Cache(loaded);
    initial := c.BuildOrAssignUserCache(first);
    retried := c.BuildOrAssignUserCache(second);
    totalFetches := c.fetches;
  }

  /** The explicit refresh refetches and overwrites even a present cache, and touches no other key. */
  method RefreshOverwrites(loaded: map<string, Value>, response: Api.Response<seq<Api.Membership>>)
    returns (before: Value, after: map<string, Value>, totalFetches: nat)
    requires HasCache(loaded)
    ensures before == loaded[CacheKey]
    ensures after.Keys == loaded.Keys
    ensures forall k :: k in loaded && k != CacheKey ==> after[k] == loaded[k]
    ensures after[CacheKey] == Stored(if response.success then Some(Api.MemberMap(response.body)) else None)
    ensures totalFetches == 1
  {
    var c := new Cache(loaded);
    before := c.BuildOrAssignUserCache(response);
    var _ := c.RebuildUserCache(response);
    after := c.persisted;
    totalFetches := c.fetches;
  }
}

/**
 The two services that use the cached read without a tombstone: role abilities and
 tenant entitlements, both with a lifetime of five minutes (in milliseconds here).
 The database value of a missing role is the empty rule list, and that of a tenant
 without a subscription is the unlimited plan, as the two services substitute them.
 */
module CachedServices {
  import opened Wrappers
  import opened CacheAside
  import opened Gateway

  const FIVE_MINUTES: nat := 300_000
  const PLAIN: Config := Config(FIVE_MINUTES, 0)

  /** `v` was the database's value less than five minutes plus `latency` before time t. */
  ghost predicate RecentValue<V>(r: Run<V>, v: V, t: int, latency: int) {
    exists k :: 0 <= k < |r.states| && r.states[k].db == v && r.states[k].now > t - (300_000 + latency)
  }

  /** A value that is stored lives for five minutes. */
  lemma Lifetime<V>(s: State<V>, g: nat)
    ensures Step(PLAIN, s, Fill(g)).Some? ==>
              g in s.readers && s.readers[g].stage.Loaded?
              && Step(PLAIN, s, Fill(g)).value.cache == Some(Entry(s.readers[g].stage.value, s.now + 300_000))
  {
  }

  ghost predicate NeverMarked<V>(r: Run<V>) {
    forall e | e in r.events :: !e.Mark?
  }

  lemma {:induction false} NeverMarkedNoTombstone<V>(r: Run<V>, n: nat)
    requires Valid(PLAIN, r) && NeverMarked(r) && n < |r.states|
    ensures r.states[n].tombstone == None
  {
    if n > 0 {
      NeverMarkedNoTombstone(r, n - 1);
      assert r.events[n - 1] in r.events;
      assert Step(PLAIN, r.states[n - 1], r.events[n - 1]) == Some(r.states[n]);
    }
  }

  lemma ReturnedIsRecent<V>(r: Run<V>, g: nat, latency: int)
    requires Valid(PLAIN, r) && Timely(r, latency) && 0 <= latency
    requires g in Last(r).readers && Last(r).readers[g].stage.Returned?
    ensures RecentValue(r, Last(r).readers[g].stage.value, Last(r).readers[g].startedAt, latency)
  {
    var k := BoundedStaleness(PLAIN, r, latency, |r.states| - 1, g);
  }

  /** The cached read both services share: never refused, and at most ttl + latency stale. */
  method ReadRecent<V>(store: Store<V>, g: nat, env: Interference<V>) returns (v: V)
    requires store.Valid() && store.config == PLAIN && g !in store.s.readers && NeverMarked(store.run)
    modifies store
    ensures store.Valid() && Extends(old(store.run), store.run)
    ensures forall latency | 0 <= latency && Timely(store.run, latency) ::
              RecentValue(store.run, v, old(store.s).now, latency)
    ensures ReadFrom(store.run, |old(store.run).events|, g, v, true)
  {
    NeverMarkedNoTombstone(store.run, |store.run.states| - 1);
    var data := store.ReadThrough(g, env, (value: V) => true);
    v := data.value;
    forall latency | 0 <= latency && Timely(store.run, latency)
      ensures RecentValue(store.run, v, old(store.s).now, latency)
    {
      ReturnedIsRecent(store.run, g, latency);
    }
  }

  // ------------------------------------------------------------ role abilities

  datatype AbilityRule = AbilityRule(action: string, subject: string)

  method GetRoleAbilities(store: Store<seq<AbilityRule>>, g: nat, env: Interference<seq<AbilityRule>>)
    returns (abilities: seq<AbilityRule>)
    requires store.Valid() && store.config == PLAIN && g !in store.s.readers && NeverMarked(store.run)
    modifies store
    ensures store.Valid() && Extends(old(store.run), store.run)
    ensures forall latency | 0 <= latency && Timely(store.run, latency) ::
              RecentValue(store.run, abilities, old(store.s).now, latency)
    ensures ReadFrom(store.run, |old(store.run).events|, g, abilities, true)
  {
    abilities := ReadRecent(store, g, env);
  }

  // -------------------------------------------------------------- entitlements

  /** None is "no limit". */
  datatype FeatureLimits = FeatureLimits(maxStudents: Option<int>, maxStaff: Option<int>, maxStorageMb: Option<int>)

  datatype Resource = Students | Staff | Storage

  const UNLIMITED: FeatureLimits := FeatureLimits(None, None, None)

  function Limit(f: FeatureLimits, resource: Resource): Option<int> {
    match resource
    case Students => f.maxStudents
    case Staff => f.maxStaff
    case Storage => f.maxStorageMb
  }

  method GetEntitlements(enabled: bool, store: Store<FeatureLimits>, g: nat, env: Interference<FeatureLimits>)
    returns (f: FeatureLimits)
    requires store.Valid() && store.config == PLAIN && g !in store.s.readers && NeverMarked(store.run)
    modifies store
    ensures store.Valid() && Extends(old(store.run), store.run)
    ensures !enabled ==> f == FeatureLimits(None, None, None) && store.run == old(store.run)
    ensures enabled ==> forall latency | 0 <= latency && Timely(store.run, latency) ::
              RecentValue(store.run, f, old(store.s).now, latency)
    ensures enabled ==> ReadFrom(store.run, |old(store.run).events|, g, f, true)
  {
    if !enabled {
      return UNLIMITED;
    }
    f := ReadRecent(store, g, env);
  }

  /** The verdict is that on limits which the database had not long ago: none on the resource, or a count below it. */
  method CheckLimit(enabled: bool, store: Store<FeatureLimits>, g: nat, env: Interference<FeatureLimits>,
                    resource: Resource, count: int)
    returns (within: bool)
    requires store.Valid() && store.config == PLAIN && g !in store.s.readers && NeverMarked(store.run)
    modifies store
    ensures store.Valid() && Extends(old(store.run), store.run)
    ensures !enabled ==> within
    ensures enabled ==> forall latency | 0 <= latency && Timely(store.run, latency) ::
              exists f :: RecentValue(store.run, f, old(store.s).now, latency) &&
                within == match resource {
                  case Students => f.maxStudents.None? || count < f.maxStudents.value
                  case Staff => f.maxStaff.None? || count < f.maxStaff.value
                  case Storage => f.maxStorageMb.None? || count < f.maxStorageMb.value
                }
  {
    var f := GetEntitlements(enabled, store, g, env);
    var limit := Limit(f, resource);
    if limit.None? {
      within := true;
    } else {
      within := count < limit.value;
    }
  }
}

/**
 The cached read as the services run it: straight-line code over shared Redis and
 database state, with other parties free to act between any two of its steps. What
 those parties do is the parameter `env`; the ghost field `run` records the run.
 */
module Gateway {
  import opened Wrappers
  import opened CacheAside

  /** What the rest of the system does before each later step of one reader. */
  datatype Interference<V> = Interference(
    beforeLookUp: seq<Event<V>>,
    beforeLoad: seq<Event<V>>,
    beforeFill: seq<Event<V>>,
    beforeReturn: seq<Event<V>>)

  /** True when `e` is a step of reader g itself. */
  predicate StepOf<V>(e: Event<V>, g: nat) {
    match e
    case Start(h) => h == g
    case LookUp(h) => h == g
    case Load(h) => h == g
    case Fill(h) => h == g
    case Keep(h) => h == g
    case Return(h) => h == g
    case _ => false
  }

  ghost predicate Extends<V>(r: Run<V>, r': Run<V>) {
    && |r.states| <= |r'.states| && |r.events| <= |r'.events|
    && (forall i | 0 <= i < |r.states| :: r'.states[i] == r.states[i])
    && (forall i | 0 <= i < |r.events| :: r'.events[i] == r.events[i])
  }

  /** From event i on, reader g missed the cache, loaded `value` and stored it, or did not. */
  ghost predicate LoadedFrom<V>(r: Run<V>, i: nat, g: nat, value: V, stored: bool)
    requires |r.states| == |r.events| + 1
  {
    exists l: nat, f: nat :: i <= l < f < |r.events| && r.events[l] == Load(g) && r.states[l].db == value
                             && r.events[f] == if stored then Fill(g) else Keep(g)
  }

  /** From event i on, reader g looked the cache up: it found `value` there, or missed and loaded it. */
  ghost predicate ReadFrom<V>(r: Run<V>, i: nat, g: nat, value: V, stored: bool)
    requires |r.states| == |r.events| + 1
  {
    exists k: nat :: i <= k < |r.events| && r.events[k] == LookUp(g)
                     && if r.states[k].cache.Some? && r.states[k].now < r.states[k].cache.value.expiresAt
                        then r.states[k].cache.value.value == value
                        else LoadedFrom(r, k, g, value, stored)
  }

  lemma LoadedEarlier<V>(r: Run<V>, r': Run<V>, i: nat, j: nat, g: nat, value: V, stored: bool)
    requires |r.states| == |r.events| + 1 && |r'.states| == |r'.events| + 1 && Extends(r, r') && j <= i
    requires LoadedFrom(r, i, g, value, stored)
    ensures LoadedFrom(r', j, g, value, stored)
  {
    var l: nat, f: nat :| i <= l < f < |r.events| && r.events[l] == Load(g) && r.states[l].db == value
                          && r.events[f] == if stored then Fill(g) else Keep(g);
    assert r'.events[l] == Load(g) && r'.events[f] == r.events[f] && r'.states[l] == r.states[l];
  }

  lemma ReadEarlier<V>(r: Run<V>, r': Run<V>, i: nat, j: nat, g: nat, value: V, stored: bool)
    requires |r.states| == |r.events| + 1 && |r'.states| == |r'.events| + 1 && Extends(r, r') && j <= i
    requires ReadFrom(r, i, g, value, stored)
    ensures ReadFrom(r', j, g, value, stored)
  {
    var k: nat :| i <= k < |r.events| && r.events[k] == LookUp(g)
                  && if r.states[k].cache.Some? && r.states[k].now < r.states[k].cache.value.expiresAt
                     then r.states[k].cache.value.value == value
                     else LoadedFrom(r, k, g, value, stored);
    assert r'.events[k] == LookUp(g) && r'.states[k] == r.states[k];
    if LoadedFrom(r, k, g, value, stored) {
      LoadedEarlier(r, r', k, k, g, value, stored);
    }
  }

  lemma ExtendsTransitive<V>(a: Run<V>, b: Run<V>, c: Run<V>)
    requires Extends(a, b) && Extends(b, c)
    ensures Extends(a, c)
  {
  }

  class Store<V> {
    const config: Config
    var s: State<V>
    ghost var run: Run<V>

    ghost predicate Valid()
      reads this
    {
      CacheAside.Valid(config, run) && Last(run) == s
    }

    constructor (config: Config, now: int, db: V)
      ensures Valid() && this.config == config && run.events == []
      ensures s == State(now, db, None, None, map[], {})
    {
      this.config := config;
      s := State(now, db, None, None, map[], {});
      run := Run([State(now, db, None, None, map[], {})], []);
    }

    method Do(e: Event<V>)
      requires Valid() && Step(config, s, e).Some?
      modifies this
      ensures Valid() && Some(s) == Step(config, old(s), e)
      ensures run == Run(old(run).states + [s], old(run).events + [e])
    {
      s := Step(config, s, e).value;
      run := Run(run.states + [s], run.events + [e]);
      forall i | 0 <= i < |run.events|
        ensures Step(config, run.states[i], run.events[i]) == Some(run.states[i + 1])
      {
        if i < |old(run).events| {
          assert run.states[i] == old(run).states[i] && run.states[i + 1] == old(run).states[i + 1];
        }
      }
    }

    /** Others act; whatever in `es` is impossible, or is a step of a reader in `mine`, does not happen. */
    method Interfere(mine: set<nat>, es: seq<Event<V>>)
      requires Valid()
      modifies this
      ensures Valid() && Extends(old(run), run) && old(s).writers <= s.writers
      ensures forall g | g in mine :: (g in s.readers <==> g in old(s).readers)
      ensures forall g | g in mine && g in s.readers :: s.readers[g] == old(s).readers[g]
    {
      for i := 0 to |es|
        invariant Valid() && Extends(old(run), run) && old(s).writers <= s.writers
        invariant forall g | g in mine :: (g in s.readers <==> g in old(s).readers)
        invariant forall g | g in mine && g in s.readers :: s.readers[g] == old(s).readers[g]
      {
        if (forall g | g in mine :: !StepOf(es[i], g)) && Step(config, s, es[i]).Some? {
          ghost var before := run;
          Do(es[i]);
          ExtendsTransitive(old(run), before, run);
        }
      }
    }

    /** The rest of a read whose cache look-up missed. */
    method ReadDatabase(g: nat, env: Interference<V>, storable: V -> bool) returns (value: V)
      requires Valid() && g in s.readers && s.readers[g].stage.Missed?
      modifies this
      ensures Valid() && Extends(old(run), run)
      ensures g in s.readers && s.readers[g] == old(s).readers[g].(stage := Ready(value))
      ensures LoadedFrom(run, |old(run).events|, g, value, storable(value))
    {
      Interfere({g}, env.beforeLoad);
      value := s.db;
      ghost var r0 := run;
      Do(Load(g));
      ghost var r1 := run;
      assert r1.events[|r0.events|] == Load(g) && r1.states[|r0.events|].db == value;
      Interfere({g}, env.beforeFill);
      ghost var r2 := run;
      if storable(value) {
        Do(Fill(g));
      } else {
        Do(Keep(g));
      }
      ExtendsTransitive(old(run), r0, r1);
      ExtendsTransitive(old(run), r1, r2);
      ExtendsTransitive(old(run), r2, run);
      assert run.events[|r0.events|] == Load(g) && run.states[|r0.events|] == r1.states[|r0.events|];
      assert run.events[|r2.events|] == if storable(value) then Fill(g) else Keep(g);
    }

    /** GET, and on a miss the database. */
    method LookUpOrLoad(g: nat, env: Interference<V>, storable: V -> bool) returns (value: V)
      requires Valid() && g in s.readers && s.readers[g].stage.Checked?
      modifies this
      ensures Valid() && Extends(old(run), run)
      ensures g in s.readers && s.readers[g] == old(s).readers[g].(stage := Ready(value))
      ensures ReadFrom(run, |old(run).events|, g, value, storable(value))
    {
      ghost var k := |run.events|;
      var cached := if Hit(s) then Some(s.cache.value.value) else None;
      Do(LookUp(g));
      ghost var r1 := run;
      assert r1.events[k] == LookUp(g) && r1.states[k] == old(s);
      if cached.Some? {
        return cached.value;
      }
      value := ReadDatabase(g, env, storable);
      ExtendsTransitive(old(run), r1, run);
      LoadedEarlier(run, run, |r1.events|, k, g, value, storable(value));
      assert run.events[k] == LookUp(g) && run.states[k] == old(s);
    }

    /** The cached read proper, after the tombstone check has passed. */
    method ReadCached(g: nat, env: Interference<V>, storable: V -> bool) returns (value: V)
      requires Valid() && g in s.readers && s.readers[g].stage.Checked?
      modifies this
      ensures Valid() && Extends(old(run), run)
      ensures g in s.readers && s.readers[g] == old(s).readers[g].(stage := Returned(value, s.now))
      ensures ReadFrom(run, |old(run).events|, g, value, storable(value))
    {
      Interfere({g}, env.beforeLookUp);
      ghost var r0 := run;
      value := LookUpOrLoad(g, env, storable);
      ghost var r1 := run;
      Interfere({g}, env.beforeReturn);
      ghost var r2 := run;
      Do(Return(g));
      ExtendsTransitive(old(run), r0, r1);
      ExtendsTransitive(old(run), r1, r2);
      ExtendsTransitive(old(run), r2, run);
      ExtendsTransitive(r1, r2, run);
      ReadEarlier(r1, run, |r0.events|, |old(run).events|, g, value, storable(value));
    }

    /**
     Tombstone check, cached read, and on a miss a database read that is stored when
     `storable` holds of it. None means the tombstone refused the request.
     */
    method ReadThrough(g: nat, env: Interference<V>, storable: V -> bool) returns (data: Option<V>)
      requires Valid() && g !in s.readers
      modifies this
      ensures Valid() && Extends(old(run), run)
      ensures |old(run).events| < |run.events| && run.events[|old(run).events|] == Start(g)
      ensures g in s.readers && s.readers[g].startedAt == old(s).now
      ensures data == None <==> old(s).tombstone.Some? && old(s).now < old(s).tombstone.value
      ensures match data
              case None => s.readers[g].stage == Refused
              case Some(v) =>
                && s.readers[g].stage == Returned(v, s.now)
                && ReadFrom(run, |old(run).events|, g, v, storable(v))
    {
      var tombstone := Marked(s);
      Do(Start(g));
      ghost var first := run;
      if tombstone {
        return None;
      }
      var value := ReadCached(g, env, storable);
      ExtendsTransitive(old(run), first, run);
      ReadEarlier(run, run, |first.events|, |old(run).events|, g, value, storable(value));
      return Some(value);
    }
  }
}

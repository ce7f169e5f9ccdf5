/**
 Invalidating a cached entry: whoever has changed the database deletes the entry. When
 does every reader from then on get a value that the database has held since?
 */
module Invalidation {
  import opened Wrappers
  import opened CacheAside

  /** The database held `v` at some moment from state i to state n. */
  ghost predicate HeldSince<V>(r: Run<V>, i: nat, n: nat, v: V)
    requires n < |r.states|
  {
    exists k :: i <= k <= n && r.states[k].db == v
  }

  predicate HasValue<V>(st: Stage<V>) {
    st.Ready? || st.Returned?
  }

  /** Reader g had got its value by state i. */
  predicate Before<V>(r: Run<V>, i: nat, g: nat)
    requires i < |r.states|
  {
    g in r.states[i].readers && HasValue(r.states[i].readers[g].stage)
  }

  ghost predicate StageCurrent<V>(r: Run<V>, i: nat, n: nat, st: Stage<V>)
    requires n < |r.states|
  {
    match st
    case Loaded(v, _) => HeldSince(r, i, n, v)
    case Ready(v) => HeldSince(r, i, n, v)
    case Returned(v, _) => HeldSince(r, i, n, v)
    case _ => true
  }

  ghost predicate ReaderCurrent<V>(r: Run<V>, i: nat, n: nat, g: nat)
    requires i <= n < |r.states| && g in r.states[n].readers
  {
    var st := r.states[n].readers[g].stage;
    if Before(r, i, g) then HasValue(st) else StageCurrent(r, i, n, st)
  }

  /** At state n, the cache and the readers that have got a value since state i have it from since then. */
  ghost predicate Current<V>(r: Run<V>, i: nat, n: nat)
    requires i <= n < |r.states|
  {
    && (r.states[n].cache.Some? ==> HeldSince(r, i, n, r.states[n].cache.value.value))
    && forall g | g in r.states[n].readers :: ReaderCurrent(r, i, n, g)
  }

  /** No reader is between its SELECT and its SET with a value other than the database's. */
  ghost predicate NoneInFlight<V>(s: State<V>) {
    forall g | g in s.readers && s.readers[g].stage.Loaded? :: s.readers[g].stage.value == s.db
  }

  lemma HeldLater<V>(r: Run<V>, i: nat, n: nat, v: V)
    requires n + 1 < |r.states| && HeldSince(r, i, n, v)
    ensures HeldSince(r, i, n + 1, v)
  {
  }

  lemma HeldNow<V>(r: Run<V>, i: nat, n: nat)
    requires i <= n < |r.states|
    ensures HeldSince(r, i, n, r.states[n].db)
  {
  }

  lemma CurrentAtDelete<V>(c: Config, r: Run<V>, i: nat)
    requires Valid(c, r) && 0 < i < |r.states| && r.events[i - 1] == Delete && NoneInFlight(r.states[i])
    ensures Current(r, i, i)
  {
    assert Step(c, r.states[i - 1], Delete) == Some(r.states[i]);
    HeldNow(r, i, i);
  }

  lemma ReaderCurrentStep<V>(c: Config, r: Run<V>, i: nat, n: nat, g: nat)
    requires Valid(c, r) && i <= n < |r.events| && Current(r, i, n) && g in r.states[n + 1].readers
    ensures ReaderCurrent(r, i, n + 1, g)
  {
    var s, s', e := r.states[n], r.states[n + 1], r.events[n];
    assert Step(c, s, e) == Some(s');
    HeldNow(r, i, n);
    if g in s.readers {
      assert ReaderCurrent(r, i, n, g);
      assert s'.readers[g] == s.readers[g] || e in {LookUp(g), Load(g), Fill(g), Keep(g), Return(g)};
    } else {
      NoReaderYet(c, r, i, n, g);
    }
  }

  /** Readers never go away. */
  lemma {:induction false} NoReaderYet<V>(c: Config, r: Run<V>, i: nat, n: nat, g: nat)
    requires Valid(c, r) && i <= n < |r.states| && g !in r.states[n].readers
    ensures g !in r.states[i].readers
    decreases n
  {
    if i < n {
      assert Step(c, r.states[n - 1], r.events[n - 1]) == Some(r.states[n]);
      NoReaderYet(c, r, i, n - 1, g);
    }
  }

  lemma CurrentStep<V>(c: Config, r: Run<V>, i: nat, n: nat)
    requires Valid(c, r) && i <= n < |r.events| && Current(r, i, n)
    ensures Current(r, i, n + 1)
  {
    var s, s', e := r.states[n], r.states[n + 1], r.events[n];
    assert Step(c, s, e) == Some(s');
    forall g | g in s'.readers ensures ReaderCurrent(r, i, n + 1, g) {
      ReaderCurrentStep(c, r, i, n, g);
    }
    if e.Fill? {
      assert ReaderCurrent(r, i, n, e.g);
    }
  }

  lemma {:induction false} CurrentFrom<V>(c: Config, r: Run<V>, i: nat, n: nat)
    requires Valid(c, r) && i <= n < |r.states| && Current(r, i, i)
    ensures Current(r, i, n)
    decreases n
  {
    if i < n {
      CurrentFrom(c, r, i, n - 1);
      CurrentStep(c, r, i, n - 1);
    }
  }

  // ------------------------------------------------------------------ theorem

  /** A reader that had no value at state i has returned one that the database has not held since. */
  ghost predicate StaleAt<V>(r: Run<V>, i: nat, n: nat, g: nat)
    requires i <= n < |r.states|
  {
    && g in r.states[n].readers && r.states[n].readers[g].stage.Returned? && !Before(r, i, g)
    && forall k | i <= k <= n :: r.states[k].db != r.states[n].readers[g].stage.value
  }

  ghost predicate Clean<V>(r: Run<V>, i: nat) {
    forall n: nat, g: nat | i <= n < |r.states| :: !StaleAt(r, i, n, g)
  }

  ghost predicate Continues<V>(r': Run<V>, r: Run<V>) {
    r.states <= r'.states && r.events <= r'.events
  }

  lemma CleanAfterDelete<V>(c: Config, r: Run<V>, i: nat)
    requires Valid(c, r) && 0 < i < |r.states| && r.events[i - 1] == Delete && NoneInFlight(r.states[i])
    ensures Clean(r, i)
  {
    CurrentAtDelete(c, r, i);
    forall n: nat, g: nat | i <= n < |r.states| && g in r.states[n].readers ensures !StaleAt(r, i, n, g) {
      CurrentFrom(c, r, i, n);
      assert ReaderCurrent(r, i, n, g);
    }
  }

  lemma OneMore<V>(c: Config, r: Run<V>, e: Event<V>, s: State<V>) returns (r': Run<V>)
    requires Valid(c, r) && Step(c, Last(r), e) == Some(s)
    ensures Valid(c, r') && Continues(r', r)
    ensures r'.states == r.states + [s] && |r'.events| == |r.events| + 1
  {
    r' := Run(r.states + [s], r.events + [e]);
  }

  lemma Above(readers: set<nat>) returns (h: nat)
    ensures forall g | g in readers :: g < h
  {
    if readers == {} {
      h := 0;
    } else {
      var g :| g in readers;
      var h' := Above(readers - {g});
      h := if g < h' then h' else g + 1;
      assert forall k | k in readers :: k == g || k in readers - {g};
    }
  }

  /** From the end of r on, the database does not change in r'. */
  ghost predicate SameDatabase<V>(r: Run<V>, r': Run<V>)
    requires 0 < |r.states| <= |r'.states|
  {
    forall k | |r.states| - 1 <= k < |r'.states| :: r'.states[k].db == Last(r).db
  }

  /** Once no tombstone is there, a reader in flight puts the value back that it has read. */
  lemma PutBack<V>(c: Config, r: Run<V>, g: nat, v: V) returns (r': Run<V>)
    requires Valid(c, r) && g in Last(r).readers && Last(r).readers[g].stage.Loaded?
    requires v == Last(r).readers[g].stage.value
    ensures Valid(c, r') && Continues(r', r) && SameDatabase(r, r') && !Marked(Last(r'))
    ensures Last(r').cache == Some(Entry(v, Last(r').now + c.ttl)) && Last(r').readers.Keys == Last(r).readers.Keys
  {
    var s0 := Last(r);
    var d: nat := if Marked(s0) then s0.tombstone.value - s0.now else 0;
    var s1 := s0.(now := s0.now + d);
    var r1 := OneMore(c, r, Tick(d), s1);
    var s2 := At(s1, g, Ready(v)).(cache := Some(Entry(v, s1.now + c.ttl)));
    r' := OneMore(c, r1, Fill(g), s2);
  }

  /** And a new reader finds it. */
  lemma HitReturns<V>(c: Config, r: Run<V>, h: nat) returns (r': Run<V>)
    requires Valid(c, r) && h !in Last(r).readers && Hit(Last(r)) && !Marked(Last(r))
    ensures Valid(c, r') && Continues(r', r) && SameDatabase(r, r')
    ensures h in Last(r').readers && Last(r').readers[h].stage == Returned(Last(r).cache.value.value, Last(r).now)
  {
    var s0, v := Last(r), Last(r).cache.value.value;
    var s1 := s0.(readers := s0.readers[h := Reader(s0.now, Checked)]);
    var r1 := OneMore(c, r, Start(h), s1);
    var s2 := At(s1, h, Ready(v));
    var r2 := OneMore(c, r1, LookUp(h), s2);
    r' := OneMore(c, r2, Return(h), At(s2, h, Returned(v, s2.now)));
  }

  /** A reader in flight puts its old value back, and the next reader gets it. */
  lemma OldValueReturns<V>(c: Config, r: Run<V>, g: nat) returns (r': Run<V>)
    requires Valid(c, r) && 0 < c.ttl
    requires g in Last(r).readers && Last(r).readers[g].stage.Loaded? && Last(r).readers[g].stage.value != Last(r).db
    ensures Valid(c, r') && Continues(r', r) && !Clean(r', |r.events|)
  {
    var v := Last(r).readers[g].stage.value;
    var h := Above(Last(r).readers.Keys);
    var r1 := PutBack(c, r, g, v);
    assert h !in Last(r1).readers.Keys;
    r' := HitReturns(c, r1, h);
    assert r'.states[|r.events|] == Last(r);
    assert StaleAt(r', |r.events|, |r'.events|, h);
  }

  /**
   An invalidation keeps its promise exactly when no read is in flight with another value: a run
   just after a DEL goes on, whatever happens, without any reader that had no value
   yet returning one that the database has not held since, if and only if no reader was between its
   SELECT and its SET with a value other than the database's.
   */
  lemma InvalidationIsCleanIff<V>(c: Config, r: Run<V>)
    requires Valid(c, r) && 0 < c.ttl && r.events != [] && r.events[|r.events| - 1] == Delete
    ensures (forall r' | Valid(c, r') && Continues(r', r) :: Clean(r', |r.events|)) <==>
            forall g | g in Last(r).readers && Last(r).readers[g].stage.Loaded? ::
              Last(r).readers[g].stage.value == Last(r).db
  {
    var i := |r.events|;
    if NoneInFlight(Last(r)) {
      forall r' | Valid(c, r') && Continues(r', r) ensures Clean(r', i) {
        assert r'.states[i] == Last(r) && r'.events[i - 1] == Delete;
        CleanAfterDelete(c, r', i);
      }
    } else {
      var g :| g in Last(r).readers && Last(r).readers[g].stage.Loaded? && Last(r).readers[g].stage.value != Last(r).db;
      var r' := OldValueReturns(c, r, g);
    }
  }
}

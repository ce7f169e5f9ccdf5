/**
 The read-through cache that four services share: look the key up in Redis, on a
 miss read the database, store the answer with a time to live, return it. Every
 access to Redis or to the database is one atomic event, and events of any number
 of readers and writers interleave freely. A key set at time t with lifetime n is
 live while now < t + n. The tombstone key is the extra marker that
 `endImpersonation` writes and that only the session guard looks at; readers of a
 service that has no tombstone simply never find one.
 */
module CacheAside {
  import opened Wrappers

  datatype Entry<V> = Entry(value: V, expiresAt: int)

  /** How far one reader has come. `readAt` is when it read the database. */
  datatype Stage<V> =
    | Refused
    | Checked
    | Missed
    | Loaded(value: V, readAt: int)
    | Ready(value: V)
    | Returned(value: V, at: int)

  datatype Reader<V> = Reader(startedAt: int, stage: Stage<V>)

  datatype State<V> = State(
    now: int,
    db: V,
    cache: Option<Entry<V>>,
    tombstone: Option<int>,
    readers: map<nat, Reader<V>>,
    writers: set<nat>)

  datatype Event<V> =
    | Tick(d: nat)
    | Write(w: nat, value: V)  // a writer commits a new database value
    | Delete                   // DEL of the cached entry, by anyone, at any time
    | Mark(w: nat)             // a writer that has committed sets the tombstone
    | Start(g: nat)            // a reader's first step: the tombstone check
    | LookUp(g: nat)           // GET of the cached entry
    | Load(g: nat)             // SELECT
    | Fill(g: nat)             // SET of the cached entry with its lifetime
    | Keep(g: nat)             // go on without storing (no row was found)
    | Return(g: nat)

  datatype Config = Config(ttl: nat, markTtl: nat)

  function At<V>(s: State<V>, g: nat, st: Stage<V>): State<V>
    requires g in s.readers
  {
    s.(readers := s.readers[g := s.readers[g].(stage := st)])
  }

  predicate Marked<V>(s: State<V>) {
    s.tombstone.Some? && s.now < s.tombstone.value
  }

  predicate Hit<V>(s: State<V>) {
    s.cache.Some? && s.now < s.cache.value.expiresAt
  }

  /** The state after `e`, or None when `e` cannot happen in `s`. */
  function Step<V>(c: Config, s: State<V>, e: Event<V>): Option<State<V>> {
    match e
    case Tick(d) => Some(s.(now := s.now + d))
    case Write(w, v) => Some(s.(db := v, writers := s.writers + {w}))
    case Delete => Some(s.(cache := None))
    case Mark(w) =>
      if w in s.writers then Some(s.(tombstone := Some(s.now + c.markTtl))) else None
    case Start(g) =>
      if g in s.readers then None
      else Some(s.(readers := s.readers[g := Reader(s.now, if Marked(s) then Refused else Checked)]))
    case LookUp(g) =>
      if g !in s.readers || !s.readers[g].stage.Checked? then None
      else Some(At(s, g, if Hit(s) then Ready(s.cache.value.value) else Missed))
    case Load(g) =>
      if g !in s.readers || !s.readers[g].stage.Missed? then None
      else Some(At(s, g, Loaded(s.db, s.now)))
    case Fill(g) =>
      if g !in s.readers || !s.readers[g].stage.Loaded? then None
      else
        var v := s.readers[g].stage.value;
        Some(At(s, g, Ready(v)).(cache := Some(Entry(v, s.now + c.ttl))))
    case Keep(g) =>
      if g !in s.readers || !s.readers[g].stage.Loaded? then None
      else Some(At(s, g, Ready(s.readers[g].stage.value)))
    case Return(g) =>
      if g !in s.readers || !s.readers[g].stage.Ready? then None
      else Some(At(s, g, Returned(s.readers[g].stage.value, s.now)))
  }

  // ---------------------------------------------------------------- runs

  /** A run: states[i] becomes states[i + 1] by events[i]. */
  datatype Run<V> = Run(states: seq<State<V>>, events: seq<Event<V>>)

  ghost predicate Initial<V>(s: State<V>) {
    s.cache == None && s.tombstone == None && s.readers == map[] && s.writers == {}
  }

  ghost predicate Valid<V>(c: Config, r: Run<V>) {
    && |r.states| == |r.events| + 1
    && Initial(r.states[0])
    && forall i | 0 <= i < |r.events| :: Step(c, r.states[i], r.events[i]) == Some(r.states[i + 1])
  }

  function Last<V>(r: Run<V>): State<V>
    requires r.states != []
  {
    r.states[|r.states| - 1]
  }

  /** No reader takes more than `latency` between its SELECT and its SET. */
  ghost predicate Timely<V>(r: Run<V>, latency: int)
    requires |r.states| == |r.events| + 1
  {
    forall i | 0 <= i < |r.events| && r.events[i].Fill? :: FilledInTime(r.states[i], r.events[i].g, latency)
  }

  ghost predicate FilledInTime<V>(s: State<V>, g: nat, latency: int) {
    g in s.readers && s.readers[g].stage.Loaded? ==> s.now - s.readers[g].stage.readAt <= latency
  }

  lemma {:induction false} ClockMonotone<V>(c: Config, r: Run<V>, i: nat, j: nat)
    requires Valid(c, r) && i <= j < |r.states|
    ensures r.states[i].now <= r.states[j].now
    decreases j
  {
    if i < j {
      ClockMonotone(c, r, i, j - 1);
      assert Step(c, r.states[j - 1], r.events[j - 1]) == Some(r.states[j]);
    }
  }

  // ------------------------------------------------------- bounded staleness

  /** The database held `v` at some moment of the run up to state n, at time t or later. */
  ghost predicate Seen<V>(r: Run<V>, n: nat, v: V, t: int)
    requires n < |r.states|
  {
    exists k :: 0 <= k <= n && r.states[k].db == v && r.states[k].now >= t
  }

  ghost predicate StageFresh<V>(c: Config, r: Run<V>, latency: int, n: nat, rd: Reader<V>)
    requires n < |r.states|
  {
    && rd.startedAt <= r.states[n].now
    && match rd.stage {
         case Loaded(v, at) => rd.startedAt <= at && Seen(r, n, v, at)
         case Ready(v) => Seen(r, n, v, rd.startedAt - c.ttl - latency + 1)
         case Returned(v, _) => Seen(r, n, v, rd.startedAt - c.ttl - latency + 1)
         case _ => true
       }
  }

  ghost predicate Fresh<V>(c: Config, r: Run<V>, latency: int, n: nat)
    requires n < |r.states|
  {
    var s := r.states[n];
    && (s.cache.Some? ==> Seen(r, n, s.cache.value.value, s.cache.value.expiresAt - c.ttl - latency))
    && forall g | g in s.readers :: StageFresh(c, r, latency, n, s.readers[g])
  }

  lemma SeenLater<V>(r: Run<V>, n: nat, v: V, t: int, t': int)
    requires n + 1 < |r.states| && Seen(r, n, v, t) && t' <= t
    ensures Seen(r, n + 1, v, t')
  {
    var k :| 0 <= k <= n && r.states[k].db == v && r.states[k].now >= t;
    assert r.states[k].now >= t';
  }

  lemma SeenNow<V>(r: Run<V>, n: nat)
    requires n < |r.states|
    ensures Seen(r, n, r.states[n].db, r.states[n].now)
  {
  }

  lemma StageFreshLater<V>(c: Config, r: Run<V>, latency: int, n: nat, rd: Reader<V>)
    requires n + 1 < |r.states| && r.states[n].now <= r.states[n + 1].now
    requires StageFresh(c, r, latency, n, rd)
    ensures StageFresh(c, r, latency, n + 1, rd)
  {
    match rd.stage
    case Loaded(v, at) => SeenLater(r, n, v, at, at);
    case Ready(v) => SeenLater(r, n, v, rd.startedAt - c.ttl - latency + 1, rd.startedAt - c.ttl - latency + 1);
    case Returned(v, _) => SeenLater(r, n, v, rd.startedAt - c.ttl - latency + 1, rd.startedAt - c.ttl - latency + 1);
    case _ =>
  }

  lemma FreshStep<V>(c: Config, r: Run<V>, latency: int, n: nat)
    requires Valid(c, r) && Timely(r, latency) && 0 < c.ttl && 0 <= latency
    requires n < |r.events| && Fresh(c, r, latency, n)
    ensures Fresh(c, r, latency, n + 1)
  {
    var s, s', e := r.states[n], r.states[n + 1], r.events[n];
    assert Step(c, s, e) == Some(s');
    if s.cache.Some? {
      var t := s.cache.value.expiresAt - c.ttl - latency;
      SeenLater(r, n, s.cache.value.value, t, t);
    }
    forall g | g in s'.readers ensures StageFresh(c, r, latency, n + 1, s'.readers[g]) {
      if g in s.readers {
        StageFreshLater(c, r, latency, n, s.readers[g]);
        if e == LookUp(g) && Hit(s) {
          SeenLater(r, n, s.cache.value.value, s.cache.value.expiresAt - c.ttl - latency,
                    s.readers[g].startedAt - c.ttl - latency + 1);
        } else if e == Load(g) {
          SeenNow(r, n);
          SeenLater(r, n, s.db, s.now, s.now);
        } else if e == Fill(g) || e == Keep(g) {
          SeenLater(r, n, s.readers[g].stage.value, s.readers[g].stage.readAt,
                    s.readers[g].startedAt - c.ttl - latency + 1);
        }
      }
    }
    if e.Fill? {
      var st := s.readers[e.g].stage;
      assert FilledInTime(s, e.g, latency);
      assert StageFresh(c, r, latency, n, s.readers[e.g]);
      SeenLater(r, n, st.value, st.readAt, s.now - latency);
    }
  }

  lemma {:induction false} FreshAlways<V>(c: Config, r: Run<V>, latency: int, n: nat)
    requires Valid(c, r) && Timely(r, latency) && 0 < c.ttl && 0 <= latency && n < |r.states|
    ensures Fresh(c, r, latency, n)
  {
    if n > 0 {
      FreshAlways(c, r, latency, n - 1);
      FreshStep(c, r, latency, n - 1);
    }
  }

  /**
   Bounded staleness: whatever a reader returns was the database's value at some
   moment less than ttl + latency before the reader's first step.
   */
  lemma BoundedStaleness<V>(c: Config, r: Run<V>, latency: int, n: nat, g: nat) returns (k: nat)
    requires Valid(c, r) && Timely(r, latency) && 0 < c.ttl && 0 <= latency
    requires n < |r.states| && g in r.states[n].readers && r.states[n].readers[g].stage.Returned?
    ensures k <= n
    ensures r.states[k].db == r.states[n].readers[g].stage.value
    ensures r.states[k].now > r.states[n].readers[g].startedAt - (c.ttl + latency)
  {
    FreshAlways(c, r, latency, n);
    var rd := r.states[n].readers[g];
    assert StageFresh(c, r, latency, n, rd);
    assert Seen(r, n, rd.stage.value, rd.startedAt - c.ttl - latency + 1);
    k :| 0 <= k <= n && r.states[k].db == rd.stage.value
         && r.states[k].now >= rd.startedAt - c.ttl - latency + 1;
  }

  /** The run that reads `v`, is overtaken by a write of `v'`, and serves `v` as late as possible. */
  function StaleRun<V>(c: Config, latency: nat, v: V, v': V): Run<V>
    requires 0 < c.ttl
  {
    var s0 := State(0, v, None, None, map[], {});
    var es := [Start(1), LookUp(1), Load(1), Write(0, v'), Tick(latency), Fill(1), Tick(c.ttl - 1),
               Start(2), LookUp(2), Return(2)];
    var s1 := s0.(readers := map[1 := Reader(0, Checked)]);
    var s2 := At(s1, 1, Missed);
    var s3 := At(s2, 1, Loaded(v, 0));
    var s4 := s3.(db := v', writers := {0});
    var s5 := s4.(now := latency);
    var s6 := At(s5, 1, Ready(v)).(cache := Some(Entry(v, latency + c.ttl)));
    var s7 := s6.(now := latency + c.ttl - 1);
    var s8 := s7.(readers := s7.readers[2 := Reader(s7.now, Checked)]);
    var s9 := At(s8, 2, Ready(v));
    var s10 := At(s9, 2, Returned(v, s9.now));
    Run([s0, s1, s2, s3, s4, s5, s6, s7, s8, s9, s10], es)
  }

  /**
   The bound cannot be improved: for every latency there is a run in which reader 2
   returns a value that was last in the database exactly ttl + latency - 1 before it began.
   */
  lemma StalenessIsTight<V>(c: Config, latency: nat, v: V, v': V)
    requires 0 < c.ttl && v != v'
    ensures var r := StaleRun(c, latency, v, v');
            && Valid(c, r) && Timely(r, latency)
            && 2 in Last(r).readers && Last(r).readers[2].stage == Returned(v, Last(r).now)
            && forall k | 0 <= k < |r.states| && r.states[k].db == v ::
                 r.states[k].now <= Last(r).readers[2].startedAt - (c.ttl + latency - 1)
  {
    var r := StaleRun(c, latency, v, v');
    forall i | 0 <= i < |r.events| ensures Step(c, r.states[i], r.events[i]) == Some(r.states[i + 1]) {
      if i < 5 { StaleRunHead(c, latency, v, v', i); } else { StaleRunTail(c, latency, v, v', i); }
    }
  }

  lemma StaleRunHead<V>(c: Config, latency: nat, v: V, v': V, i: nat)
    requires 0 < c.ttl && i < 5
    ensures var r := StaleRun(c, latency, v, v'); Step(c, r.states[i], r.events[i]) == Some(r.states[i + 1])
  {
    var r := StaleRun(c, latency, v, v');
    assert r.states[0].readers[1 := Reader(0, Checked)] == r.states[1].readers;
    assert r.states[3].writers + {0} == r.states[4].writers;
  }

  lemma StaleRunTail<V>(c: Config, latency: nat, v: V, v': V, i: nat)
    requires 0 < c.ttl && 5 <= i < 10
    ensures var r := StaleRun(c, latency, v, v'); Step(c, r.states[i], r.events[i]) == Some(r.states[i + 1])
  {
  }
}

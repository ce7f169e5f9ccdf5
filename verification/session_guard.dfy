/**
 The impersonation session guard. The cached value is the session row. A session is
 ended by `endImpersonation` (update the row, then delete the cache entry and set the
 tombstone, in either order) or by `suspendReseller` (which deletes the cache entry and
 updates the row, with no tombstone). Times are in milliseconds.
 */
module SessionGuard {
  import opened Wrappers
  import opened CacheAside
  import opened Gateway

  datatype EndedReason = Manual | Revoked

  datatype Session = Session(endedAt: Option<int>, endedReason: Option<EndedReason>, expiresAt: int)

  const SESSION_CACHE_TTL: nat := 60_000
  const TOMBSTONE_TTL: nat := 70_000
  const SLACK: nat := TOMBSTONE_TTL - SESSION_CACHE_TTL
  const GUARD: Config := Config(SESSION_CACHE_TTL, TOMBSTONE_TTL)

  /** The guard's verdict on the row it looked at; no row means the session was not found. */
  predicate Accepts(row: Option<Session>, now: int) {
    && row.Some?
    && row.value.endedAt.None?
    && row.value.endedReason != Some(Revoked)
    && !(row.value.expiresAt < now)
  }

  predicate Ended(row: Option<Session>) {
    row.None? || row.value.endedAt.Some?
  }

  predicate Admitted(rd: Reader<Option<Session>>) {
    rd.stage.Returned? && Accepts(rd.stage.value, rd.stage.at)
  }

  /** The only thing any writer does to a session row is to end it at the current time. */
  ghost predicate EndsRow(s: State<Option<Session>>, v: Option<Session>) {
    s.db.Some? && exists reason :: v == Some(s.db.value.(endedAt := Some(s.now), endedReason := Some(reason)))
  }

  ghost predicate SessionRun(r: Run<Option<Session>>)
    requires |r.states| == |r.events| + 1
  {
    forall i | 0 <= i < |r.events| && r.events[i].Write? :: EndsRow(r.states[i], r.events[i].value)
  }

  // ---------------------------------------------------------------- invariants

  /** The lifetimes that the guard and the end of a session give their keys: 60 s and 70 s. */
  lemma Lifetimes(s: State<Option<Session>>, g: nat, w: nat)
    ensures Step(GUARD, s, Fill(g)).Some? ==>
              g in s.readers && s.readers[g].stage.Loaded?
              && Step(GUARD, s, Fill(g)).value.cache == Some(Entry(s.readers[g].stage.value, s.now + 60_000))
    ensures Step(GUARD, s, Mark(w)).Some? ==> Step(GUARD, s, Mark(w)).value.tombstone == Some(s.now + 70_000)
  {
  }

  /** What holds of every reachable state. */
  ghost predicate Sane(s: State<Option<Session>>) {
    && (s.writers != {} ==> Ended(s.db))
    && (s.cache.Some? ==> s.cache.value.expiresAt <= s.now + SESSION_CACHE_TTL)
    && forall g | g in s.readers :: s.readers[g].stage.Loaded? ==> s.readers[g].stage.readAt <= s.now
  }

  lemma {:induction false} SaneAlways(r: Run<Option<Session>>, n: nat)
    requires Valid(GUARD, r) && SessionRun(r) && n < |r.states|
    ensures Sane(r.states[n])
  {
    if n > 0 {
      SaneAlways(r, n - 1);
      var e := r.events[n - 1];
      assert Step(GUARD, r.states[n - 1], e) == Some(r.states[n]);
      if e.Write? {
        assert EndsRow(r.states[n - 1], e.value);
      }
    }
  }

  lemma {:induction false} EndedForever(r: Run<Option<Session>>, i: nat, j: nat)
    requires Valid(GUARD, r) && SessionRun(r) && i <= j < |r.states| && Ended(r.states[i].db)
    ensures Ended(r.states[j].db)
    decreases j
  {
    if i < j {
      EndedForever(r, i, j - 1);
      assert Step(GUARD, r.states[j - 1], r.events[j - 1]) == Some(r.states[j]);
    }
  }

  /** A late guard is refused, or still waiting, or holds a row that says the session ended. */
  ghost predicate LateStage(st: Stage<Option<Session>>, now: int, marked: int) {
    match st
    case Refused => true
    case Checked => now >= marked + TOMBSTONE_TTL
    case Missed => true
    case Loaded(v, _) => Ended(v)
    case Ready(v) => Ended(v)
    case Returned(v, _) => Ended(v)
  }

  /** What holds from the moment `marked` at which a tombstone was set; `early` are the guards already running. */
  ghost predicate Settled(s: State<Option<Session>>, marked: int, early: set<nat>) {
    && Ended(s.db)
    && s.now >= marked
    && s.tombstone.Some? && s.tombstone.value >= marked + TOMBSTONE_TTL
    && (s.cache.Some? && !Ended(s.cache.value.value) ==> s.cache.value.expiresAt <= marked + TOMBSTONE_TTL)
    && forall g | g in s.readers ::
         && (s.readers[g].stage.Loaded? && !Ended(s.readers[g].stage.value) ==> s.readers[g].stage.readAt <= marked)
         && (g !in early ==> LateStage(s.readers[g].stage, s.now, marked))
  }

  lemma SettledStep(s: State<Option<Session>>, e: Event<Option<Session>>, s': State<Option<Session>>,
                    marked: int, early: set<nat>)
    requires Settled(s, marked, early) && Step(GUARD, s, e) == Some(s')
    requires e.Write? ==> EndsRow(s, e.value)
    requires e.Fill? ==> FilledInTime(s, e.g, SLACK)
    ensures Settled(s', marked, early)
  {
  }

  lemma {:induction false} SettledAfterMark(r: Run<Option<Session>>, a: nat, n: nat)
    requires Valid(GUARD, r) && SessionRun(r) && Timely(r, SLACK)
    requires a < n < |r.states| && r.events[a].Mark?
    ensures Settled(r.states[n], r.states[a].now, r.states[a].readers.Keys)
    decreases n
  {
    assert Step(GUARD, r.states[n - 1], r.events[n - 1]) == Some(r.states[n]);
    if n == a + 1 {
      SaneAlways(r, a);
    } else {
      SettledAfterMark(r, a, n - 1);
      SettledStep(r.states[n - 1], r.events[n - 1], r.states[n], r.states[a].now, r.states[a].readers.Keys);
    }
  }

  // ------------------------------------------------------------------ theorems

  /**
   If no guard takes more than 10 s between its database read and its cache fill, every
   guard whose first step comes after the tombstone write is turned away, however long
   after: also when the tombstone itself has expired. It is given no row that is not ended.
   */
  lemma LateGuardsTurnedAway(r: Run<Option<Session>>, a: nat, n: nat, g: nat)
    requires Valid(GUARD, r) && SessionRun(r) && Timely(r, 10_000)
    requires a < n < |r.states| && r.events[a].Mark?
    requires g in r.states[n].readers && g !in r.states[a].readers
    ensures !Admitted(r.states[n].readers[g])
    ensures var stage := r.states[n].readers[g].stage;
            stage.Returned? ==> stage.value.None? || stage.value.value.endedAt.Some?
  {
    SettledAfterMark(r, a, n);
  }

  /** The design's safety claim for a given bound on the fill latency. */
  ghost predicate TombstoneHolds(latency: int) {
    forall r: Run<Option<Session>>, a: nat, g: nat ::
      Valid(GUARD, r) && SessionRun(r) && Timely(r, latency)
      && a < |r.events| && r.events[a].Mark? && g !in r.states[a].readers && g in Last(r).readers
      ==> !Admitted(Last(r).readers[g])
  }

  const OPEN: Session := Session(None, None, 3_600_000)
  const CLOSED: Session := Session(Some(0), Some(Manual), 3_600_000)

  /** Guard 1 fills the cache one millisecond too late; guard 2 starts as the tombstone expires. */
  function LateFillRun(): Run<Option<Session>> {
    var s0 := State(0, Some(OPEN), None, None, map[], {});
    var es := [Start(1), LookUp(1), Load(1), Write(0, Some(CLOSED)), Delete, Mark(0), Tick(SLACK + 1), Fill(1),
               Tick(SESSION_CACHE_TTL - 1), Start(2), LookUp(2), Return(2)];
    var s1 := s0.(readers := map[1 := Reader(0, Checked)]);
    var s2 := At(s1, 1, Missed);
    var s3 := At(s2, 1, Loaded(Some(OPEN), 0));
    var s4 := s3.(db := Some(CLOSED), writers := {0});
    var s6 := s4.(tombstone := Some(TOMBSTONE_TTL));
    var s7 := s6.(now := SLACK + 1);
    var s8 := At(s7, 1, Ready(Some(OPEN))).(cache := Some(Entry(Some(OPEN), TOMBSTONE_TTL + 1)));
    var s9 := s8.(now := TOMBSTONE_TTL);
    var s10 := s9.(readers := s9.readers[2 := Reader(TOMBSTONE_TTL, Checked)]);
    var s11 := At(s10, 2, Ready(Some(OPEN)));
    var s12 := At(s11, 2, Returned(Some(OPEN), TOMBSTONE_TTL));
    Run([s0, s1, s2, s3, s4, s4, s6, s7, s8, s9, s10, s11, s12], es)
  }

  lemma LateFillRunStep(i: nat)
    requires i < 12
    ensures var r := LateFillRun(); Step(GUARD, r.states[i], r.events[i]) == Some(r.states[i + 1])
  {
    var r := LateFillRun();
    if i == 0 {
      assert r.states[0].readers[1 := Reader(0, Checked)] == r.states[1].readers;
    } else if i == 3 {
      assert r.states[3].writers + {0} == r.states[4].writers;
    }
  }

  lemma LateFillRunAdmits()
    ensures var r := LateFillRun();
            Valid(GUARD, r) && SessionRun(r) && Timely(r, SLACK + 1) && Admitted(Last(r).readers[2])
  {
    var r := LateFillRun();
    forall i | 0 <= i < |r.events| ensures Step(GUARD, r.states[i], r.events[i]) == Some(r.states[i + 1]) {
      LateFillRunStep(i);
    }
    forall i | 0 <= i < |r.events| && r.events[i].Write? ensures EndsRow(r.states[i], r.events[i].value) {
      assert i == 3 && r.events[3].value == Some(OPEN.(endedAt := Some(0), endedReason := Some(Manual)));
    }
  }

  /** The 10 s are exactly what the two lifetimes buy: the claim holds for a latency bound iff it is at most that. */
  lemma TombstoneHoldsIffWithinSlack(latency: int)
    ensures TombstoneHolds(latency) <==> latency <= 10_000
  {
    if latency <= SLACK {
      forall r: Run<Option<Session>>, a: nat, g: nat |
        Valid(GUARD, r) && SessionRun(r) && Timely(r, latency)
        && a < |r.events| && r.events[a].Mark? && g !in r.states[a].readers && g in Last(r).readers
        ensures !Admitted(Last(r).readers[g])
      {
        forall i | 0 <= i < |r.events| && r.events[i].Fill?
          ensures FilledInTime(r.states[i], r.events[i].g, SLACK)
        {
          assert FilledInTime(r.states[i], r.events[i].g, latency);
        }
        LateGuardsTurnedAway(r, a, |r.states| - 1, g);
      }
    } else {
      LateFillRunAdmits();
      var r := LateFillRun();
      forall i | 0 <= i < |r.events| && r.events[i].Fill?
        ensures FilledInTime(r.states[i], r.events[i].g, latency)
      {
        assert FilledInTime(r.states[i], r.events[i].g, SLACK + 1);
      }
      assert r.events[5].Mark? && 2 !in r.states[5].readers && 2 in Last(r).readers;
    }
  }

  /**
   Without a tombstone (reseller suspension) the cache lifetime is the bound: a guard
   that starts the cache lifetime plus the fill latency after the commit at c is turned away.
   */
  lemma SuspendedSessionTurnedAway(r: Run<Option<Session>>, latency: int, c: nat, n: nat, g: nat)
    requires Valid(GUARD, r) && SessionRun(r) && Timely(r, latency) && 0 <= latency
    requires c < |r.events| && r.events[c].Write?
    requires n < |r.states| && g in r.states[n].readers
    requires r.states[n].readers[g].startedAt >= r.states[c].now + 60_000 + latency
    ensures !Admitted(r.states[n].readers[g])
  {
    if Admitted(r.states[n].readers[g]) {
      var k := BoundedStaleness(GUARD, r, latency, n, g);
      if k <= c {
        ClockMonotone(GUARD, r, k, c);
      } else {
        assert Step(GUARD, r.states[c], r.events[c]) == Some(r.states[c + 1]);
        SaneAlways(r, c + 1);
        EndedForever(r, c + 1, k);
      }
    }
  }

  // ------------------------------------------------------------- sessions expire

  /** Whatever row is about says that the session expires at t. */
  predicate ExpiresAt(row: Option<Session>, t: int) {
    row.Some? ==> row.value.expiresAt == t
  }

  ghost predicate StageExpiresAt(stage: Stage<Option<Session>>, t: int) {
    match stage
    case Loaded(v, _) => ExpiresAt(v, t)
    case Ready(v) => ExpiresAt(v, t)
    case Returned(v, _) => ExpiresAt(v, t)
    case _ => true
  }

  ghost predicate AllExpireAt(s: State<Option<Session>>, t: int) {
    && ExpiresAt(s.db, t)
    && (s.cache.Some? ==> ExpiresAt(s.cache.value.value, t))
    && forall g | g in s.readers :: StageExpiresAt(s.readers[g].stage, t)
  }

  lemma {:induction false} ExpiryNeverChanges(r: Run<Option<Session>>, n: nat, t: int)
    requires Valid(GUARD, r) && SessionRun(r) && n < |r.states| && ExpiresAt(r.states[0].db, t)
    ensures AllExpireAt(r.states[n], t)
  {
    if n > 0 {
      ExpiryNeverChanges(r, n - 1, t);
      var s, s', e := r.states[n - 1], r.states[n], r.events[n - 1];
      assert Step(GUARD, s, e) == Some(s');
      if e.Write? {
        assert EndsRow(s, e.value);
      }
      forall g | g in s'.readers ensures StageExpiresAt(s'.readers[g].stage, t) {
        assert g in s.readers ==> StageExpiresAt(s.readers[g].stage, t);
      }
    }
  }

  /** No guard that returns after the session has expired lets the request through, whatever the cache holds. */
  lemma ExpiredSessionTurnedAway(r: Run<Option<Session>>, n: nat, g: nat)
    requires Valid(GUARD, r) && SessionRun(r) && n < |r.states| && g in r.states[n].readers
    requires r.states[0].db.Some? && r.states[n].readers[g].stage.Returned?
    requires r.states[0].db.value.expiresAt < r.states[n].readers[g].stage.at
    ensures !Admitted(r.states[n].readers[g])
  {
    ExpiryNeverChanges(r, n, r.states[0].db.value.expiresAt);
    assert StageExpiresAt(r.states[n].readers[g].stage, r.states[0].db.value.expiresAt);
  }

  // ------------------------------------------------------------- the guard itself

  /**
   `canActivate` for a request that carries an impersonation claim. It is accepted exactly
   when no tombstone was live at its first step and the row it was given, from the cache or
   from the database, is one of a session neither ended nor revoked nor expired by now. A
   row that was loaded is stored, and a missing one is not. It is accepted only if no
   tombstone was ever written before the request's first step.
   */
  method CanActivate(store: Store<Option<Session>>, g: nat, env: Interference<Option<Session>>) returns (accepted: bool)
    requires store.Valid() && store.config == GUARD && g !in store.s.readers
    modifies store
    ensures store.Valid() && Extends(old(store.run), store.run)
    ensures g in store.s.readers && accepted == Admitted(store.s.readers[g])
    ensures var marked := old(store.s).tombstone.Some? && old(store.s).now < old(store.s).tombstone.value;
            var stage := store.s.readers[g].stage;
            && (stage.Returned? <==> !marked)
            && (accepted <==>
                  && !marked && stage.value.Some?
                  && stage.value.value.endedAt == None
                  && stage.value.value.endedReason != Some(Revoked)
                  && stage.value.value.expiresAt >= store.s.now)
            && (!marked ==> ReadFrom(store.run, |old(store.run).events|, g, stage.value, stage.value.Some?))
    ensures accepted && SessionRun(store.run) && Timely(store.run, 10_000) ==>
              forall e | e in old(store.run).events :: !e.Mark?
  {
    ghost var before := store.run;
    var data := store.ReadThrough(g, env, (row: Option<Session>) => row.Some?);
    if data.None? {
      accepted := false;
    } else {
      accepted := Accepts(data.value, store.s.now);
    }
    if accepted && SessionRun(store.run) && Timely(store.run, 10_000) {
      forall e | e in before.events ensures !e.Mark? {
        var a :| 0 <= a < |before.events| && before.events[a] == e;
        if e.Mark? {
          assert before.events[a] == store.run.events[a] && before.states[a] == store.run.states[a];
          StillAbsent(before, a, g);
          LateGuardsTurnedAway(store.run, a, |store.run.states| - 1, g);
        }
      }
    }
  }

  datatype EndError = NotFound | AlreadyEnded | NotAuthorized

  /**
   `endImpersonation`: check the row, end it, then delete the cache entry and set the
   tombstone concurrently (`markFirst` says which lands first). `authorized` is the test
   that the caller is the impersonator or the target. Others act after the update.
   */
  method EndImpersonation(store: Store<Option<Session>>, w: nat, authorized: bool, markFirst: bool,
                          afterUpdate: seq<Event<Option<Session>>>, between: seq<Event<Option<Session>>>)
    returns (r: Result<int, EndError>)
    requires store.Valid() && store.config == GUARD
    modifies store
    ensures store.Valid() && Extends(old(store.run), store.run)
    ensures old(store.s).db.None? ==> r == Err(NotFound)
    ensures old(store.s).db.Some? && old(store.s).db.value.endedAt.Some? ==> r == Err(AlreadyEnded)
    ensures old(store.s).db.Some? && old(store.s).db.value.endedAt.None? ==>
              r == if authorized then Ok(old(store.s).now) else Err(NotAuthorized)
    ensures r.Err? ==> store.run == old(store.run)
    ensures r.Ok? ==> exists a, d | |old(store.run).events| < a < |store.run.events|
                                    && |old(store.run).events| < d < |store.run.events| ::
              && store.run.events[a] == Mark(w) && store.run.events[d] == Delete && (a < d <==> markFirst)
    ensures r.Ok? ==>
              && old(store.s).db.Some? && |old(store.run).events| < |store.run.events|
              && var row := old(store.s).db.value;
              store.run.events[|old(store.run).events|] ==
              Write(w, Some(row.(endedAt := Some(old(store.s).now), endedReason := Some(Manual))))
  {
    var row := store.s.db;
    if row.None? {
      return Err(NotFound);
    }
    if row.value.endedAt.Some? {
      return Err(AlreadyEnded);
    }
    if !authorized {
      return Err(NotAuthorized);
    }
    ghost var c := |store.run.events|;
    var ended := Some(row.value.(endedAt := Some(store.s.now), endedReason := Some(Manual)));
    store.Do(Write(w, ended));
    r := Ok(store.s.now);
    ghost var updated := store.run;
    assert EndsRow(updated.states[c], ended);
    store.Interfere({}, afterUpdate);
    ghost var a, d := DeleteAndMark(store, w, markFirst, between);
    assert updated.events[c] == Write(w, ended);
  }

  /** The cache entry deleted and the tombstone set, in either order. */
  method DeleteAndMark(store: Store<Option<Session>>, w: nat, markFirst: bool, between: seq<Event<Option<Session>>>)
    returns (ghost a: nat, ghost d: nat)
    requires store.Valid() && store.config == GUARD && w in store.s.writers
    modifies store
    ensures store.Valid() && Extends(old(store.run), store.run)
    ensures |old(store.run).events| <= a < |store.run.events| && store.run.events[a] == Mark(w)
    ensures |old(store.run).events| <= d < |store.run.events| && store.run.events[d] == Delete
    ensures a < d <==> markFirst
  {
    if markFirst {
      a := |store.run.events|;
      store.Do(Mark(w));
      ghost var marked := store.run;
      store.Interfere({}, between);
      d := |store.run.events|;
      store.Do(Delete);
      assert marked.events[a] == Mark(w);
    } else {
      d := |store.run.events|;
      store.Do(Delete);
      ghost var deleted := store.run;
      store.Interfere({}, between);
      a := |store.run.events|;
      store.Do(Mark(w));
      assert deleted.events[d] == Delete;
    }
  }

  /** A reader that is not there at the end of a run was never there. */
  lemma {:induction false} StillAbsent(r: Run<Option<Session>>, a: nat, g: nat)
    requires Valid(GUARD, r) && a < |r.states| && g !in Last(r).readers
    ensures g !in r.states[a].readers
    decreases |r.states| - a
  {
    if a + 1 < |r.states| {
      StillAbsent(r, a + 1, g);
      assert Step(GUARD, r.states[a], r.events[a]) == Some(r.states[a + 1]);
    }
  }
}

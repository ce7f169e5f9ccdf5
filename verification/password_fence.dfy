/**
 The password fence in every intermediate state. A refresh is taken apart into its
 validation, the revocation of the old token and the insertion of the new one, and may be
 given up in between; a password change into the update of the user and the revocation of
 the user's tokens. The pieces of any number of refreshes and changes, and logins, logouts
 and other revocations (those of a failed validation among them), are interleaved in any
 order. Here a refresh may even renew before it has revoked its own token, which the
 service never does: what holds of every run holds of the service's. Where the order
 matters, runs are `Orderly`.
 */
module PasswordFence {
  import opened Wrappers
  import opened RefreshTokens
  import opened Runs

  /** The database, and the token that each refresh in flight has validated. */
  datatype Flight = Flight(db: State, held: map<nat, nat>)

  datatype Action =
    | Check(g: nat, raw: Raw)
    | RetireOld(g: nat)
    | Renew(g: nat, minted: Raw)
    | Abandon(g: nat)    // no membership, or the process dies
    | UpdatePassword(user: nat)
    | RevokeAll(user: nat, reason: Reason)
    | RevokeSome(ids: set<nat>, why: Option<Reason>)
    | LogIn(user: nat, scope: Scope, minted: Raw)
    | Pass(micros: nat)

  ghost predicate Enabled(s: Flight, a: Action) {
    match a
    case Check(g, _) => g !in s.held
    case RetireOld(g) => g in s.held
    case Abandon(g) => g in s.held
    case Renew(g, minted) => g in s.held && s.held[g] in s.db.tokens && minted.Signed? && minted.tokenId !in s.db.tokens
    case LogIn(user, _, minted) => user in s.db.users && minted.Signed? && minted.tokenId !in s.db.tokens
    case UpdatePassword(user) => user in s.db.users
    case _ => true
  }

  ghost function Next(s: Flight, a: Action): Flight
    requires Enabled(s, a)
  {
    match a
    case Check(g, raw) =>
      var v := Validate(s.db, raw);
      if v.Accept? then s.(held := s.held[g := v.id]) else s
    case RetireOld(g) => s.(db := Retire(s.db, {s.held[g]}, Some(Rotation)))
    case Renew(g, minted) =>
      var t := s.db.tokens[s.held[g]];
      Flight(Create(s.db, minted, t.user, t.scope, t.lineage), s.held - {g})
    case Abandon(g) => s.(held := s.held - {g})
    case UpdatePassword(user) => s.(db := SetPassword(s.db, user))
    case RevokeAll(user, reason) => s.(db := Retire(s.db, LiveOf(s.db, user), Some(reason)))
    case RevokeSome(ids, why) => s.(db := Retire(s.db, ids, why))
    case LogIn(user, scope, minted) => s.(db := Begin(s.db, minted, user, scope))
    case Pass(micros) => s.(db := s.db.(now := s.db.now + micros))
  }

  ghost function Taken(s: Flight, a: Action): Option<Flight> {
    if Enabled(s, a) then Some(Next(s, a)) else None
  }

  ghost predicate Interleaved(r: Run<Flight, Action>) {
    IsRun(Taken, r)
  }

  /** The rows are as they should be, and refreshes hold rows of the table. */
  ghost predicate Sound(s: Flight) {
    RowsOk(s.db) && forall g | g in s.held :: s.held[g] in s.db.tokens
  }

  lemma NextRowsOk(s: Flight, a: Action)
    requires Enabled(s, a) && RowsOk(s.db)
    ensures RowsOk(Next(s, a).db)
  {
  }

  /** In every interleaving, from a sound state on, every state is sound. */
  lemma {:induction false} AlwaysSound(r: Run<Flight, Action>, n: nat)
    requires Interleaved(r) && Sound(r.states[0]) && n < |r.states|
    ensures Sound(r.states[n])
  {
    if n > 0 {
      AlwaysSound(r, n - 1);
      assert Follows(Taken, r, n - 1);
      NextRowsOk(r.states[n - 1], r.calls[n - 1]);
    }
  }

  // ------------------------------------------------------ after the update

  /** The user's password was last changed at or after `at`. */
  ghost predicate ChangedSince(s: State, user: nat, at: int) {
    s.now >= at && user in s.users && s.users[user].Some? && s.users[user].value >= at
  }

  lemma {:induction false} ChangedFromNowOn(r: Run<Flight, Action>, i: nat, j: nat)
    requires Interleaved(r) && i < j < |r.states| && r.calls[i].UpdatePassword?
    ensures ChangedSince(r.states[j].db, r.calls[i].user, r.states[i].db.now)
    decreases j
  {
    assert Follows(Taken, r, j - 1);
    if i + 1 < j {
      ChangedFromNowOn(r, i, j - 1);
    }
  }

  /**
   A validation that reads after the password update, whenever that is and whatever is
   in flight, accepts no token of the user from an earlier millisecond.
   */
  lemma NothingOlderAccepted(r: Run<Flight, Action>, i: nat, j: nat, raw: Raw)
    requires Interleaved(r) && i < j < |r.states| && r.calls[i].UpdatePassword?
    ensures var s := r.states[j].db;
            var v := Validate(s, raw);
            v.Accept? && s.tokens[v.id].user == r.calls[i].user
            ==> s.tokens[v.id].createdAt / 1000 >= r.states[i].db.now / 1000
  {
    ChangedFromNowOn(r, i, j);
  }

  /**
   The fence compares whole milliseconds: right after the update, an earlier live token
   passes it exactly when it was created within the same millisecond.
   */
  lemma PassesFenceIff(s: State, raw: Raw)
    requires RowsOk(s) && raw.Signed? && Live(s, raw.tokenId) && s.tokens[raw.tokenId].hash == raw
    requires s.tokens[raw.tokenId].expiresAt >= Millis(s.now)
    ensures Validate(SetPassword(s, s.tokens[raw.tokenId].user), raw).Accept? <==>
            s.tokens[raw.tokenId].createdAt / 1000 == s.now / 1000
  {
    assert Genuine(s.tokens[raw.tokenId], raw.tokenId, s.users.Keys, s.now);
  }

  /** Such a token exists: one signed half a millisecond before the change. */
  lemma SameMillisecondPasses()
    ensures var raw := Signed(7, 0);
            var s := Begin(State(map[], map[1 := None], 5_000_200, 0), raw, 1, Platform).(now := 5_000_700);
            Inv(s) && Validate(SetPassword(s, 1), raw) == Accept(7)
  {
    var raw := Signed(7, 0);
    BeginLater(State(map[], map[1 := None], 5_000_200, 0), raw, 1, Platform);
    var s1 := Begin(State(map[], map[1 := None], 5_000_200, 0), raw, 1, Platform);
    ClockAndPasswordLater(s1, s1.(now := 5_000_700));
    PassesFenceIff(s1.(now := 5_000_700), raw);
  }

  // -------------------------------------------------- after the revocation

  ghost predicate OnlyNewer(s: State, user: nat, at: int) {
    && s.now >= at
    && forall id | id in s.tokens && Live(s, id) && s.tokens[id].user == user :: s.tokens[id].createdAt >= at
  }

  lemma RetireOnlyNewer(s: State, ids: set<nat>, reason: Option<Reason>, user: nat, at: int)
    requires OnlyNewer(s, user, at)
    ensures OnlyNewer(Retire(s, ids, reason), user, at)
  {
    var s' := Retire(s, ids, reason);
    forall id | id in s'.tokens && Live(s', id) && s'.tokens[id].user == user ensures s'.tokens[id].createdAt >= at {
      assert Live(s, id);
    }
  }

  lemma CreateOnlyNewer(s: State, raw: Raw, owner: nat, scope: Scope, lineage: nat, user: nat, at: int)
    requires OnlyNewer(s, user, at) && raw.Signed?
    ensures OnlyNewer(Create(s, raw, owner, scope, lineage), user, at)
  {
    var s' := Create(s, raw, owner, scope, lineage);
    forall id | id in s'.tokens && Live(s', id) && s'.tokens[id].user == user ensures s'.tokens[id].createdAt >= at {
      if id != raw.tokenId { assert Live(s, id); }
    }
  }

  lemma NextOnlyNewer(s: Flight, a: Action, user: nat, at: int)
    requires Enabled(s, a) && OnlyNewer(s.db, user, at)
    ensures OnlyNewer(Next(s, a).db, user, at)
  {
    match a {
      case RetireOld(g) => RetireOnlyNewer(s.db, {s.held[g]}, Some(Rotation), user, at);
      case Renew(g, minted) =>
        var t := s.db.tokens[s.held[g]];
        CreateOnlyNewer(s.db, minted, t.user, t.scope, t.lineage, user, at);
      case RevokeAll(u, reason) => RetireOnlyNewer(s.db, LiveOf(s.db, u), Some(reason), user, at);
      case RevokeSome(ids, why) => RetireOnlyNewer(s.db, ids, why, user, at);
      case LogIn(u, scope, minted) =>
        CreateOnlyNewer(s.db, minted, u, scope, s.db.logins, user, at);
        var s1, s2 := Create(s.db, minted, u, scope, s.db.logins), Begin(s.db, minted, u, scope);
        forall id | id in s2.tokens && Live(s2, id) && s2.tokens[id].user == user
          ensures s2.tokens[id].createdAt >= at
        {
          assert Live(s1, id);
        }
      case _ =>
        var s' := Next(s, a).db;
        forall id | id in s'.tokens && Live(s', id) && s'.tokens[id].user == user
          ensures s'.tokens[id].createdAt >= at
        {
          assert Live(s.db, id);
        }
    }
  }

  /** Once `revokeAllForUser` has run, every unrevoked token of the user, then and later, was created at or after it. */
  lemma {:induction false} LiveTokensAreNewer(r: Run<Flight, Action>, i: nat, j: nat)
    requires Interleaved(r) && i < j < |r.states| && r.calls[i].RevokeAll?
    ensures OnlyNewer(r.states[j].db, r.calls[i].user, r.states[i].db.now)
    decreases j
  {
    assert Follows(Taken, r, j - 1);
    if i + 1 < j {
      LiveTokensAreNewer(r, i, j - 1);
      NextOnlyNewer(r.states[j - 1], r.calls[j - 1], r.calls[i].user, r.states[i].db.now);
    }
  }

  /** So when both halves of the change are done, nothing made before the revocation is accepted, to the microsecond. */
  lemma NothingOlderAfterRevocation(r: Run<Flight, Action>, i: nat, j: nat, raw: Raw)
    requires Interleaved(r) && i < j < |r.states| && r.calls[i].RevokeAll?
    ensures var s := r.states[j].db;
            var v := Validate(s, raw);
            v.Accept? && s.tokens[v.id].user == r.calls[i].user ==> s.tokens[v.id].createdAt >= r.states[i].db.now
  {
    LiveTokensAreNewer(r, i, j);
    if Validate(r.states[j].db, raw).Accept? {
      assert Live(r.states[j].db, raw.tokenId);
    }
  }

  // ------------------------------------------- refreshes across the revocation

  /** A refresh in flight has validated a token of the user. */
  ghost predicate HoldsTokenOf(s: Flight, g: nat, user: nat) {
    g in s.held && s.held[g] in s.db.tokens && s.db.tokens[s.held[g]].user == user
  }

  /** The user has a live token that descends from one of the first `logins` logins. */
  ghost predicate OlderSession(s: State, user: nat, logins: nat) {
    exists id :: id in LiveOf(s, user) && s.tokens[id].lineage < logins
  }

  /** From now on the user only has, and only gets, tokens of later logins. */
  ghost predicate OnlyLaterLogins(s: Flight, user: nat, logins: nat) {
    && s.db.logins >= logins && !OlderSession(s.db, user, logins)
    && forall g | HoldsTokenOf(s, g, user) :: s.db.tokens[s.held[g]].lineage >= logins
  }

  /** A change that makes no token live and hands none to a refresh. */
  lemma OnlyRetired(s: Flight, db': State, user: nat, logins: nat)
    requires OnlyLaterLogins(s, user, logins) && db'.logins == s.db.logins && db'.tokens.Keys == s.db.tokens.Keys
    requires forall id | id in db'.tokens ::
               db'.tokens[id].user == s.db.tokens[id].user && db'.tokens[id].lineage == s.db.tokens[id].lineage
    requires forall id | Live(db', id) :: Live(s.db, id)
    ensures OnlyLaterLogins(s.(db := db'), user, logins)
  {
    var s' := s.(db := db');
    forall id | id in LiveOf(db', user) ensures db'.tokens[id].lineage >= logins {
      assert Live(db', id) && id in LiveOf(s.db, user);
    }
    forall g | HoldsTokenOf(s', g, user) ensures db'.tokens[s'.held[g]].lineage >= logins {
      assert HoldsTokenOf(s, g, user);
    }
  }

  lemma OnlyLaterCreated(s: Flight, held': map<nat, nat>, minted: Raw, owner: nat, scope: Scope, lineage: nat,
                         user: nat, logins: nat)
    requires OnlyLaterLogins(s, user, logins) && minted.Signed? && minted.tokenId !in s.db.tokens
    requires owner == user ==> lineage >= logins
    requires forall g | g in held' :: g in s.held && held'[g] == s.held[g]
    ensures OnlyLaterLogins(Flight(Create(s.db, minted, owner, scope, lineage), held'), user, logins)
  {
    var s' := Flight(Create(s.db, minted, owner, scope, lineage), held');
    forall id | id in LiveOf(s'.db, user) ensures s'.db.tokens[id].lineage >= logins {
      if id != minted.tokenId { assert id in LiveOf(s.db, user); }
    }
    forall g | HoldsTokenOf(s', g, user) ensures s'.db.tokens[held'[g]].lineage >= logins {
      if held'[g] != minted.tokenId { assert HoldsTokenOf(s, g, user); }
    }
  }

  lemma NextOnlyLater(s: Flight, a: Action, user: nat, logins: nat)
    requires Enabled(s, a) && OnlyLaterLogins(s, user, logins)
    ensures OnlyLaterLogins(Next(s, a), user, logins)
  {
    var db' := Next(s, a).db;
    match a {
      case Check(g, raw) => CheckOnlyLater(s, g, raw, user, logins);
      case Renew(g, minted) =>
        var t := s.db.tokens[s.held[g]];
        assert t.user == user ==> HoldsTokenOf(s, g, user);
        OnlyLaterCreated(s, s.held - {g}, minted, t.user, t.scope, t.lineage, user, logins);
      case LogIn(u, scope, minted) =>
        OnlyLaterCreated(s, s.held, minted, u, scope, s.db.logins, user, logins);
        LaterCount(Flight(Create(s.db, minted, u, scope, s.db.logins), s.held), user, logins);
      case Abandon(g) =>
        assert forall h | HoldsTokenOf(Next(s, a), h, user) :: HoldsTokenOf(s, h, user);
      case _ => OnlyRetired(s, db', user, logins);
    }
  }

  lemma CheckOnlyLater(s: Flight, g: nat, raw: Raw, user: nat, logins: nat)
    requires Enabled(s, Check(g, raw)) && OnlyLaterLogins(s, user, logins)
    ensures OnlyLaterLogins(Next(s, Check(g, raw)), user, logins)
  {
    var s' := Next(s, Check(g, raw));
    forall h | HoldsTokenOf(s', h, user) ensures s'.db.tokens[s'.held[h]].lineage >= logins {
      if h == g {
        assert s'.held[g] in LiveOf(s.db, user);
      } else {
        assert HoldsTokenOf(s, h, user);
      }
    }
  }

  lemma LaterCount(s: Flight, user: nat, logins: nat)
    requires OnlyLaterLogins(s, user, logins)
    ensures OnlyLaterLogins(s.(db := s.db.(logins := s.db.logins + 1)), user, logins)
  {
    var s' := s.(db := s.db.(logins := s.db.logins + 1));
    assert LiveOf(s'.db, user) == LiveOf(s.db, user);
    assert forall g | HoldsTokenOf(s', g, user) :: HoldsTokenOf(s, g, user);
  }

  /** What the revocation establishes, if no refresh in flight holds a token of the user. */
  lemma {:induction false} NoneHeldNoneSurvive(r: Run<Flight, Action>, i: nat, j: nat, user: nat)
    requires Interleaved(r) && i < j < |r.states| && r.calls[i].RevokeAll? && r.calls[i].user == user
    requires forall g :: !HoldsTokenOf(r.states[i], g, user)
    ensures OnlyLaterLogins(r.states[j], user, r.states[i].db.logins)
    decreases j
  {
    assert Follows(Taken, r, j - 1);
    if i + 1 < j {
      NoneHeldNoneSurvive(r, i, j - 1, user);
      NextOnlyLater(r.states[j - 1], r.calls[j - 1], user, r.states[i].db.logins);
    } else {
      var s, s' := r.states[i], r.states[j];
      assert LiveOf(s'.db, user) == {};
      assert forall g | HoldsTokenOf(s', g, user) :: HoldsTokenOf(s, g, user);
    }
  }

  lemma FreshId(tokens: map<nat, Token>) returns (id: nat)
    ensures id !in tokens
  {
    var keys := tokens.Keys;
    id := 0;
    while keys != {}
      invariant forall k | k in tokens :: k < id || k in keys
      decreases |keys|
    {
      var k: nat :| k in keys;
      id := if k < id then id else k + 1;
      keys := keys - {k};
    }
  }

  /**
   A refresh that had validated its token before the revocation mints a usable one after
   it, in the session that the change of password was to end. (The password was last
   changed at or before the present.)
   */
  lemma RefreshInFlightSurvives(s: Flight, g: nat, user: nat, reason: Reason, minted: Raw)
    requires RowsOk(s.db) && HoldsTokenOf(s, g, user)
    requires minted.Signed? && minted.tokenId !in s.db.tokens
    ensures var s1 := Next(s, RevokeAll(user, reason));
            var s2 := Next(Next(s1, RetireOld(g)), Renew(g, minted));
            && LiveOf(s2.db, user) == {minted.tokenId} && OlderSession(s2.db, user, s.db.logins)
            && user in s.db.users
            && (!BehindFence(s.db.now, s.db.users[user]) ==> Validate(s2.db, minted) == Accept(minted.tokenId))
  {
    var t := s.db.tokens[s.held[g]];
    assert Genuine(t, s.held[g], s.db.users.Keys, s.db.now);
    var s1 := Next(s, RevokeAll(user, reason));
    assert LiveOf(s1.db, user) == {};
    var s2 := Next(s1, RetireOld(g));
    assert LiveOf(s2.db, user) == {};
    var s3 := Next(s2, Renew(g, minted));
    assert forall id | id in LiveOf(s3.db, user) && id != minted.tokenId :: id in LiveOf(s2.db, user);
    assert minted.tokenId in LiveOf(s3.db, user);
  }

  /** r goes on from the revocation of all the user's tokens in s. */
  ghost predicate Continues(r: Run<Flight, Action>, s: Flight, user: nat, reason: Reason) {
    Interleaved(r) && r.calls != [] && r.states[0] == s && r.calls[0] == RevokeAll(user, reason)
  }

  /** However r goes on after its first step, no session of the first `logins` logins is left. */
  ghost predicate EndsOlderSessions(r: Run<Flight, Action>, user: nat, logins: nat) {
    forall n | 0 < n < |r.states| :: !OlderSession(r.states[n].db, user, logins)
  }

  /**
   When a change of password ends every session of the user: however the run goes on after
   its revocation, nothing is ever live again that descends from an earlier login, exactly
   when no refresh in flight at that moment holds a token of the user.
   */
  lemma RevocationEndsSessionsIff(s: Flight, user: nat, reason: Reason)
    requires RowsOk(s.db)
    ensures (forall r | Continues(r, s, user, reason) :: EndsOlderSessions(r, user, s.db.logins)) <==>
            (forall g :: !HoldsTokenOf(s, g, user))
  {
    if g :| HoldsTokenOf(s, g, user) {
      var id := FreshId(s.db.tokens);
      SurvivingRun(s, g, user, reason, Signed(id, 0));
    } else {
      forall r | Continues(r, s, user, reason) ensures EndsOlderSessions(r, user, s.db.logins) {
        forall n | 0 < n < |r.states| ensures !OlderSession(r.states[n].db, user, s.db.logins) {
          NoneHeldNoneSurvive(r, 0, n, user);
        }
      }
    }
  }

  lemma SurvivingRun(s: Flight, g: nat, user: nat, reason: Reason, minted: Raw)
    requires RowsOk(s.db) && HoldsTokenOf(s, g, user) && minted.Signed? && minted.tokenId !in s.db.tokens
    ensures exists r :: Continues(r, s, user, reason) && !EndsOlderSessions(r, user, s.db.logins)
  {
    var s1 := Next(s, RevokeAll(user, reason));
    var s2 := Next(s1, RetireOld(g));
    var s3 := Next(s2, Renew(g, minted));
    var r := Run([RevokeAll(user, reason), RetireOld(g), Renew(g, minted)], [s, s1, s2, s3]);
    assert Follows(Taken, r, 0) && Follows(Taken, r, 1) && Follows(Taken, r, 2);
    RefreshInFlightSurvives(s, g, user, reason, minted);
    assert OlderSession(r.states[3].db, user, s.db.logins);
    assert Continues(r, s, user, reason) && !EndsOlderSessions(r, user, s.db.logins);
  }

  // ------------------------------------------------------- refreshes in a race

  /** g has validated a token and not renewed it yet. */
  ghost predicate Holds(s: Flight, g: nat) {
    g in s.held && s.held[g] in s.db.tokens
  }

  ghost function HeldLineage(s: Flight, g: nat): nat
    requires Holds(s, g)
  {
    s.db.tokens[s.held[g]].lineage
  }

  /** Each login has one live token or one refresh in flight, or both if the refresh holds that token. */
  ghost predicate Apart(s: Flight) {
    && OnePerLineage(s.db)
    && (forall g, h | Holds(s, g) && Holds(s, h) :: HeldLineage(s, g) == HeldLineage(s, h) ==> g == h)
    && forall g, id | Holds(s, g) && Live(s.db, id) :: s.db.tokens[id].lineage == HeldLineage(s, g) ==> id == s.held[g]
  }

  /** A validation accepts the token that another refresh in flight holds. */
  ghost predicate Shares(s: Flight, a: Action) {
    && a.Check? && a.g !in s.held && Validate(s.db, a.raw).Accept?
    && exists h :: Holds(s, h) && s.held[h] == Validate(s.db, a.raw).id
  }

  /** A refresh renews its token after it has revoked it, or found it revoked. */
  ghost predicate InOrder(s: Flight, a: Action) {
    a.Renew? && a.g in s.held ==> !Live(s.db, s.held[a.g])
  }

  ghost predicate Orderly(r: Run<Flight, Action>) {
    Interleaved(r) && forall k | 0 <= k < |r.calls| :: InOrder(r.states[k], r.calls[k])
  }

  ghost predicate SharesAt(r: Run<Flight, Action>, k: nat)
    requires k < |r.calls| < |r.states|
  {
    Shares(r.states[k], r.calls[k])
  }

  /** Steps that make no token live and leave what is held. */
  lemma RetiredApart(s: Flight, db': State)
    requires Apart(s) && db'.tokens.Keys == s.db.tokens.Keys
    requires forall id | id in db'.tokens :: db'.tokens[id].lineage == s.db.tokens[id].lineage
    requires forall id | Live(db', id) :: Live(s.db, id)
    ensures Apart(s.(db := db'))
  {
    var s' := s.(db := db');
    assert forall g | Holds(s', g) :: Holds(s, g) && HeldLineage(s', g) == HeldLineage(s, g);
  }

  lemma RenewApart(s: Flight, g: nat, minted: Raw)
    requires Sound(s) && Apart(s) && Enabled(s, Renew(g, minted)) && !Live(s.db, s.held[g])
    ensures Apart(Next(s, Renew(g, minted)))
  {
    var s' := Next(s, Renew(g, minted));
    assert Holds(s, g);
    forall id | Live(s'.db, id) && id != minted.tokenId
      ensures Live(s.db, id) && s'.db.tokens[id] == s.db.tokens[id] && s.db.tokens[id].lineage != HeldLineage(s, g)
    {
      assert Live(s.db, id);
    }
    forall h | Holds(s', h)
      ensures Holds(s, h) && HeldLineage(s', h) == HeldLineage(s, h) != HeldLineage(s, g)
    {
      assert h in s.held && s'.held[h] == s.held[h] && s.held[h] != minted.tokenId && Holds(s, h);
    }
  }

  lemma LogInApart(s: Flight, user: nat, scope: Scope, minted: Raw)
    requires Sound(s) && Apart(s) && Enabled(s, LogIn(user, scope, minted))
    ensures Apart(Next(s, LogIn(user, scope, minted)))
  {
    var s' := Next(s, LogIn(user, scope, minted));
    forall id | Live(s'.db, id) && id != minted.tokenId
      ensures Live(s.db, id) && s'.db.tokens[id] == s.db.tokens[id] && s.db.tokens[id].lineage < s.db.logins
    {
      assert Live(s.db, id);
    }
    forall h | Holds(s', h)
      ensures Holds(s, h) && HeldLineage(s', h) == HeldLineage(s, h) < s.db.logins
    {
      assert s.held[h] != minted.tokenId && Holds(s, h);
    }
  }

  lemma AbandonApart(s: Flight, g: nat)
    requires Apart(s) && g in s.held
    ensures Apart(Next(s, Abandon(g)))
  {
    var s' := Next(s, Abandon(g));
    assert forall h | Holds(s', h) :: Holds(s, h) && HeldLineage(s', h) == HeldLineage(s, h);
  }

  /** A validation leaves refreshes apart exactly when it does not accept a token that is held. */
  lemma CheckApartIff(s: Flight, g: nat, raw: Raw)
    requires Apart(s) && g !in s.held
    ensures Apart(Next(s, Check(g, raw))) <==> !Shares(s, Check(g, raw))
  {
    var s', v := Next(s, Check(g, raw)), Validate(s.db, raw);
    if v.Accept? {
      assert Holds(s', g) && Live(s.db, v.id);
      assert forall h | Holds(s, h) :: Holds(s', h) && h != g && HeldLineage(s', h) == HeldLineage(s, h);
      assert forall h | Holds(s', h) && h != g :: Holds(s, h);
    }
  }

  lemma NextApartIff(s: Flight, a: Action)
    requires Sound(s) && Apart(s) && Enabled(s, a) && InOrder(s, a)
    ensures Apart(Next(s, a)) <==> !Shares(s, a)
  {
    match a
    case Check(g, raw) => CheckApartIff(s, g, raw);
    case Renew(g, minted) => RenewApart(s, g, minted);
    case LogIn(user, scope, minted) => LogInApart(s, user, scope, minted);
    case Abandon(g) => AbandonApart(s, g);
    case _ => RetiredApart(s, Next(s, a).db);
  }

  lemma {:induction false} ApartSoFar(r: Run<Flight, Action>, n: nat)
    requires Orderly(r) && Sound(r.states[0]) && Apart(r.states[0]) && n < |r.states|
    requires forall k | 0 <= k < n :: !SharesAt(r, k)
    ensures Apart(r.states[n])
  {
    if n > 0 {
      ApartSoFar(r, n - 1);
      AlwaysSound(r, n - 1);
      assert Follows(Taken, r, n - 1) && !SharesAt(r, n - 1) && InOrder(r.states[n - 1], r.calls[n - 1]);
      NextApartIff(r.states[n - 1], r.calls[n - 1]);
    }
  }

  /**
   Over every interleaving of refreshes that revoke before they renew: each login is down to a
   single live token or refresh in flight in every state exactly when no validation accepts a
   token that another refresh in flight has already validated.
   */
  lemma StaysApartIff(r: Run<Flight, Action>)
    requires Orderly(r) && Sound(r.states[0]) && Apart(r.states[0])
    ensures (forall n | 0 <= n < |r.states| :: Apart(r.states[n])) <==>
            (forall k | 0 <= k < |r.calls| :: !SharesAt(r, k))
  {
    if k: nat :| k < |r.calls| && SharesAt(r, k) {
      AlwaysSound(r, k);
      assert Follows(Taken, r, k) && InOrder(r.states[k], r.calls[k]);
      if Apart(r.states[k]) {
        NextApartIff(r.states[k], r.calls[k]);
        assert !Apart(r.states[k + 1]);
      }
    } else {
      forall n | 0 <= n < |r.states| ensures Apart(r.states[n]) {
        ApartSoFar(r, n);
      }
    }
  }

  /** Some orderly run from s, in which no validation shares a token, leaves a login with two live tokens. */
  ghost predicate CanFork(s: Flight) {
    exists r, n :: Forks(r, n) && r.states[0] == s
  }

  ghost predicate Forks(r: Run<Flight, Action>, n: nat) {
    && Orderly(r) && n < |r.states| && !OnePerLineage(r.states[n].db)
    && forall k | 0 <= k < |r.calls| :: !SharesAt(r, k)
  }

  /** Whatever else holds, two refreshes of one lineage that both go through leave it with two live tokens. */
  lemma TwoRenewalsFork(s: Flight, g: nat, h: nat, m: Raw, n: Raw)
    requires Enabled(s, Renew(g, m)) && Enabled(s, Renew(h, n)) && g != h && m.tokenId != n.tokenId
    requires HeldLineage(s, g) == HeldLineage(s, h)
    ensures exists r :: Forks(r, 4) && r.states[0] == s
  {
    var s1 := Next(s, RetireOld(g));
    var s2 := Next(s1, RetireOld(h));
    var s3 := Next(s2, Renew(g, m));
    var s4 := Next(s3, Renew(h, n));
    var r := Run([RetireOld(g), RetireOld(h), Renew(g, m), Renew(h, n)], [s, s1, s2, s3, s4]);
    assert Follows(Taken, r, 0) && Follows(Taken, r, 1) && Follows(Taken, r, 2) && Follows(Taken, r, 3);
    assert !Live(s2.db, s.held[g]) && !Live(s3.db, s.held[h]);
    assert Live(s4.db, m.tokenId) && Live(s4.db, n.tokenId);
    assert Forks(r, 4);
  }

  /** And so does one refresh beside a live token of its lineage that it does not hold. */
  lemma RenewalBesideLiveForks(s: Flight, g: nat, m: Raw, id: nat)
    requires Enabled(s, Renew(g, m)) && Live(s.db, id) && id != s.held[g]
    requires s.db.tokens[id].lineage == HeldLineage(s, g)
    ensures exists r :: Forks(r, 2) && r.states[0] == s
  {
    var s1 := Next(s, RetireOld(g));
    var s2 := Next(s1, Renew(g, m));
    var r := Run([RetireOld(g), Renew(g, m)], [s, s1, s2]);
    assert Follows(Taken, r, 0) && Follows(Taken, r, 1);
    assert !Live(s1.db, s.held[g]);
    assert Live(s2.db, id) && Live(s2.db, m.tokenId);
    assert Forks(r, 2);
  }

  /**
   When refreshes in flight are harmless: a login never has two live tokens, however things go
   on without further sharing, exactly when the refreshes in flight are apart.
   */
  lemma RacingRefreshesIff(s: Flight)
    requires Sound(s)
    ensures !CanFork(s) <==> Apart(s)
  {
    if Apart(s) {
      if CanFork(s) {
        var r, n :| Forks(r, n) && r.states[0] == s;
        ApartSoFar(r, n);
      }
    } else {
      NotApartForks(s);
    }
  }

  lemma NotApartForks(s: Flight)
    requires Sound(s) && !Apart(s)
    ensures CanFork(s)
  {
    var i := FreshId(s.db.tokens);
    var j := FreshId(s.db.tokens[i := NewRow(s.db, Unsigned, 0, Platform, 0)]);
    if !OnePerLineage(s.db) {
      assert Forks(Run([], [s]), 0);
    } else if g, h :| Holds(s, g) && Holds(s, h) && g != h && HeldLineage(s, g) == HeldLineage(s, h) {
      TwoRenewalsFork(s, g, h, Signed(i, 0), Signed(j, 0));
    } else {
      var g, id :| Holds(s, g) && Live(s.db, id) && s.db.tokens[id].lineage == HeldLineage(s, g) && id != s.held[g];
      RenewalBesideLiveForks(s, g, Signed(i, 0), id);
    }
  }
}

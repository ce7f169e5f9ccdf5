/**
 Refresh tokens: issue, rotation with reason-aware replay detection, the password fence,
 logout, session revocation and institute switching, over the token table. A service call
 is one step here; the password fence is taken apart in PasswordFence.

 Database timestamps are in microseconds; the service reads them as JavaScript dates, that
 is in whole milliseconds. SHA-256 and signing are abstracted: the stored hash is the raw
 token itself, and only tokens signed by the service carry a token id.
 */
module RefreshTokens {
  import opened Wrappers
  import opened Runs

  datatype Reason = Rotation | UserInitiated | PasswordChange | AdminRevoked

  datatype Scope = Platform | Reseller | Institute

  /** A raw token as presented: signed by the service for a row, or not signed by it. */
  datatype Raw = Signed(tokenId: nat, nonce: nat) | Unsigned

  datatype Mark = Mark(at: int, reason: Option<Reason>)

  /** A row. `lineage` is not a column: it is the serial number of the login that the row was rotated from. */
  datatype Token = Token(user: nat, hash: Raw, scope: Scope, createdAt: int, expiresAt: int,
                         revoked: Option<Mark>, lineage: nat)

  /**
   The token table, the users with the time of their last password change, the clock, and how
   many logins there were.
   */
  datatype State = State(tokens: map<nat, Token>, users: map<nat, Option<int>>, now: int, logins: nat)

  const REFRESH_TTL_SECONDS: nat := 7 * 24 * 60 * 60

  function Millis(micros: int): int {
    micros / 1000
  }

  /** The text stored for each reason. */
  function Spelling(r: Reason): string {
    match r
    case Rotation => "rotation"
    case UserInitiated => "user_initiated"
    case PasswordChange => "password_change"
    case AdminRevoked => "admin_revoked"
  }

  /** `coerceRevokedReason`: what the stored text is read as; unknown text is read as no reason. */
  function CoerceRevokedReason(raw: Option<string>): (r: Option<Reason>)
    ensures r.Some? ==> raw == Some(Spelling(r.value))
  {
    if raw == Some("rotation") then Some(Rotation)
    else if raw == Some("user_initiated") then Some(UserInitiated)
    else if raw == Some("password_change") then Some(PasswordChange)
    else if raw == Some("admin_revoked") then Some(AdminRevoked)
    else None
  }

  /** Reading a stored reason undoes writing it. */
  lemma CoerceSpelling(r: Reason)
    ensures CoerceRevokedReason(Some(Spelling(r))) == Some(r)
    ensures Spelling(Rotation) == "rotation" && Spelling(UserInitiated) == "user_initiated"
    ensures Spelling(PasswordChange) == "password_change" && Spelling(AdminRevoked) == "admin_revoked"
  {
    assert Spelling(UserInitiated)[0] == 'u' && Spelling(PasswordChange)[0] == 'p';
    assert Spelling(Rotation)[0] == 'r' && Spelling(AdminRevoked)[0] == 'a';
  }

  // -------------------------------------------------------------------- the table

  ghost predicate Live(s: State, id: nat) {
    id in s.tokens && s.tokens[id].revoked.None?
  }

  ghost function LiveIds(s: State): set<nat> {
    set id | id in s.tokens && s.tokens[id].revoked.None?
  }

  ghost function LiveOf(s: State, user: nat): set<nat> {
    set id | id in s.tokens && s.tokens[id].revoked.None? && s.tokens[id].user == user
  }

  /** The live reseller-scope tokens of a set of users. */
  ghost function LiveStaff(s: State, staff: set<nat>): set<nat> {
    set id |
      id in s.tokens && s.tokens[id].revoked.None? && s.tokens[id].scope == Reseller && s.tokens[id].user in staff
  }

  ghost function Marked(t: Token, now: int, reason: Option<Reason>): Token {
    t.(revoked := Some(Mark(Millis(now), reason)))
  }

  ghost function LiveWithHash(s: State, raw: Raw): set<nat> {
    set id | id in s.tokens && s.tokens[id].revoked.None? && s.tokens[id].hash == raw
  }

  /** Mark some rows revoked, whatever they were before. */
  ghost function Retire(s: State, ids: set<nat>, reason: Option<Reason>): State {
    s.(tokens := map id | id in s.tokens :: if id in ids then Marked(s.tokens[id], s.now, reason) else s.tokens[id])
  }

  ghost function NewRow(s: State, raw: Raw, user: nat, scope: Scope, lineage: nat): Token {
    Token(user, raw, scope, s.now, Millis(s.now) + REFRESH_TTL_SECONDS * 1000, None, lineage)
  }

  /** Insert the row of a token just signed. */
  ghost function Create(s: State, raw: Raw, user: nat, scope: Scope, lineage: nat): State
    requires raw.Signed?
  {
    s.(tokens := s.tokens[raw.tokenId := NewRow(s, raw, user, scope, lineage)])
  }

  /** The first token of a login. */
  ghost function Begin(s: State, raw: Raw, user: nat, scope: Scope): State
    requires raw.Signed?
  {
    Create(s, raw, user, scope, s.logins).(logins := s.logins + 1)
  }

  ghost function SetPassword(s: State, user: nat): State {
    s.(users := s.users[user := Some(s.now)])
  }

  /** The unrevoked row with a given hash. */
  ghost function FindByHash(s: State, raw: Raw): Option<nat> {
    if raw.Signed? && Live(s, raw.tokenId) && s.tokens[raw.tokenId].hash == raw then Some(raw.tokenId) else None
  }

  // ---------------------------------------------------------------------- calls

  datatype Error =
    | InvalidToken | ReuseDetected | TokenRevoked | TokenExpired | PasswordChanged
    | NoMembership | SessionNotFound | BadPassword

  datatype Reply = Done | Issued(raw: Raw) | Denied(error: Error)

  /** What `loadAndValidateStoredRefreshToken` concludes from the row and user it read. */
  datatype Verdict = Reject(error: Error) | Cascade(user: nat) | Fenced(id: nat) | Accept(id: nat)

  /** The password fence: dates are compared as JavaScript dates. */
  predicate BehindFence(createdAt: int, passwordChangedAt: Option<int>) {
    passwordChangedAt.Some? && Millis(createdAt) < Millis(passwordChangedAt.value)
  }

  ghost function Validate(s: State, raw: Raw): Verdict {
    if raw.Unsigned? || raw.tokenId !in s.tokens then Reject(InvalidToken)
    else
      var t := s.tokens[raw.tokenId];
      if t.hash != raw || t.user !in s.users then Reject(InvalidToken)
      else if t.revoked.Some? then
        if t.revoked.value.reason in {None, Some(Rotation)} then Cascade(t.user) else Reject(TokenRevoked)
      else if t.expiresAt < Millis(s.now) then Reject(TokenExpired)
      else if BehindFence(t.createdAt, s.users[t.user]) then Fenced(raw.tokenId)
      else Accept(raw.tokenId)
  }

  /**
   One service call. `minted` is the token it signs if it issues one; `member` tells
   whether the membership looked up for the new token exists and is active.
   */
  datatype Call =
    | Login(user: nat, scope: Scope, minted: Raw)
    | Refresh(raw: Raw, member: bool, minted: Raw)
    | LogoutOne(id: nat)
    | LogoutAll(user: nat)
    | RevokeSession(user: nat, id: nat)
    | RevokeAllOtherSessions(user: nat, current: Raw)
    | ChangePassword(user: nat, verified: bool)
    | SwitchInstitute(user: nat, current: Raw, member: bool, minted: Raw)
    | SuspendReseller(staff: set<nat>)
    | Wait(micros: nat)

  /** Signed tokens have new ids, and only existing users log in. */
  ghost predicate Possible(s: State, c: Call) {
    && (c.Login? ==> c.minted.Signed? && c.minted.tokenId !in s.tokens && c.user in s.users)
    && (c.Refresh? ==> c.minted.Signed? && c.minted.tokenId !in s.tokens)
    && (c.SwitchInstitute? ==> c.minted.Signed? && c.minted.tokenId !in s.tokens)
  }

  ghost function RefreshToken(s: State, raw: Raw, member: bool, minted: Raw): (State, Reply)
    requires minted.Signed?
  {
    match Validate(s, raw)
    case Reject(error) => (s, Denied(error))
    case Cascade(user) => (Retire(s, LiveOf(s, user), Some(Rotation)), Denied(ReuseDetected))
    case Fenced(id) => (Retire(s, {id}, Some(PasswordChange)), Denied(PasswordChanged))
    case Accept(id) =>
      var s1 := Retire(s, {id}, Some(Rotation));
      if !member then (s1, Denied(NoMembership))
      else (Create(s1, minted, s.tokens[id].user, s.tokens[id].scope, s.tokens[id].lineage), Issued(minted))
  }

  ghost function RevokeAllOthers(s: State, user: nat, current: Raw): (State, Reply) {
    var kept := FindByHash(s, current);
    if kept.None? then (s, Denied(InvalidToken))
    else (Retire(s, LiveOf(s, user) - {kept.value}, Some(UserInitiated)), Done)
  }

  ghost function NewPassword(s: State, user: nat, verified: bool): (State, Reply) {
    if user !in s.users || !verified then (s, Denied(BadPassword))
    else (Retire(SetPassword(s, user), LiveOf(s, user), Some(PasswordChange)), Done)
  }

  ghost function Leave(s: State, current: Raw): State {
    var left := FindByHash(s, current);
    if left.Some? then Retire(s, {left.value}, Some(UserInitiated)) else s
  }

  ghost function Switch(s: State, user: nat, current: Raw, member: bool, minted: Raw): (State, Reply)
    requires minted.Signed?
  {
    var s1 := Leave(s, current);
    if !member || user !in s.users then (s1, Denied(NoMembership))
    else (Begin(s1, minted, user, Institute), Issued(minted))
  }

  ghost function Serve(s: State, c: Call): (State, Reply)
    requires Possible(s, c)
  {
    match c
    case Login(user, scope, minted) => (Begin(s, minted, user, scope), Issued(minted))
    case Refresh(raw, member, minted) => RefreshToken(s, raw, member, minted)
    case LogoutOne(id) => (Retire(s, {id}, Some(UserInitiated)), Done)
    case LogoutAll(user) => (Retire(s, LiveOf(s, user), Some(UserInitiated)), Done)
    case RevokeSession(user, id) =>
      if id !in s.tokens || s.tokens[id].user != user then (s, Denied(SessionNotFound))
      else (Retire(s, {id}, Some(UserInitiated)), Done)
    case RevokeAllOtherSessions(user, current) => RevokeAllOthers(s, user, current)
    case ChangePassword(user, verified) => NewPassword(s, user, verified)
    case SwitchInstitute(user, current, member, minted) => Switch(s, user, current, member, minted)
    case SuspendReseller(staff) => (Retire(s, LiveStaff(s, staff), None), Done)
    case Wait(micros) => (s.(now := s.now + micros), Done)
  }

  // ----------------------------------------------------------------- invariants

  /** A row is of its own signed token, of an existing user, and made in the past. */
  ghost predicate Genuine(t: Token, id: nat, users: set<nat>, now: int) {
    t.hash.Signed? && t.hash.tokenId == id && t.user in users && t.createdAt <= now
  }

  /** At most one unrevoked token per lineage. */
  ghost predicate OnePerLineage(s: State) {
    forall a, b | Live(s, a) && Live(s, b) :: s.tokens[a].lineage == s.tokens[b].lineage ==> a == b
  }

  /** What holds of the rows however calls interleave. */
  ghost predicate RowsOk(s: State) {
    && (forall id | id in s.tokens :: Genuine(s.tokens[id], id, s.users.Keys, s.now))
    && (forall id | id in s.tokens :: s.tokens[id].lineage < s.logins)
  }

  /** What holds of every reachable state. */
  ghost predicate Inv(s: State) {
    RowsOk(s) && OnePerLineage(s)
  }

  ghost predicate NonRotation(m: Option<Mark>) {
    m.Some? && m.value.reason.Some? && m.value.reason != Some(Rotation)
  }

  /** How a row may change: it keeps its identity, stays revoked, and a reason other than rotation stays one. */
  ghost predicate RowLater(t: Token, t': Token) {
    && t' == t.(revoked := t'.revoked)
    && (t.revoked.Some? ==> t'.revoked.Some?)
    && (NonRotation(t.revoked) ==> NonRotation(t'.revoked))
  }

  ghost predicate Later(s: State, s': State) {
    && s.now <= s'.now && s.logins <= s'.logins
    && s.users.Keys <= s'.users.Keys
    && forall id | id in s.tokens :: id in s'.tokens && RowLater(s.tokens[id], s'.tokens[id])
  }

  lemma RetireLater(s: State, ids: set<nat>, reason: Option<Reason>)
    requires Inv(s) && (reason in {None, Some(Rotation)} ==> ids <= LiveIds(s))
    ensures Inv(Retire(s, ids, reason)) && Later(s, Retire(s, ids, reason))
  {
    var s' := Retire(s, ids, reason);
    assert forall id | Live(s', id) :: Live(s, id) && s'.tokens[id] == s.tokens[id];
  }

  lemma CreateLater(s: State, raw: Raw, user: nat, scope: Scope, lineage: nat)
    requires Inv(s) && raw.Signed? && raw.tokenId !in s.tokens && user in s.users
    requires lineage < s.logins
    requires forall id | Live(s, id) :: s.tokens[id].lineage != lineage
    ensures Inv(Create(s, raw, user, scope, lineage)) && Later(s, Create(s, raw, user, scope, lineage))
  {
    var s' := Create(s, raw, user, scope, lineage);
    assert forall id | Live(s', id) && id != raw.tokenId :: Live(s, id);
  }

  lemma BeginLater(s: State, raw: Raw, user: nat, scope: Scope)
    requires Inv(s) && raw.Signed? && raw.tokenId !in s.tokens && user in s.users
    ensures Inv(Begin(s, raw, user, scope)) && Later(s, Begin(s, raw, user, scope))
  {
    var s1 := s.(logins := s.logins + 1);
    assert forall id | Live(s1, id) :: Live(s, id);
    CreateLater(s1, raw, user, scope, s.logins);
    assert Create(s1, raw, user, scope, s.logins) == Begin(s, raw, user, scope);
    LaterTrans(s, s1, Begin(s, raw, user, scope));
  }

  /** Once a live token is retired, its lineage has no live token. */
  lemma OneLeft(s: State, id: nat)
    requires Inv(s) && Live(s, id)
    ensures var s1 := Retire(s, {id}, Some(Rotation));
            forall other | Live(s1, other) :: s1.tokens[other].lineage != s.tokens[id].lineage
  {
    var s1 := Retire(s, {id}, Some(Rotation));
    forall other | Live(s1, other) ensures s1.tokens[other].lineage != s.tokens[id].lineage {
      assert Live(s, other) && Live(s, id);
    }
  }

  /** Rotation: retire, then create in the same lineage. */
  lemma RotateLater(s: State, id: nat, minted: Raw)
    requires Inv(s) && Live(s, id) && minted.Signed? && minted.tokenId !in s.tokens
    ensures var s1 := Retire(s, {id}, Some(Rotation));
            var t := s.tokens[id];
            var s2 := Create(s1, minted, t.user, t.scope, t.lineage);
            Inv(s1) && Later(s, s1) && Inv(s2) && Later(s, s2)
  {
    var s1 := Retire(s, {id}, Some(Rotation));
    var t := s.tokens[id];
    RetireLater(s, {id}, Some(Rotation));
    assert Genuine(t, id, s.users.Keys, s.now);
    OneLeft(s, id);
    CreateLater(s1, minted, t.user, t.scope, t.lineage);
    LaterTrans(s, s1, Create(s1, minted, t.user, t.scope, t.lineage));
  }

  lemma LaterTrans(s: State, s1: State, s2: State)
    requires Later(s, s1) && Later(s1, s2)
    ensures Later(s, s2)
  {
  }

  lemma ClockAndPasswordLater(s: State, s': State)
    requires Inv(s) && s'.tokens == s.tokens && s.now <= s'.now
    requires s.users.Keys <= s'.users.Keys && s'.logins == s.logins
    ensures Inv(s') && Later(s, s')
  {
    assert forall id | Live(s', id) :: Live(s, id);
  }

  /** A refresh that is turned away, for whatever reason. */
  lemma TurnedAwayLater(s: State, raw: Raw)
    requires Inv(s)
    ensures var s' := RefreshToken(s, raw, false, Signed(0, 0)).0; Inv(s') && Later(s, s')
  {
    match Validate(s, raw) {
      case Reject(_) =>
      case Cascade(user) => RetireLater(s, LiveOf(s, user), Some(Rotation));
      case Fenced(id) => RetireLater(s, {id}, Some(PasswordChange));
      case Accept(id) => RetireLater(s, {id}, Some(Rotation));
    }
  }

  lemma RefreshLater(s: State, raw: Raw, member: bool, minted: Raw)
    requires Inv(s) && minted.Signed? && minted.tokenId !in s.tokens
    ensures var s' := RefreshToken(s, raw, member, minted).0; Inv(s') && Later(s, s')
  {
    TurnedAwayLater(s, raw);
    if Validate(s, raw).Accept? {
      RotateLater(s, Validate(s, raw).id, minted);
    }
  }

  lemma NewPasswordLater(s: State, user: nat)
    requires Inv(s) && user in s.users
    ensures var s' := NewPassword(s, user, true).0; Inv(s') && Later(s, s')
  {
    var s1 := SetPassword(s, user);
    ClockAndPasswordLater(s, s1);
    RetireLater(s1, LiveOf(s, user), Some(PasswordChange));
    LaterTrans(s, s1, NewPassword(s, user, true).0);
  }

  lemma SwitchLater(s: State, user: nat, current: Raw, member: bool, minted: Raw)
    requires Inv(s) && minted.Signed? && minted.tokenId !in s.tokens
    ensures var s' := Switch(s, user, current, member, minted).0; Inv(s') && Later(s, s')
  {
    var s1 := Leave(s, current);
    if FindByHash(s, current).Some? {
      RetireLater(s, {current.tokenId}, Some(UserInitiated));
    }
    if user in s.users {
      BeginLater(s1, minted, user, Institute);
      LaterTrans(s, s1, Begin(s1, minted, user, Institute));
    }
  }

  /** Every call keeps the invariant and only moves rows forward. */
  lemma ServeLater(s: State, c: Call)
    requires Inv(s) && Possible(s, c)
    ensures Inv(Serve(s, c).0) && Later(s, Serve(s, c).0)
  {
    match c {
      case Login(user, scope, minted) => BeginLater(s, minted, user, scope);
      case Refresh(raw, member, minted) => RefreshLater(s, raw, member, minted);
      case LogoutOne(id) => RetireLater(s, {id}, Some(UserInitiated));
      case LogoutAll(user) => RetireLater(s, LiveOf(s, user), Some(UserInitiated));
      case RevokeSession(user, id) => RetireLater(s, {id}, Some(UserInitiated));
      case RevokeAllOtherSessions(user, current) =>
        if current.Signed? { RetireLater(s, LiveOf(s, user) - {current.tokenId}, Some(UserInitiated)); }
      case ChangePassword(user, verified) => if user in s.users { NewPasswordLater(s, user); }
      case SwitchInstitute(user, current, member, minted) => SwitchLater(s, user, current, member, minted);
      case SuspendReseller(staff) => RetireLater(s, LiveStaff(s, staff), None);
      case Wait(micros) => ClockAndPasswordLater(s, Serve(s, c).0);
    }
  }

  // ------------------------------------------------------------------- runs

  ghost function Next(s: State, c: Call): Option<State> {
    if Possible(s, c) then Some(Serve(s, c).0) else None
  }

  /** A run of the service from an empty table. */
  ghost predicate Valid(r: Run<State, Call>) {
    IsRun(Next, r) && r.states[0].tokens == map[]
  }

  lemma CallsAdvance()
    ensures Keeps(Next, Inv) && Advances(Next, Inv, Later) && Preorder(Later)
  {
    forall s: State, c: Call | Inv(s) && Next(s, c).Some? ensures Inv(Next(s, c).value) && Later(s, Next(s, c).value) {
      ServeLater(s, c);
    }
    forall s: State, t: State, u: State | Later(s, t) && Later(t, u) ensures Later(s, u) {
      LaterTrans(s, t, u);
    }
  }

  lemma Reachable(r: Run<State, Call>, n: nat)
    requires Valid(r) && n < |r.states|
    ensures Inv(r.states[n])
  {
    CallsAdvance();
    Always(Next, Inv, r, n);
  }

  lemma RunLater(r: Run<State, Call>, i: nat, j: nat)
    requires Valid(r) && i <= j < |r.states|
    ensures Later(r.states[i], r.states[j])
  {
    CallsAdvance();
    Along(Next, Inv, Later, r, i, j);
  }

  // ---------------------------------------------------------------- theorems

  /** In every reachable state each login lineage has at most one unrevoked token. */
  lemma OneLivePerLineage(r: Run<State, Call>, n: nat, a: nat, b: nat)
    requires Valid(r) && n < |r.states| && Live(r.states[n], a) && Live(r.states[n], b)
    ensures r.states[n].tokens[a].lineage == r.states[n].tokens[b].lineage ==> a == b
  {
    Reachable(r, n);
  }

  /** Exactly which tokens are unrevoked after each call other than a refresh. */
  lemma LiveAfterIff(s: State, c: Call, id: nat)
    requires Inv(s) && Possible(s, c) && !c.Refresh?
    ensures var (s', reply) := Serve(s, c);
            var live := id in s.tokens && s.tokens[id].revoked.None?;
            (id in s'.tokens && s'.tokens[id].revoked.None?) <==>
            match c {
              case Login(_, _, minted) => live || id == minted.tokenId
              case LogoutOne(x) => live && id != x
              case LogoutAll(user) => live && s.tokens[id].user != user
              case RevokeSession(user, x) => live && !(id == x && s.tokens[id].user == user)
              case RevokeAllOtherSessions(user, current) =>
                live && (reply.Done? && s.tokens[id].user == user ==> s.tokens[id].hash == current)
              case ChangePassword(user, _) => live && (reply.Done? ==> s.tokens[id].user != user)
              case SwitchInstitute(_, current, _, minted) =>
                (live && s.tokens[id].hash != current) || (reply.Issued? && id == minted.tokenId)
              case SuspendReseller(staff) => live && !(s.tokens[id].scope == Reseller && s.tokens[id].user in staff)
              case _ => live
            }
  {
    assert id in s.tokens ==> Genuine(s.tokens[id], id, s.users.Keys, s.now);
  }

  /** What a call writes on a row that it revokes: the time in milliseconds, and the reason. */
  lemma ReasonsWritten(s: State, c: Call, id: nat)
    requires Inv(s) && Possible(s, c) && id in s.tokens
    ensures var (s', reply) := Serve(s, c);
            && id in s'.tokens
            && (s'.tokens[id].revoked != s.tokens[id].revoked ==>
                  s'.tokens[id].revoked == Some(Mark(s.now / 1000,
                    match c {
                      case Refresh(_, _, _) =>
                        if reply == Denied(PasswordChanged) then Some(PasswordChange) else Some(Rotation)
                      case ChangePassword(_, _) => Some(PasswordChange)
                      case SuspendReseller(_) => None
                      case _ => Some(UserInitiated)
                    })))
  {
    if c.Refresh? {
      RefreshMarks(s, c.raw, c.member, c.minted, id);
    }
  }

  lemma RefreshMarks(s: State, raw: Raw, member: bool, minted: Raw, id: nat)
    requires Inv(s) && Possible(s, Refresh(raw, member, minted)) && id in s.tokens
    ensures var (s', reply) := RefreshToken(s, raw, member, minted);
            && id in s'.tokens
            && (s'.tokens[id].revoked != s.tokens[id].revoked ==>
                  s'.tokens[id].revoked ==
                  Some(Mark(s.now / 1000, Some(if reply == Denied(PasswordChanged) then PasswordChange else Rotation))))
  {
  }

  /** And which tokens are unrevoked after a refresh, by its answer. */
  lemma LiveAfterRefresh(s: State, raw: Raw, member: bool, minted: Raw, id: nat)
    requires Inv(s) && Possible(s, Refresh(raw, member, minted))
    ensures var (s', reply) := Serve(s, Refresh(raw, member, minted));
            var live := id in s.tokens && s.tokens[id].revoked.None?;
            && (reply in {Denied(ReuseDetected), Denied(NoMembership), Denied(PasswordChanged), Issued(minted)} ==>
                  raw.Signed? && raw.tokenId in s.tokens)
            && ((id in s'.tokens && s'.tokens[id].revoked.None?) <==>
                if reply.Issued? then (live && id != raw.tokenId) || id == minted.tokenId
                else if reply == Denied(ReuseDetected) then live && s.tokens[id].user != s.tokens[raw.tokenId].user
                else if reply.error == NoMembership || reply.error == PasswordChanged then live && id != raw.tokenId
                else live)
  {
  }

  /** What the other calls answer. */
  lemma Replies(s: State, c: Call)
    requires Inv(s) && Possible(s, c) && !c.Refresh? && !c.ChangePassword?
    ensures Serve(s, c).1 ==
            match c {
              case Login(_, _, minted) => Issued(minted)
              case RevokeSession(user, id) =>
                if id in s.tokens && s.tokens[id].user == user then Done else Denied(SessionNotFound)
              case RevokeAllOtherSessions(_, current) =>
                if exists id :: id in s.tokens && s.tokens[id].revoked == None && s.tokens[id].hash == current
                then Done else Denied(InvalidToken)
              case SwitchInstitute(user, _, member, minted) =>
                if member && user in s.users then Issued(minted) else Denied(NoMembership)
              case _ => Done
            }
  {
    if c.RevokeAllOtherSessions? && FindByHash(s, c.current).None? {
      forall id | id in s.tokens && s.tokens[id].revoked == None ensures s.tokens[id].hash != c.current {
        assert Genuine(s.tokens[id], id, s.users.Keys, s.now);
      }
    }
  }

  /** A change of password succeeds exactly for a known user with the right one, and is dated now. */
  lemma PasswordDated(s: State, user: nat, verified: bool)
    requires Inv(s)
    ensures var (s', reply) := Serve(s, ChangePassword(user, verified));
            && (reply.Done? <==> user in s.users && verified)
            && s'.users == if reply.Done? then s.users[user := Some(s.now)] else s.users
  {
  }

  /** A login and a switch begin a lineage of their own. */
  lemma NewLineage(s: State, c: Call, id: nat)
    requires Inv(s) && Possible(s, c) && (c.Login? || c.SwitchInstitute?) && Serve(s, c).1.Issued? && id in s.tokens
    ensures var s' := Serve(s, c).0;
            id in s'.tokens && c.minted.tokenId in s'.tokens
            && s'.tokens[id].lineage != s'.tokens[c.minted.tokenId].lineage
  {
  }

  /**
   A successful refresh retires exactly the presented token, which was live, and creates
   exactly one, in its lineage.
   */
  lemma RefreshReplacesOne(s: State, raw: Raw, member: bool, minted: Raw)
    requires Inv(s) && Possible(s, Refresh(raw, member, minted))
    requires Serve(s, Refresh(raw, member, minted)).1.Issued?
    ensures var s' := Serve(s, Refresh(raw, member, minted)).0;
            && raw.Signed? && raw.tokenId in LiveIds(s) && minted.Signed? && minted.tokenId !in LiveIds(s)
            && LiveIds(s') == LiveIds(s) - {raw.tokenId} + {minted.tokenId}
            && s'.tokens[minted.tokenId].lineage == s.tokens[raw.tokenId].lineage
            && s'.tokens[minted.tokenId].user == s.tokens[raw.tokenId].user
            && s'.tokens[minted.tokenId].scope == s.tokens[raw.tokenId].scope
            && s'.tokens[raw.tokenId].revoked == Some(Mark(s.now / 1000, Some(Rotation)))
  {
  }

  /** Exactly when a refresh is accepted, whatever the membership lookup then says. */
  lemma AcceptedIff(s: State, raw: Raw)
    requires Inv(s)
    ensures Validate(s, raw).Accept? <==>
            && raw.Signed? && raw.tokenId in s.tokens && s.tokens[raw.tokenId].revoked.None?
            && s.tokens[raw.tokenId].hash == raw && s.tokens[raw.tokenId].user in s.users
            && s.tokens[raw.tokenId].expiresAt >= s.now / 1000
            && var changed := s.users[s.tokens[raw.tokenId].user];
               changed.Some? ==> s.tokens[raw.tokenId].createdAt / 1000 >= changed.value / 1000
  {
    if raw.Signed? && raw.tokenId in s.tokens {
      assert Genuine(s.tokens[raw.tokenId], raw.tokenId, s.users.Keys, s.now);
    }
  }

  /**
   What a refresh answers, by the row of the token presented: first whether there is one, then
   why it was revoked, then its expiry, then the password, and last the membership.
   */
  lemma RefreshAnswers(s: State, raw: Raw, member: bool, minted: Raw)
    requires Inv(s) && Possible(s, Refresh(raw, member, minted))
    ensures Serve(s, Refresh(raw, member, minted)).1 ==
            if raw.Unsigned? || raw.tokenId !in s.tokens || s.tokens[raw.tokenId].hash != raw then Denied(InvalidToken)
            else
              var t := s.tokens[raw.tokenId];
              var changed := if t.user in s.users then s.users[t.user] else None;
              if t.revoked.Some? then
                if t.revoked.value.reason == None || t.revoked.value.reason == Some(Rotation)
                then Denied(ReuseDetected) else Denied(TokenRevoked)
              else if s.now / 1000 > t.expiresAt then Denied(TokenExpired)
              else if changed.Some? && t.createdAt / 1000 < changed.value / 1000 then Denied(PasswordChanged)
              else if !member then Denied(NoMembership)
              else Issued(minted)
  {
    if raw.Signed? && raw.tokenId in s.tokens {
      assert Genuine(s.tokens[raw.tokenId], raw.tokenId, s.users.Keys, s.now);
    }
  }

  ghost predicate Issues(s: State, c: Call)
    requires Possible(s, c)
  {
    (c.Login? || c.Refresh? || c.SwitchInstitute?) && Serve(s, c).1 == Issued(c.minted)
  }

  /**
   The row of a token just issued: for the user who logs in, switches or presented a token; of
   the scope asked for, Institute, or that of the token presented; good for seven days.
   */
  lemma IssuedRow(s: State, c: Call)
    requires Inv(s) && Possible(s, c) && Issues(s, c)
    ensures c.Refresh? ==> c.raw.Signed? && c.raw.tokenId in s.tokens
    ensures c.minted.Signed? && c.minted.tokenId !in s.tokens && c.minted.tokenId in Serve(s, c).0.tokens
    ensures var t := Serve(s, c).0.tokens[c.minted.tokenId];
            && t.hash == c.minted && t.revoked == None
            && t.createdAt == s.now && t.expiresAt == s.now / 1000 + 7 * 24 * 60 * 60 * 1000
            && t.user == (if c.Refresh? then s.tokens[c.raw.tokenId].user else c.user)
            && t.scope == match c {
                            case Login(_, scope, _) => scope
                            case Refresh(raw, _, _) => s.tokens[raw.tokenId].scope
                            case _ => Institute
                          }
  {
  }

  /**
   How long a token is good: one issued by the call at i is accepted at a later state j exactly
   when it has not been revoked, its user has not changed the password in a later millisecond,
   and no more than seven days have gone by, in whole milliseconds.
   */
  lemma IssuedAcceptedIff(r: Run<State, Call>, i: nat, j: nat)
    requires Valid(r) && i < |r.calls| && i < j < |r.states|
    requires Possible(r.states[i], r.calls[i]) && Issues(r.states[i], r.calls[i])
    ensures var s, issued, raw := r.states[j], r.states[i].now, r.calls[i].minted;
            && raw.tokenId in s.tokens && s.tokens[raw.tokenId].user in s.users
            && var changed := s.users[s.tokens[raw.tokenId].user];
            Validate(s, raw).Accept? <==>
              && s.tokens[raw.tokenId].revoked == None
              && (changed.Some? ==> changed.value / 1000 <= issued / 1000)
              && s.now / 1000 <= issued / 1000 + 7 * 24 * 60 * 60 * 1000
  {
    var id := r.calls[i].minted.tokenId;
    Reachable(r, i);
    Reachable(r, j);
    IssuedRow(r.states[i], r.calls[i]);
    assert Follows(Next, r, i);
    RunLater(r, i + 1, j);
    assert RowLater(r.states[i + 1].tokens[id], r.states[j].tokens[id]);
    assert Genuine(r.states[j].tokens[id], id, r.states[j].users.Keys, r.states[j].now);
    AcceptedIff(r.states[j], r.calls[i].minted);
  }

  /** Once revoked, a token is revoked in every later state, and presenting it never yields a token again. */
  lemma RevokedNeverUsableAgain(r: Run<State, Call>, i: nat, j: nat, raw: Raw, member: bool, minted: Raw)
    requires Valid(r) && i <= j < |r.states| && raw.Signed?
    requires raw.tokenId in r.states[i].tokens && !Live(r.states[i], raw.tokenId)
    requires Possible(r.states[j], Refresh(raw, member, minted))
    ensures raw.tokenId in r.states[j].tokens && !Live(r.states[j], raw.tokenId)
    ensures Serve(r.states[j], Refresh(raw, member, minted)).1.Denied?
  {
    RunLater(r, i, j);
    assert RowLater(r.states[i].tokens[raw.tokenId], r.states[j].tokens[raw.tokenId]);
  }

  /** Replaying a token retired by rotation, or without a reason, leaves its user with no unrevoked token. */
  lemma ReplayRevokesEverything(s: State, raw: Raw, member: bool, minted: Raw)
    requires Inv(s) && Possible(s, Refresh(raw, member, minted)) && raw.Signed?
    requires raw.tokenId in s.tokens && s.tokens[raw.tokenId].hash == raw
    requires s.tokens[raw.tokenId].revoked.Some? && !NonRotation(s.tokens[raw.tokenId].revoked)
    ensures var (s', reply) := Serve(s, Refresh(raw, member, minted));
            && reply == Denied(ReuseDetected)
            && LiveOf(s', s.tokens[raw.tokenId].user) == {}
            && forall u | u != s.tokens[raw.tokenId].user :: LiveOf(s', u) == LiveOf(s, u)
  {
    assert Genuine(s.tokens[raw.tokenId], raw.tokenId, s.users.Keys, s.now);
  }

  /** A reason other than rotation is never turned into rotation, or into none, by any later call. */
  lemma NeverReclassified(r: Run<State, Call>, i: nat, j: nat, id: nat)
    requires Valid(r) && i <= j < |r.states|
    requires id in r.states[i].tokens && NonRotation(r.states[i].tokens[id].revoked)
    ensures id in r.states[j].tokens && NonRotation(r.states[j].tokens[id].revoked)
  {
    RunLater(r, i, j);
    assert RowLater(r.states[i].tokens[id], r.states[j].tokens[id]);
  }

  /**
   Keep-alive, as far as the replays go: whatever has happened since, presenting a token
   that `revokeAllOtherSessions` revoked changes nothing at all.
   */
  lemma ReplayAfterRevokeAllOthers(r: Run<State, Call>, i: nat, j: nat, raw: Raw, member: bool, minted: Raw)
    requires Valid(r) && i < |r.calls| && i < j < |r.states| && r.calls[i].RevokeAllOtherSessions?
    requires FindByHash(r.states[i], r.calls[i].current).Some? && raw.Signed?
    requires raw.tokenId in LiveOf(r.states[i], r.calls[i].user) && raw.tokenId != r.calls[i].current.tokenId
    requires Possible(r.states[j], Refresh(raw, member, minted))
    ensures var (s', reply) := Serve(r.states[j], Refresh(raw, member, minted)); s' == r.states[j] && reply.Denied?
  {
    assert Follows(Next, r, i);
    NeverReclassified(r, i + 1, j, raw.tokenId);
  }

  /**
   A call that names the token itself, or revokes everything of its user, or replays one of the
   user's rotated tokens.
   */
  ghost predicate Touches(s: State, c: Call, id: nat)
    requires id in s.tokens
  {
    match c
    case Refresh(raw, _, _) =>
      (raw.Signed? && raw.tokenId == id) || Validate(s, raw) == Cascade(s.tokens[id].user)
    case LogoutOne(other) => other == id
    case LogoutAll(user) => user == s.tokens[id].user
    case RevokeSession(_, other) => other == id
    case RevokeAllOtherSessions(user, current) => user == s.tokens[id].user && FindByHash(s, current) != Some(id)
    case ChangePassword(user, _) => user == s.tokens[id].user
    case SwitchInstitute(_, current, _, _) => FindByHash(s, current) == Some(id)
    case SuspendReseller(staff) => s.tokens[id].user in staff
    case _ => false
  }

  /**
   Keep-alive over whole runs: after `revokeAllOtherSessions` with the user's own current
   token, that is the user's only live token, and it stays live until a call that
   touches it: a replay can do so only with a token that had been rotated away.
   */
  lemma {:induction false} KeptTokenStaysLive(r: Run<State, Call>, i: nat, j: nat, kept: nat)
    requires Valid(r) && i < |r.calls| && i < j < |r.states| && r.calls[i].RevokeAllOtherSessions?
    requires FindByHash(r.states[i], r.calls[i].current) == Some(kept)
    requires r.states[i].tokens[kept].user == r.calls[i].user
    requires forall k | i < k < j :: kept in r.states[k].tokens ==> !Touches(r.states[k], r.calls[k], kept)
    ensures Live(r.states[j], kept) && r.states[j].tokens[kept].user == r.calls[i].user
    ensures LiveOf(r.states[i + 1], r.calls[i].user) == {kept}
    decreases j
  {
    assert Follows(Next, r, i);
    if j > i + 1 {
      KeptTokenStaysLive(r, i, j - 1, kept);
      assert Follows(Next, r, j - 1);
      UntouchedStaysLive(r.states[j - 1], r.calls[j - 1], kept);
    }
  }

  lemma UntouchedStaysLive(s: State, c: Call, id: nat)
    requires Possible(s, c) && Live(s, id) && !Touches(s, c, id)
    ensures Live(Serve(s, c).0, id) && Serve(s, c).0.tokens[id] == s.tokens[id]
  {
  }

  /**
   `revokeAllOtherSessions` does not check whose token it was given: the user keeps a
   session exactly when the token was their own.
   */
  lemma KeepsASessionIffOwn(s: State, user: nat, current: Raw)
    requires Inv(s) && FindByHash(s, current).Some?
    ensures var s' := Serve(s, RevokeAllOtherSessions(user, current)).0;
            LiveOf(s', user) != {} <==> s.tokens[current.tokenId].user == user
  {
    var s' := Serve(s, RevokeAllOtherSessions(user, current)).0;
    if s.tokens[current.tokenId].user == user {
      assert current.tokenId in LiveOf(s', user);
    }
  }

  /** Revoked, and its replay is taken for theft: rotated away, or without a reason. */
  ghost predicate Replayable(t: Token) {
    t.revoked.Some? && !NonRotation(t.revoked)
  }

  /** A call that revokes this one token by its id, without looking whether it is revoked already. */
  ghost predicate Overwrites(c: Call, id: nat, owner: nat) {
    c == LogoutOne(id) || c == RevokeSession(owner, id)
  }

  /** Of all calls, only these turn a token whose replay is detected into one whose replay is not. */
  lemma OnlyOverwritesReclassify(s: State, c: Call, id: nat)
    requires Inv(s) && Possible(s, c) && id in s.tokens && s.tokens[id].revoked.Some?
    ensures id in Serve(s, c).0.tokens
    ensures var t := Serve(s, c).0.tokens[id];
            Replayable(t) <==> Replayable(s.tokens[id]) && !Overwrites(c, id, s.tokens[id].user)
  {
    match c
    case Login(_, _, _) =>
    case Refresh(raw, member, minted) => RefreshSparesRevoked(s, raw, member, minted, id);
    case LogoutOne(_) =>
    case LogoutAll(user) => RetireSparesOthers(s, LiveOf(s, user), Some(UserInitiated), id);
    case RevokeSession(_, _) =>
    case RevokeAllOtherSessions(_, _) =>
    case ChangePassword(_, _) =>
    case SwitchInstitute(_, _, _, _) =>
    case SuspendReseller(staff) => RetireSparesOthers(s, LiveStaff(s, staff), None, id);
    case Wait(_) =>
  }

  lemma RetireSparesOthers(s: State, ids: set<nat>, reason: Option<Reason>, id: nat)
    requires id in s.tokens && id !in ids
    ensures id in Retire(s, ids, reason).tokens && Retire(s, ids, reason).tokens[id] == s.tokens[id]
  {
  }

  lemma RefreshSparesRevoked(s: State, raw: Raw, member: bool, minted: Raw, id: nat)
    requires Possible(s, Refresh(raw, member, minted)) && id in s.tokens && s.tokens[id].revoked.Some?
    ensures id in RefreshToken(s, raw, member, minted).0.tokens
    ensures RefreshToken(s, raw, member, minted).0.tokens[id] == s.tokens[id]
  {
  }

  lemma {:induction false} ReplayableIff(r: Run<State, Call>, i: nat, j: nat, id: nat)
    requires Valid(r) && i <= j < |r.states|
    requires id in r.states[i].tokens && Replayable(r.states[i].tokens[id])
    ensures id in r.states[j].tokens && r.states[j].tokens[id].revoked.Some?
    ensures Replayable(r.states[j].tokens[id]) <==>
            forall k | i <= k < j :: !Overwrites(r.calls[k], id, r.states[i].tokens[id].user)
    decreases j
  {
    if i < j {
      ReplayableIff(r, i, j - 1, id);
      SameOwner(r, i, j - 1, id);
      Reachable(r, j - 1);
      assert Follows(Next, r, j - 1);
      OnlyOverwritesReclassify(r.states[j - 1], r.calls[j - 1], id);
    }
  }

  lemma SameOwner(r: Run<State, Call>, i: nat, j: nat, id: nat)
    requires Valid(r) && i <= j < |r.states| && id in r.states[i].tokens
    ensures id in r.states[j].tokens && r.states[j].tokens[id].user == r.states[i].tokens[id].user
    ensures r.states[j].tokens[id].hash == r.states[i].tokens[id].hash
  {
    RunLater(r, i, j);
    assert RowLater(r.states[i].tokens[id], r.states[j].tokens[id]);
  }

  /**
   When a replay is detected. Take a token that has been rotated away, or was revoked without
   a reason. Presenting it at any later time is answered with ReuseDetected and ends every
   session of its owner exactly when, in between, nobody logged that very token out and its
   owner did not revoke that very session; otherwise it changes nothing.
   */
  lemma ReplayDetectedIff(r: Run<State, Call>, i: nat, j: nat, raw: Raw, member: bool, minted: Raw)
    requires Valid(r) && i <= j < |r.states| && raw.Signed? && raw.tokenId in r.states[i].tokens
    requires r.states[i].tokens[raw.tokenId].hash == raw && Replayable(r.states[i].tokens[raw.tokenId])
    requires Possible(r.states[j], Refresh(raw, member, minted))
    ensures var owner := r.states[i].tokens[raw.tokenId].user;
            var (s', reply) := Serve(r.states[j], Refresh(raw, member, minted));
            if forall k | i <= k < j :: !Overwrites(r.calls[k], raw.tokenId, owner)
            then reply == Denied(ReuseDetected) && LiveOf(s', owner) == {}
            else reply == Denied(TokenRevoked) && s' == r.states[j]
  {
    ReplayableIff(r, i, j, raw.tokenId);
    SameOwner(r, i, j, raw.tokenId);
    Reachable(r, j);
    assert Genuine(r.states[j].tokens[raw.tokenId], raw.tokenId, r.states[j].users.Keys, r.states[j].now);
  }

  /**
   Suspending a reseller leaves no reason on the tokens it revokes. However late such a
   token is replayed, it ends every session of that member of staff, of every scope, unless
   the token was logged out or its session revoked in between.
   */
  lemma SuspendedStaffReplayCascades(r: Run<State, Call>, i: nat, j: nat, raw: Raw, member: bool, minted: Raw)
    requires Valid(r) && i < |r.calls| && i < j < |r.states| && r.calls[i].SuspendReseller? && raw.Signed?
    requires raw.tokenId in LiveStaff(r.states[i], r.calls[i].staff) && r.states[i].tokens[raw.tokenId].hash == raw
    requires Possible(r.states[j], Refresh(raw, member, minted))
    ensures var owner := r.states[i].tokens[raw.tokenId].user;
            var (s', reply) := Serve(r.states[j], Refresh(raw, member, minted));
            if forall k | i < k < j :: !Overwrites(r.calls[k], raw.tokenId, owner)
            then reply == Denied(ReuseDetected) && LiveOf(s', owner) == {}
            else reply == Denied(TokenRevoked) && s' == r.states[j]
  {
    assert Follows(Next, r, i);
    ReplayDetectedIff(r, i + 1, j, raw, member, minted);
  }

  // ------------------------------------------------------------- the service

  /** The token repository and the part of the auth service that works on it. */
  class AuthService {
    var tokens: map<nat, Token>
    var users: map<nat, Option<int>>
    var now: int
    var logins: nat

    ghost function Model(): State
      reads this
    {
      State(tokens, users, now, logins)
    }

    ghost predicate Valid()
      reads this
    {
      Inv(Model())
    }

    constructor (users: map<nat, Option<int>>, now: int)
      ensures Valid() && Model() == State(map[], users, now, 0)
    {
      this.tokens, this.users, this.now, this.logins := map[], users, now, 0;
    }

    // repository

    method Revoke(id: nat, reason: Reason)
      modifies `tokens
      ensures Model() == Retire(old(Model()), {id}, Some(reason))
    {
      if id in tokens {
        tokens := tokens[id := tokens[id].(revoked := Some(Mark(Millis(now), Some(reason))))];
      }
      assert tokens == Retire(old(Model()), {id}, Some(reason)).tokens;
    }

    method RevokeAllForUser(user: nat, reason: Reason)
      modifies `tokens
      ensures Model() == Retire(old(Model()), LiveOf(old(Model()), user), Some(reason))
    {
      var at := Millis(now);
      tokens := map id | id in tokens ::
        if tokens[id].user == user && tokens[id].revoked.None? then tokens[id].(revoked := Some(Mark(at, Some(reason))))
        else tokens[id];
      assert tokens == Retire(old(Model()), LiveOf(old(Model()), user), Some(reason)).tokens;
    }

    method RevokeAllOtherForUser(user: nat, currentTokenId: nat, reason: Reason)
      modifies `tokens
      ensures Model() == Retire(old(Model()), LiveOf(old(Model()), user) - {currentTokenId}, Some(reason))
    {
      var at := Millis(now);
      tokens := map id | id in tokens ::
        if tokens[id].user == user && tokens[id].revoked.None? && id != currentTokenId
        then tokens[id].(revoked := Some(Mark(at, Some(reason))))
        else tokens[id];
      assert tokens == Retire(old(Model()), LiveOf(old(Model()), user) - {currentTokenId}, Some(reason)).tokens;
    }

    /** The unrevoked row with the given hash: there is one exactly when the result says so. */
    method FindRowByHash(raw: Raw) returns (found: Option<nat>)
      requires Valid()
      ensures found == FindByHash(Model(), raw)
      ensures found.None? ==> forall id | Live(Model(), id) :: tokens[id].hash != raw
      ensures found.Some? ==> forall id | Live(Model(), id) && tokens[id].hash == raw :: id == found.value
    {
      found := None;
      if raw.Signed? && raw.tokenId in tokens && tokens[raw.tokenId].revoked.None? && tokens[raw.tokenId].hash == raw {
        found := Some(raw.tokenId);
      }
      forall id | Live(Model(), id) && tokens[id].hash == raw ensures raw.Signed? && id == raw.tokenId {
        assert Genuine(tokens[id], id, users.Keys, now);
      }
    }

    // service

    /** The new row continues lineage `lineage`, or begins the next one. */
    method IssueTokens(minted: Raw, user: nat, scope: Scope, lineage: Option<nat>) returns (reply: Reply)
      requires Valid() && minted.Signed? && minted.tokenId !in tokens && user in users
      requires lineage.Some? ==>
                 lineage.value < logins && forall id | Live(Model(), id) :: tokens[id].lineage != lineage.value
      modifies `tokens, `logins
      ensures Valid() && reply == Issued(minted)
      ensures Model() == if lineage.Some? then Create(old(Model()), minted, user, scope, lineage.value)
                         else Begin(old(Model()), minted, user, scope)
      ensures tokens == old(tokens)[minted.tokenId :=
                Token(user, minted, scope, now, now / 1000 + 7 * 24 * 60 * 60 * 1000, None,
                      if lineage.Some? then lineage.value else old(logins))]
    {
      if lineage.Some? {
        CreateLater(Model(), minted, user, scope, lineage.value);
      } else {
        BeginLater(Model(), minted, user, scope);
      }
      var expiresAt := Millis(now) + REFRESH_TTL_SECONDS * 1000;
      var row := Token(user, minted, scope, now, expiresAt, None, if lineage.Some? then lineage.value else logins);
      tokens := tokens[minted.tokenId := row];
      if lineage.None? {
        logins := logins + 1;
      }
      reply := Issued(minted);
    }

    method LoadAndValidateStoredRefreshToken(raw: Raw) returns (r: Result<nat, Error>)
      requires Valid()
      modifies `tokens
      ensures Valid()
      ensures Validate(old(Model()), raw).Accept? <==> r.Ok?
      ensures r.Ok? ==> Model() == old(Model()) && Validate(Model(), raw) == Accept(r.value)
      ensures r.Err? ==> (Model(), Denied(r.error)) == RefreshToken(old(Model()), raw, false, Signed(0, 0))
    {
      TurnedAwayLater(Model(), raw);
      if raw.Unsigned? || raw.tokenId !in tokens {
        return Err(InvalidToken);
      }
      var storedToken := tokens[raw.tokenId];
      assert Genuine(storedToken, raw.tokenId, users.Keys, now);
      if storedToken.hash != raw {
        return Err(InvalidToken);
      }
      if storedToken.revoked.Some? {
        var reason := storedToken.revoked.value.reason;
        if reason == None || reason == Some(Rotation) {
          RevokeAllForUser(storedToken.user, Rotation);
          return Err(ReuseDetected);
        }
        return Err(TokenRevoked);
      }
      if storedToken.expiresAt < Millis(now) {
        return Err(TokenExpired);
      }
      if BehindFence(storedToken.createdAt, users[storedToken.user]) {
        Revoke(raw.tokenId, PasswordChange);
        return Err(PasswordChanged);
      }
      return Ok(raw.tokenId);
    }

    method Refresh(raw: Raw, member: bool, minted: Raw) returns (reply: Reply)
      requires Valid() && Possible(Model(), Call.Refresh(raw, member, minted))
      modifies `tokens, `logins
      ensures Valid() && (Model(), reply) == Serve(old(Model()), Call.Refresh(raw, member, minted))
    {
      RefreshLater(Model(), raw, member, minted);
      var r := LoadAndValidateStoredRefreshToken(raw);
      if r.Err? {
        return Denied(r.error);
      }
      var storedToken := tokens[r.value];
      RotateLater(Model(), r.value, minted);
      OneLeft(Model(), r.value);
      Revoke(r.value, Rotation);
      if !member {
        return Denied(NoMembership);
      }
      reply := IssueTokens(minted, storedToken.user, storedToken.scope, Some(storedToken.lineage));
    }

    method Logout(user: nat, refreshTokenId: Option<nat>)
      requires Valid()
      modifies `tokens
      ensures Valid()
      ensures var call := if refreshTokenId.Some? then LogoutOne(refreshTokenId.value) else LogoutAll(user);
              Model() == Serve(old(Model()), call).0
    {
      ServeLater(Model(), if refreshTokenId.Some? then LogoutOne(refreshTokenId.value) else LogoutAll(user));
      if refreshTokenId.Some? {
        Revoke(refreshTokenId.value, UserInitiated);
      } else {
        RevokeAllForUser(user, UserInitiated);
      }
    }

    method RevokeSession(user: nat, sessionId: nat) returns (reply: Reply)
      requires Valid()
      modifies `tokens
      ensures Valid() && (Model(), reply) == Serve(old(Model()), Call.RevokeSession(user, sessionId))
    {
      ServeLater(Model(), Call.RevokeSession(user, sessionId));
      if sessionId !in tokens || tokens[sessionId].user != user {
        return Denied(SessionNotFound);
      }
      Revoke(sessionId, UserInitiated);
      reply := Done;
    }

    method RevokeAllOtherSessions(user: nat, currentRefreshToken: Raw) returns (reply: Reply)
      requires Valid()
      modifies `tokens
      ensures Valid() && (Model(), reply) == Serve(old(Model()), Call.RevokeAllOtherSessions(user, currentRefreshToken))
    {
      ServeLater(Model(), Call.RevokeAllOtherSessions(user, currentRefreshToken));
      var currentToken := FindRowByHash(currentRefreshToken);
      if currentToken.None? {
        return Denied(InvalidToken);
      }
      RevokeAllOtherForUser(user, currentToken.value, UserInitiated);
      reply := Done;
    }

    /** `verified` stands for the checks on the two passwords. */
    method ChangePassword(user: nat, verified: bool) returns (reply: Reply)
      requires Valid()
      modifies `tokens, `users
      ensures Valid() && (Model(), reply) == Serve(old(Model()), Call.ChangePassword(user, verified))
    {
      ServeLater(Model(), Call.ChangePassword(user, verified));
      if user !in users || !verified {
        return Denied(BadPassword);
      }
      users := users[user := Some(now)];
      RevokeAllForUser(user, PasswordChange);
      reply := Done;
    }

    method SwitchInstitute(user: nat, currentRefreshToken: Raw, member: bool, minted: Raw) returns (reply: Reply)
      requires Valid() && Possible(Model(), Call.SwitchInstitute(user, currentRefreshToken, member, minted))
      modifies `tokens, `logins
      ensures Valid()
      ensures (Model(), reply) == Serve(old(Model()), Call.SwitchInstitute(user, currentRefreshToken, member, minted))
    {
      var currentToken := FindRowByHash(currentRefreshToken);
      if currentToken.Some? {
        RetireLater(Model(), {currentToken.value}, Some(UserInitiated));
        Revoke(currentToken.value, UserInitiated);
      }
      if !member || user !in users {
        return Denied(NoMembership);
      }
      reply := IssueTokens(minted, user, Institute, None);
    }
  }
}

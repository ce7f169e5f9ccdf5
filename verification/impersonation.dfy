/**
 Starting an impersonation: the OTP gate, the one-time code and the access token. Redis
 keys live while now < expiresAt; times are in milliseconds. A service call is one step.
 What the guard makes of the token afterwards is in SessionGuard.
 */
module Impersonation {
  import opened Wrappers
  import opened Runs

  const CODE_TTL: int := 30_000
  const ACCESS_TTL_SECONDS: int := 900
  const MAX_SESSION_DURATION: int := 60 * 60 * 1000
  const OTP_TTL_SECONDS: int := 300
  const MAX_OTP_ATTEMPTS: nat := 3

  datatype Scope = Platform | Reseller | Institute

  /** A session row; `otpRequired` is not a column: it is what the OTP gate decided at the start. */
  datatype Session = Session(impersonator: nat, target: nat, otpRequired: bool, startedAt: int, expiresAt: int,
                             endedAt: Option<int>)

  datatype Code = Code(session: nat, expiresAt: int)

  datatype Otp = Otp(otp: nat, attempts: nat, expiresAt: int)

  /** What has happened: an OTP was tried, a code was issued, a code was handed in and gave a token or did not. */
  datatype Event =
    | OtpTried(session: nat, who: nat, right: bool)
    | CodeIssued(session: nat, code: nat, at: int)
    | Exchanged(session: nat, code: nat, tokenExpiry: Option<int>)

  datatype State = State(sessions: map<nat, Session>, codes: map<nat, Code>, otps: map<nat, Otp>, now: int,
                         log: seq<Event>)

  datatype Error =
    | NotAllowed | Undeliverable | SessionNotFound | NotAuthorized | SessionEnded
    | OtpMissing | OtpInvalid | MaximumAttempts | CodeMissing | NoLongerActive

  datatype Reply = Done | OtpRequired(session: nat) | CodeGiven(code: nat) | Token(expiry: int) | Denied(error: Error)

  /**
   One call. The ids and the OTP it would draw at random are given; `allowed`,
   `deliverable` and `active` stand for the checks against users, memberships,
   institutes and phone numbers.
   */
  datatype Call =
    | Start(who: nat, scope: Scope, target: nat, consent: bool, allowed: bool, deliverable: bool, id: nat, otp: nat,
            code: nat)
    | VerifyOtp(session: nat, otp: nat, who: nat, code: nat)
    | Exchange(code: nat, active: bool)
    | End(session: nat, who: nat)
    | Wait(ms: nat)

  // -------------------------------------------------------------------- counting

  datatype What =
    | WrongTryFor(session: nat) | IssueFor(session: nat) | UseFor(session: nat) | IssueOf(code: nat) | UseOf(code: nat)

  predicate Is(e: Event, w: What) {
    match w
    case WrongTryFor(x) => e.OtpTried? && e.session == x && !e.right
    case IssueFor(x) => e.CodeIssued? && e.session == x
    case UseFor(x) => e.Exchanged? && e.session == x
    case IssueOf(c) => e.CodeIssued? && e.code == c
    case UseOf(c) => e.Exchanged? && e.code == c
  }

  function Count(log: seq<Event>, w: What): nat {
    if log == [] then 0
    else Count(log[..|log| - 1], w) + if Is(log[|log| - 1], w) then 1 else 0
  }

  lemma CountSnoc(log: seq<Event>, e: Event, w: What)
    ensures Count(log + [e], w) == Count(log, w) + if Is(e, w) then 1 else 0
  {
    assert (log + [e])[..|log|] == log;
  }

  // ----------------------------------------------------------------------- calls

  function Logged(s: State, e: Event): State {
    s.(log := s.log + [e])
  }

  predicate NeedsOtp(scope: Scope, consent: bool) {
    scope == Reseller || (scope == Platform && consent)
  }

  function Issue(s: State, session: nat, code: nat): State {
    Logged(s, CodeIssued(session, code, s.now)).(codes := s.codes[code := Code(session, s.now + CODE_TTL)])
  }

  /** Redis TTL: the remaining time in seconds, rounded. */
  function Ttl(o: Otp, now: int): int {
    (o.expiresAt - now + 500) / 1000
  }

  /** The OTP key rewritten after a wrong attempt, with what TTL said was left, or with the full time if that was 0. */
  function Rewritten(o: Otp, now: int): Otp {
    var ttl := Ttl(o, now);
    Otp(o.otp, o.attempts + 1, now + (if ttl > 0 then ttl else OTP_TTL_SECONDS) * 1000)
  }

  /** When the JWT expires: its times are in whole seconds. */
  function TokenExpiry(now: int): int {
    (now / 1000 + ACCESS_TTL_SECONDS) * 1000
  }

  /** Random ids are new. */
  predicate Possible(s: State, c: Call) {
    match c
    case Start(_, _, _, _, _, _, id, _, code) =>
      id !in s.sessions && Count(s.log, IssueOf(code)) == 0 && code !in s.codes
    case VerifyOtp(_, _, _, code) => Count(s.log, IssueOf(code)) == 0 && code !in s.codes
    case _ => true
  }

  function StartImpersonation(s: State, c: Call): (State, Reply)
    requires c.Start?
  {
    if !c.allowed then (s, Denied(NotAllowed))
    else
      var row := Session(c.who, c.target, NeedsOtp(c.scope, c.consent), s.now, s.now + MAX_SESSION_DURATION, None);
      var s1 := s.(sessions := s.sessions[c.id := row]);
      if !row.otpRequired then (Issue(s1, c.id, c.code), CodeGiven(c.code))
      else if !c.deliverable then (s1, Denied(Undeliverable))
      else (s1.(otps := s1.otps[c.id := Otp(c.otp, 0, s.now + OTP_TTL_SECONDS * 1000)]), OtpRequired(c.id))
  }

  function TryOtp(s: State, session: nat, otp: nat, who: nat, code: nat): (State, Reply)
    requires session in s.otps
  {
    var o := s.otps[session];
    var s1 := Logged(s, OtpTried(session, who, o.otp == otp));
    if o.otp != otp then
      if o.attempts + 1 >= MAX_OTP_ATTEMPTS then (s1.(otps := s.otps - {session}), Denied(MaximumAttempts))
      else (s1.(otps := s.otps[session := Rewritten(o, s.now)]), Denied(OtpInvalid))
    else (Issue(s1.(otps := s.otps - {session}), session, code), CodeGiven(code))
  }

  function CheckOtp(s: State, session: nat, otp: nat, who: nat, code: nat): (State, Reply) {
    if session !in s.sessions then (s, Denied(SessionNotFound))
    else if s.sessions[session].impersonator != who then (s, Denied(NotAuthorized))
    else if s.sessions[session].endedAt.Some? then (s, Denied(SessionEnded))
    else if session !in s.otps || s.now >= s.otps[session].expiresAt then (s, Denied(OtpMissing))
    else TryOtp(s, session, otp, who, code)
  }

  /** GETDEL of the code; the session's end is not looked at. */
  function ExchangeCode(s: State, code: nat, active: bool): (State, Reply) {
    if code !in s.codes || s.now >= s.codes[code].expiresAt then (s, Denied(CodeMissing))
    else
      var session := s.codes[code].session;
      var s1 := s.(codes := s.codes - {code});
      if !active || session !in s.sessions then (Logged(s1, Exchanged(session, code, None)), Denied(NoLongerActive))
      else (Logged(s1, Exchanged(session, code, Some(TokenExpiry(s.now)))), Token(TokenExpiry(s.now)))
  }

  function EndImpersonation(s: State, session: nat, who: nat): (State, Reply) {
    if session !in s.sessions then (s, Denied(SessionNotFound))
    else
      var row := s.sessions[session];
      if row.endedAt.Some? then (s, Denied(SessionEnded))
      else if row.impersonator != who && row.target != who then (s, Denied(NotAuthorized))
      else (s.(sessions := s.sessions[session := row.(endedAt := Some(s.now))]), Done)
  }

  function Serve(s: State, c: Call): (State, Reply)
    requires Possible(s, c)
  {
    match c
    case Start(_, _, _, _, _, _, _, _, _) => StartImpersonation(s, c)
    case VerifyOtp(session, otp, who, code) => CheckOtp(s, session, otp, who, code)
    case Exchange(code, active) => ExchangeCode(s, code, active)
    case End(session, who) => EndImpersonation(s, session, who)
    case Wait(ms) => (s.(now := s.now + ms), Done)
  }

  // ------------------------------------------------------------------- invariants

  predicate SessionOk(row: Session, now: int) {
    row.startedAt <= now && row.expiresAt == row.startedAt + MAX_SESSION_DURATION
  }

  /** At most one code for a session, at most one exchange of that code, and none for a session that does not exist. */
  ghost predicate SessionCounts(s: State, x: nat) {
    && Count(s.log, UseFor(x)) <= Count(s.log, IssueFor(x)) <= 1
    && (x !in s.sessions ==> Count(s.log, IssueFor(x)) == 0 && Count(s.log, WrongTryFor(x)) == 0)
  }

  ghost predicate CodeCounts(s: State, c: nat) {
    Count(s.log, UseOf(c)) <= Count(s.log, IssueOf(c)) <= 1
  }

  /** An OTP that waits: for a session that needs it and has no code, with its wrong attempts counted. */
  ghost predicate OtpOk(s: State, x: nat)
    requires x in s.otps
  {
    var o := s.otps[x];
    && x in s.sessions && s.sessions[x].otpRequired
    && o.attempts < MAX_OTP_ATTEMPTS && Count(s.log, WrongTryFor(x)) == o.attempts
    && Count(s.log, IssueFor(x)) == 0
    && o.expiresAt <= s.sessions[x].startedAt + (o.attempts + 1) * (OTP_TTL_SECONDS * 1000)
  }

  /** A code that waits: the one of its session, not handed in yet. */
  ghost predicate CodeOk(s: State, c: nat)
    requires c in s.codes
  {
    var x := s.codes[c].session;
    && x in s.sessions
    && Count(s.log, IssueOf(c)) == 1 && Count(s.log, UseOf(c)) == 0
    && Count(s.log, IssueFor(x)) == 1 && Count(s.log, UseFor(x)) == 0
    && s.codes[c].expiresAt <= s.sessions[x].startedAt + MAX_OTP_ATTEMPTS * (OTP_TTL_SECONDS * 1000) + CODE_TTL
  }

  /** What an event says is right, given the events before it. */
  ghost predicate EventOk(sessions: map<nat, Session>, log: seq<Event>, i: nat)
    requires i < |log|
  {
    match log[i]
    case OtpTried(_, _, _) => true
    case CodeIssued(x, _, _) =>
      && x in sessions
      && (sessions[x].otpRequired ==>
            && i > 0 && log[i - 1] == OtpTried(x, sessions[x].impersonator, true)
            && Count(log[..i], WrongTryFor(x)) < MAX_OTP_ATTEMPTS)
    case Exchanged(x, _, expiry) => expiry.Some? ==> x in sessions && expiry.value <= sessions[x].expiresAt
  }

  ghost predicate Inv(s: State) {
    && (forall x | x in s.sessions :: SessionOk(s.sessions[x], s.now))
    && (forall x: nat :: SessionCounts(s, x))
    && (forall c: nat :: CodeCounts(s, c))
    && (forall x | x in s.otps :: OtpOk(s, x))
    && (forall c | c in s.codes :: CodeOk(s, c))
    && (forall c, d | c in s.codes && d in s.codes :: s.codes[c].session == s.codes[d].session ==> c == d)
    && (forall i | 0 <= i < |s.log| :: EventOk(s.sessions, s.log, i))
  }

  /** The columns that never change. */
  predicate SameSession(a: Session, b: Session) {
    b == a.(endedAt := b.endedAt)
  }

  ghost predicate SessionsKept(m: map<nat, Session>, m': map<nat, Session>) {
    forall x | x in m :: x in m' && SameSession(m[x], m'[x])
  }

  lemma EventsKept(m: map<nat, Session>, m': map<nat, Session>, log: seq<Event>)
    requires SessionsKept(m, m') && forall i | 0 <= i < |log| :: EventOk(m, log, i)
    ensures forall i | 0 <= i < |log| :: EventOk(m', log, i)
  {
    forall i | 0 <= i < |log| ensures EventOk(m', log, i) {
      assert EventOk(m, log, i);
    }
  }

  lemma EventsSnoc(m: map<nat, Session>, log: seq<Event>, e: Event)
    requires forall i | 0 <= i < |log| :: EventOk(m, log, i)
    requires EventOk(m, log + [e], |log|)
    ensures forall i | 0 <= i < |log + [e]| :: EventOk(m, log + [e], i)
  {
    var l := log + [e];
    forall i | 0 <= i < |l| ensures EventOk(m, l, i) {
      if i < |log| {
        assert EventOk(m, log, i) && l[..i] == log[..i];
      }
    }
  }

  lemma StartKeeps(s: State, row: Session, x: nat)
    requires Inv(s) && x !in s.sessions && SessionOk(row, s.now)
    ensures Inv(s.(sessions := s.sessions[x := row]))
  {
    var s' := s.(sessions := s.sessions[x := row]);
    EventsKept(s.sessions, s'.sessions, s.log);
    forall y: nat ensures SessionCounts(s', y) {
      assert SessionCounts(s, y);
    }
    forall c: nat ensures CodeCounts(s', c) {
      assert CodeCounts(s, c);
    }
    forall y | y in s'.otps ensures OtpOk(s', y) {
      assert OtpOk(s, y);
    }
    forall c | c in s'.codes ensures CodeOk(s', c) {
      assert CodeOk(s, c);
    }
  }

  lemma CountsSnoc(log: seq<Event>, e: Event)
    ensures forall w :: Count(log + [e], w) == Count(log, w) + if Is(e, w) then 1 else 0
  {
    forall w ensures Count(log + [e], w) == Count(log, w) + if Is(e, w) then 1 else 0 {
      CountSnoc(log, e, w);
    }
  }

  /** A code may be issued now for session x. */
  ghost predicate MayIssue(s: State, x: nat, code: nat) {
    && x in s.sessions && x !in s.otps && Count(s.log, IssueFor(x)) == 0
    && Count(s.log, IssueOf(code)) == 0 && code !in s.codes
    && s.now <= s.sessions[x].startedAt + MAX_OTP_ATTEMPTS * (OTP_TTL_SECONDS * 1000)
    && (s.sessions[x].otpRequired ==>
          && s.log != [] && s.log[|s.log| - 1] == OtpTried(x, s.sessions[x].impersonator, true)
          && Count(s.log, WrongTryFor(x)) < MAX_OTP_ATTEMPTS)
  }

  lemma IssueKeepsKeys(s: State, x: nat, code: nat)
    requires Inv(s) && MayIssue(s, x, code)
    ensures var s' := Issue(s, x, code);
            && (forall y | y in s'.otps :: OtpOk(s', y))
            && forall c | c in s'.codes :: CodeOk(s', c)
  {
    var s' := Issue(s, x, code);
    CountsSnoc(s.log, CodeIssued(x, code, s.now));
    assert SessionCounts(s, x) && CodeCounts(s, code);
    forall y | y in s'.otps ensures OtpOk(s', y) {
      assert OtpOk(s, y);
    }
    forall c | c in s'.codes ensures CodeOk(s', c) {
      if c != code { assert CodeOk(s, c); }
    }
  }

  lemma IssueKeeps(s: State, x: nat, code: nat)
    requires Inv(s) && MayIssue(s, x, code)
    ensures Inv(Issue(s, x, code))
  {
    var s' := Issue(s, x, code);
    var e := CodeIssued(x, code, s.now);
    IssueKeepsKeys(s, x, code);
    CountsSnoc(s.log, e);
    assert s'.log[..|s.log|] == s.log;
    EventsSnoc(s.sessions, s.log, e);
    assert SessionCounts(s, x) && CodeCounts(s, code);
    forall y: nat ensures SessionCounts(s', y) {
      assert SessionCounts(s, y);
    }
    forall c: nat ensures CodeCounts(s', c) {
      assert CodeCounts(s, c);
    }
    forall c | c in s.codes ensures s.codes[c].session != x {
      assert CodeOk(s, c);
    }
  }

  /** The OTP key removed or rewritten, and the attempt logged. */
  lemma TryKeeps(s: State, x: nat, who: nat, right: bool, otps: map<nat, Otp>)
    requires Inv(s) && x in s.otps && s.now < s.otps[x].expiresAt
    requires otps == s.otps - {x}
             || (!right && otps == s.otps[x := Rewritten(s.otps[x], s.now)]
                 && s.otps[x].attempts + 1 < MAX_OTP_ATTEMPTS)
    ensures Inv(Logged(s, OtpTried(x, who, right)).(otps := otps))
  {
    var e := OtpTried(x, who, right);
    var s' := Logged(s, e).(otps := otps);
    CountsSnoc(s.log, e);
    EventsSnoc(s.sessions, s.log, e);
    assert OtpOk(s, x);
    forall y: nat ensures SessionCounts(s', y) {
      assert SessionCounts(s, y);
    }
    forall c: nat ensures CodeCounts(s', c) {
      assert CodeCounts(s, c);
    }
    forall y | y in s'.otps ensures OtpOk(s', y) {
      assert OtpOk(s, y);
    }
    forall c | c in s'.codes ensures CodeOk(s', c) {
      assert CodeOk(s, c);
    }
  }

  /** A code handed in and its exchange logged. */
  lemma ExchangeKeeps(s: State, code: nat, expiry: Option<int>)
    requires Inv(s) && code in s.codes
    requires expiry.Some? ==>
               s.codes[code].session in s.sessions && expiry.value <= s.sessions[s.codes[code].session].expiresAt
    ensures Inv(Logged(s.(codes := s.codes - {code}), Exchanged(s.codes[code].session, code, expiry)))
  {
    var e := Exchanged(s.codes[code].session, code, expiry);
    var s' := Logged(s.(codes := s.codes - {code}), e);
    CountsSnoc(s.log, e);
    EventsSnoc(s.sessions, s.log, e);
    assert CodeOk(s, code);
    forall y: nat ensures SessionCounts(s', y) {
      assert SessionCounts(s, y);
    }
    forall c: nat ensures CodeCounts(s', c) {
      assert CodeCounts(s, c);
    }
    forall y | y in s'.otps ensures OtpOk(s', y) {
      assert OtpOk(s, y);
    }
    forall c | c in s'.codes ensures CodeOk(s', c) {
      assert CodeOk(s, c);
    }
  }

  /** The clock moves, or a session ends. */
  lemma MoveKeeps(s: State, s': State)
    requires Inv(s) && s' == s.(now := s'.now, sessions := s'.sessions) && s.now <= s'.now
    requires s'.sessions.Keys == s.sessions.Keys && SessionsKept(s.sessions, s'.sessions)
    ensures Inv(s')
  {
    EventsKept(s.sessions, s'.sessions, s.log);
    forall x | x in s'.sessions ensures SessionOk(s'.sessions[x], s'.now) {
      assert SessionOk(s.sessions[x], s.now);
    }
    forall y: nat ensures SessionCounts(s', y) {
      assert SessionCounts(s, y);
    }
    forall c: nat ensures CodeCounts(s', c) {
      assert CodeCounts(s, c);
    }
    forall y | y in s'.otps ensures OtpOk(s', y) {
      assert OtpOk(s, y);
    }
    forall c | c in s'.codes ensures CodeOk(s', c) {
      assert CodeOk(s, c);
    }
  }

  lemma StartInv(s: State, c: Call)
    requires Inv(s) && c.Start? && Possible(s, c)
    ensures Inv(StartImpersonation(s, c).0)
  {
    var row := Session(c.who, c.target, NeedsOtp(c.scope, c.consent), s.now, s.now + MAX_SESSION_DURATION, None);
    var s1 := s.(sessions := s.sessions[c.id := row]);
    StartKeeps(s, row, c.id);
    assert SessionCounts(s, c.id);
    if c.id in s.otps { assert OtpOk(s, c.id); }
    if c.allowed && !row.otpRequired {
      IssueKeeps(s1, c.id, c.code);
    } else if c.allowed && c.deliverable {
      OtpKeeps(s1, c.id, Otp(c.otp, 0, s.now + OTP_TTL_SECONDS * 1000));
    }
  }

  lemma OtpKeeps(s: State, x: nat, o: Otp)
    requires Inv(s) && x in s.sessions && s.sessions[x].otpRequired && o.attempts == 0
    requires Count(s.log, IssueFor(x)) == 0 && Count(s.log, WrongTryFor(x)) == 0
    requires o.expiresAt <= s.sessions[x].startedAt + OTP_TTL_SECONDS * 1000
    ensures Inv(s.(otps := s.otps[x := o]))
  {
    var s' := s.(otps := s.otps[x := o]);
    forall y: nat ensures SessionCounts(s', y) {
      assert SessionCounts(s, y);
    }
    forall c: nat ensures CodeCounts(s', c) {
      assert CodeCounts(s, c);
    }
    forall y | y in s'.otps ensures OtpOk(s', y) {
      if y != x { assert OtpOk(s, y); }
    }
    forall c | c in s'.codes ensures CodeOk(s', c) {
      assert CodeOk(s, c);
    }
  }

  lemma TryInv(s: State, x: nat, otp: nat, code: nat)
    requires Inv(s) && x in s.sessions && x in s.otps && s.now < s.otps[x].expiresAt
    requires Count(s.log, IssueOf(code)) == 0 && code !in s.codes
    ensures Inv(TryOtp(s, x, otp, s.sessions[x].impersonator, code).0)
  {
    var o, who := s.otps[x], s.sessions[x].impersonator;
    assert OtpOk(s, x);
    if o.otp != otp {
      TryKeeps(s, x, who, false,
               if o.attempts + 1 >= MAX_OTP_ATTEMPTS then s.otps - {x} else s.otps[x := Rewritten(o, s.now)]);
    } else {
      var e := OtpTried(x, who, true);
      TryKeeps(s, x, who, true, s.otps - {x});
      CountSnoc(s.log, e, IssueFor(x));
      CountSnoc(s.log, e, IssueOf(code));
      CountSnoc(s.log, e, WrongTryFor(x));
      IssueKeeps(Logged(s, e).(otps := s.otps - {x}), x, code);
    }
  }

  lemma ExchangeInv(s: State, code: nat, active: bool)
    requires Inv(s)
    ensures Inv(ExchangeCode(s, code, active).0)
  {
    if code in s.codes && s.now < s.codes[code].expiresAt {
      assert CodeOk(s, code);
      assert SessionOk(s.sessions[s.codes[code].session], s.now);
      ExchangeKeeps(s, code, if active then Some(TokenExpiry(s.now)) else None);
    }
  }

  /** Every call keeps the invariant. */
  lemma ServeInv(s: State, c: Call)
    requires Inv(s) && Possible(s, c)
    ensures Inv(Serve(s, c).0)
  {
    match c {
      case Start(_, _, _, _, _, _, _, _, _) => StartInv(s, c);
      case VerifyOtp(x, otp, who, code) =>
        if x in s.sessions && s.sessions[x].impersonator == who && x in s.otps && s.now < s.otps[x].expiresAt {
          TryInv(s, x, otp, code);
        }
      case Exchange(code, active) => ExchangeInv(s, code, active);
      case End(x, who) => MoveKeeps(s, EndImpersonation(s, x, who).0);
      case Wait(ms) => MoveKeeps(s, s.(now := s.now + ms));
    }
  }

  // ------------------------------------------------------------------------- runs

  function Next(s: State, c: Call): Option<State> {
    if Possible(s, c) then Some(Serve(s, c).0) else None
  }

  /** A run of the service from nothing. */
  ghost predicate Valid(r: Run<State, Call>) {
    IsRun(Next, r) && r.states[0] == State(map[], map[], map[], r.states[0].now, [])
  }

  lemma Reachable(r: Run<State, Call>, n: nat)
    requires Valid(r) && n < |r.states|
    ensures Inv(r.states[n])
  {
    forall s: State, c: Call | Inv(s) && Next(s, c).Some? ensures Inv(Next(s, c).value) {
      ServeInv(s, c);
    }
    Always(Next, Inv, r, n);
  }

  lemma {:induction false} CountAtLeast(log: seq<Event>, w: What, i: nat, j: nat)
    requires i <= j < |log| && Is(log[i], w) && Is(log[j], w)
    ensures Count(log, w) >= if i == j then 1 else 2
    decreases |log|
  {
    var l := log[..|log| - 1];
    if j < |l| {
      CountAtLeast(l, w, i, j);
    } else if i < |l| {
      CountAtLeast(l, w, i, i);
    }
  }

  // --------------------------------------------------------------------- theorems

  /**
   In every run each code is exchanged at most once, and each session at most once, whether or
   not a token came of it.
   */
  lemma ExchangedOnce(r: Run<State, Call>, n: nat, i: nat, j: nat)
    requires Valid(r) && n < |r.states| && i < |r.states[n].log| && j < |r.states[n].log|
    requires r.states[n].log[i].Exchanged? && r.states[n].log[j].Exchanged?
    requires r.states[n].log[i].code == r.states[n].log[j].code
             || r.states[n].log[i].session == r.states[n].log[j].session
    ensures i == j
  {
    Reachable(r, n);
    var s := r.states[n];
    var x, c := s.log[i].session, s.log[i].code;
    assert SessionCounts(s, x) && CodeCounts(s, c);
    var a, b := if i <= j then i else j, if i <= j then j else i;
    CountAtLeast(s.log, if s.log[j].code == c then UseOf(c) else UseFor(x), a, b);
  }

  /** A code that has been handed in is refused ever after. */
  lemma UsedCodeRefused(r: Run<State, Call>, n: nat, i: nat, active: bool)
    requires Valid(r) && n < |r.states| && i < |r.states[n].log| && r.states[n].log[i].Exchanged?
    ensures ExchangeCode(r.states[n], r.states[n].log[i].code, active) == (r.states[n], Denied(CodeMissing))
  {
    Reachable(r, n);
    var s := r.states[n];
    CountAtLeast(s.log, UseOf(s.log[i].code), i, i);
    assert s.log[i].code in s.codes ==> CodeOk(s, s.log[i].code);
  }

  /**
   A session that needs an OTP gets a code only right after its own impersonator gave the right
   one, with at most two wrong ones before.
   */
  lemma CodeOnlyAfterOtp(r: Run<State, Call>, n: nat, i: nat)
    requires Valid(r) && n < |r.states| && i < |r.states[n].log| && r.states[n].log[i].CodeIssued?
    ensures var s := r.states[n];
            var x := s.log[i].session;
            && x in s.sessions
            && (s.sessions[x].otpRequired ==>
                  && i > 0 && s.log[i - 1] == OtpTried(x, s.sessions[x].impersonator, true)
                  && Count(s.log[..i], WrongTryFor(x)) <= 2)
  {
    Reachable(r, n);
    assert EventOk(r.states[n].sessions, r.states[n].log, i);
  }

  /**
   What a start does. A reseller's, and a platform's of an institute that asks for consent, is
   gated: it waits for an OTP for five minutes, if that can be delivered, and has no code. Any
   other has a code for thirty seconds at once. A session is for one hour.
   */
  lemma StartAnswers(s: State, c: Call)
    requires c.Start? && Possible(s, c)
    ensures var (s', reply) := Serve(s, c);
            var gated := c.scope == Reseller || (c.scope == Platform && c.consent);
            if !c.allowed then s' == s && reply == Denied(NotAllowed)
            else
              && s'.sessions == s.sessions[c.id := Session(c.who, c.target, gated, s.now, s.now + 3_600_000, None)]
              && s'.now == s.now
              && s'.codes == (if gated then s.codes else s.codes[c.code := Code(c.id, s.now + 30_000)])
              && s'.otps == (if gated && c.deliverable then s.otps[c.id := Otp(c.otp, 0, s.now + 300_000)] else s.otps)
              && reply == if !gated then CodeGiven(c.code)
                          else if c.deliverable then OtpRequired(c.id) else Denied(Undeliverable)
  {
  }

  /**
   What an OTP attempt answers. For a session of the caller's that has not ended and waits for
   an OTP, a code is given exactly when the number is the one stored; the third wrong number
   ends the waiting. In all other cases no code is added.
   */
  lemma VerifyAnswers(s: State, session: nat, otp: nat, who: nat, code: nat)
    requires Possible(s, VerifyOtp(session, otp, who, code))
    ensures var (s', reply) := Serve(s, VerifyOtp(session, otp, who, code));
            var waits := session in s.otps && s.now < s.otps[session].expiresAt;
            && (if session !in s.sessions then reply == Denied(SessionNotFound)
                else if s.sessions[session].impersonator != who then reply == Denied(NotAuthorized)
                else if s.sessions[session].endedAt.Some? then reply == Denied(SessionEnded)
                else if !waits then reply == Denied(OtpMissing)
                else if s.otps[session].otp == otp then reply == CodeGiven(code)
                else reply == Denied(if s.otps[session].attempts >= 2 then MaximumAttempts else OtpInvalid))
            && s'.codes == (if reply.CodeGiven? then s.codes[code := Code(session, s.now + 30_000)] else s.codes)
            && (reply in {CodeGiven(code), Denied(MaximumAttempts)} ==> s'.otps == s.otps - {session})
            && (reply == Denied(OtpInvalid) ==>
                  && s'.otps.Keys == s.otps.Keys
                  && s'.otps[session].otp == s.otps[session].otp
                  && s'.otps[session].attempts == s.otps[session].attempts + 1)
            && (s'.log != s.log ==>
                  waits && |s'.log| > |s.log| && s'.log[|s.log|] == OtpTried(session, who, s.otps[session].otp == otp))
  {
  }

  /**
   What handing in a code answers: a token for fifteen minutes, in whole seconds, exactly when
   the code is live and the user, the membership and the institute still are. The code is gone
   either way.
   */
  lemma ExchangeAnswers(s: State, code: nat, active: bool)
    requires Inv(s)
    ensures var (s', reply) := Serve(s, Exchange(code, active));
            var live := code in s.codes && s.now < s.codes[code].expiresAt;
            && reply == (if !live then Denied(CodeMissing)
                         else if active then Token((s.now / 1000 + 900) * 1000) else Denied(NoLongerActive))
            && s'.codes == (if live then s.codes - {code} else s.codes)
  {
    assert code in s.codes ==> CodeOk(s, code);
  }

  /** A session is ended exactly by its impersonator or its target, once, at the time of the call, and no other is. */
  lemma EndAnswers(s: State, x: nat, who: nat)
    ensures var (s', reply) := Serve(s, End(x, who));
            && (reply == Done <==>
                  && x in s.sessions && s.sessions[x].endedAt == None
                  && (who == s.sessions[x].impersonator || who == s.sessions[x].target))
            && (reply == Done ==> s' == s.(sessions := s.sessions[x := s.sessions[x].(endedAt := Some(s.now))]))
            && (reply != Done ==> s' == s)
  {
  }

  /** The call at i started session x, and what is stored for x is as that call had it. */
  ghost predicate StartedAt(r: Run<State, Call>, i: nat, n: nat, x: nat)
    requires i < |r.calls| && n < |r.states|
  {
    var c, s := r.calls[i], r.states[n];
    && c.Start? && c.id == x && c.allowed && x in s.sessions
    && s.sessions[x].impersonator == c.who
    && (x in s.otps ==> s.otps[x].otp == c.otp && (c.scope == Reseller || (c.scope == Platform && c.consent)))
  }

  lemma {:induction false} EachIsStarted(r: Run<State, Call>, n: nat, x: nat) returns (i: nat)
    requires Valid(r) && n < |r.states| && x in r.states[n].sessions
    ensures i < n && StartedAt(r, i, n, x)
  {
    assert Follows(Next, r, n - 1);
    Reachable(r, n - 1);
    var s, c := r.states[n - 1], r.calls[n - 1];
    if x in s.sessions {
      i := EachIsStarted(r, n - 1, x);
      StartedStill(r, i, n - 1, x);
    } else {
      i := n - 1;
      assert x in s.otps ==> OtpOk(s, x);
    }
  }

  lemma StartedStill(r: Run<State, Call>, i: nat, n: nat, x: nat)
    requires Valid(r) && n < |r.calls| && i < n && StartedAt(r, i, n, x)
    ensures StartedAt(r, i, n + 1, x)
  {
    assert Follows(Next, r, n);
    var s, c := r.states[n], r.calls[n];
    if c.VerifyOtp? { VerifyAnswers(s, c.session, c.otp, c.who, c.code); }
    if c.Start? { StartAnswers(s, c); }
  }

  /**
   Whose codes there are, over whole runs. A code comes up in the call that starts its session,
   when that is not gated; the code of a gated session only in a later attempt by the same
   person who started it, with the very number that was stored at the start.
   */
  lemma CodeNeedsItsOtp(r: Run<State, Call>, k: nat, code: nat)
    requires Valid(r) && k < |r.calls| && code !in r.states[k].codes && code in r.states[k + 1].codes
    ensures var c, x := r.calls[k], r.states[k + 1].codes[code].session;
            exists i: nat | i <= k ::
              && r.calls[i].Start? && r.calls[i].id == x && r.calls[i].allowed
              && if r.calls[i].scope == Reseller || (r.calls[i].scope == Platform && r.calls[i].consent)
                 then i < k && c == VerifyOtp(x, r.calls[i].otp, r.calls[i].who, code)
                 else i == k && c.code == code
  {
    assert Follows(Next, r, k);
    var s, c := r.states[k], r.calls[k];
    if c.Start? {
      StartAnswers(s, c);
    } else {
      assert c.VerifyOtp?;
      VerifyAnswers(s, c.session, c.otp, c.who, c.code);
      var i := EachIsStarted(r, k, c.session);
    }
  }

  /** Every token minted expires no later than its session. */
  lemma TokenWithinSession(r: Run<State, Call>, n: nat, i: nat)
    requires Valid(r) && n < |r.states| && i < |r.states[n].log|
    requires r.states[n].log[i].Exchanged? && r.states[n].log[i].tokenExpiry.Some?
    ensures var s := r.states[n];
            s.log[i].session in s.sessions && s.log[i].tokenExpiry.value <= s.sessions[s.log[i].session].expiresAt
  {
    Reachable(r, n);
    assert EventOk(r.states[n].sessions, r.states[n].log, i);
  }

  /**
   Rewriting the key after a wrong attempt keeps the OTP's expiry to within half a second,
   unless less than that was left.
   */
  lemma RewriteRenewsIff(o: Otp, now: int)
    requires now < o.expiresAt <= now + OTP_TTL_SECONDS * 1000
    ensures Rewritten(o, now).expiresAt > o.expiresAt + 500 <==> o.expiresAt - now < 500
    ensures o.expiresAt - now < 500 ==> Rewritten(o, now).expiresAt == now + OTP_TTL_SECONDS * 1000
  {
  }

  /** A wrong attempt in the last half second gives the OTP another five minutes. */
  lemma OtpCanOutliveFiveMinutes()
    ensures exists r: Run<State, Call> ::
              && Valid(r)
              && var s := r.states[|r.states| - 1];
                 7 in s.otps && 7 in s.sessions && s.now < s.otps[7].expiresAt
                 && s.otps[7].expiresAt > s.sessions[7].startedAt + OTP_TTL_SECONDS * 1000 + 290_000
  {
    var s0 := State(map[], map[], map[], 0, []);
    var c0 := Start(1, Reseller, 2, false, true, true, 7, 123456, 9);
    var s1 := Serve(s0, c0).0;
    var c1 := Wait(299_600);
    var s2 := Serve(s1, c1).0;
    var c2 := VerifyOtp(7, 0, 1, 9);
    var s3 := Serve(s2, c2).0;
    var r := Run([c0, c1, c2], [s0, s1, s2, s3]);
    assert Follows(Next, r, 0) && Follows(Next, r, 1) && Follows(Next, r, 2);
    assert Valid(r);
  }

  predicate HasEnded(s: State, x: nat) {
    x in s.sessions && s.sessions[x].endedAt.Some?
  }

  /** A code for session x that can still be handed in. */
  predicate Waits(s: State, c: nat, x: nat) {
    c in s.codes && s.codes[c].session == x && s.now < s.codes[c].expiresAt
  }

  /** The call exchanges a code for a token of session x. */
  ghost predicate Mints(s: State, c: Call, x: nat) {
    && c.Exchange? && c.code in s.codes && s.codes[c.code].session == x
    && Serve(s, c).1.Token?
  }

  ghost predicate MintsAt(r: Run<State, Call>, i: nat, x: nat)
    requires i < |r.calls| < |r.states|
  {
    Mints(r.states[i], r.calls[i], x)
  }

  /** s' comes after s, in which x had ended: it has, and the codes for x that are left are among those of s. */
  ghost predicate NoNewCodes(s: State, s': State, x: nat) {
    && HasEnded(s', x) && s.now <= s'.now
    && forall c | c in s'.codes && s'.codes[c].session == x :: c in s.codes && s.codes[c] == s'.codes[c]
  }

  /** No call ends the end of a session or issues a code for it, whatever OTP is waiting. */
  lemma NoNewCodesStep(s: State, c: Call, x: nat)
    requires HasEnded(s, x) && Possible(s, c)
    ensures NoNewCodes(s, Serve(s, c).0, x)
  {
  }

  lemma {:induction false} NoNewCodesAfter(r: Run<State, Call>, n: nat, x: nat)
    requires IsRun(Next, r) && n < |r.states| && HasEnded(r.states[0], x)
    ensures NoNewCodes(r.states[0], r.states[n], x)
  {
    if n > 0 {
      NoNewCodesAfter(r, n - 1, x);
      assert Follows(Next, r, n - 1);
      NoNewCodesStep(r.states[n - 1], r.calls[n - 1], x);
    }
  }

  /** Some run from s mints a token of session x. */
  ghost predicate CanMint(s: State, x: nat) {
    exists r: Run<State, Call>, i: nat ::
      IsRun(Next, r) && r.states[0] == s && i < |r.calls| && MintsAt(r, i, x)
  }

  /**
   When ending a session cancels it: an ended session yields a token in some run from then on
   exactly when a code for it is waiting already. No OTP that is still open ever leads to one,
   and a waiting code does until it expires, whatever the guard then makes of the token.
   */
  lemma EndedSessionMintsIff(s: State, x: nat)
    requires HasEnded(s, x)
    ensures CanMint(s, x) <==> exists c :: Waits(s, c, x)
  {
    if CanMint(s, x) {
      var r: Run<State, Call>, i: nat :|
        IsRun(Next, r) && r.states[0] == s && i < |r.calls| && MintsAt(r, i, x);
      NoNewCodesAfter(r, i, x);
      assert Waits(s, r.calls[i].code, x);
    }
    if c :| Waits(s, c, x) {
      var r := Run([Exchange(c, true)], [s, Serve(s, Exchange(c, true)).0]);
      assert Follows(Next, r, 0);
      assert MintsAt(r, 0, x);
    }
  }

  /** So ending a session does not cancel the code that it has, if that is still good. */
  lemma EndDoesNotCancelCode(s: State, code: nat, who: nat)
    requires Inv(s) && code in s.codes && s.now < s.codes[code].expiresAt
    ensures var s1 := EndImpersonation(s, s.codes[code].session, who).0;
            ExchangeCode(s1, code, true).1 == Token(TokenExpiry(s.now))
  {
    assert CodeOk(s, code);
  }

  // ------------------------------------------------------------------ the service

  class ImpersonationService {
    var sessions: map<nat, Session>
    var codes: map<nat, Code>
    var otps: map<nat, Otp>
    var now: int
    ghost var log: seq<Event>

    ghost function Model(): State
      reads this
    {
      State(sessions, codes, otps, now, log)
    }

    constructor (now: int)
      ensures Model() == State(map[], map[], map[], now, [])
    {
      this.sessions, this.codes, this.otps, this.now, this.log := map[], map[], map[], now, [];
    }

    method IssueImpersonationCode(session: nat, code: nat)
      modifies `codes, `log
      ensures Model() == Issue(old(Model()), session, code)
    {
      codes := codes[code := Code(session, now + CODE_TTL)];
      log := log + [CodeIssued(session, code, now)];
    }

    /** False when there is no admin or no phone number to send the OTP to; then nothing is stored. */
    method DispatchImpersonationOtp(session: nat, otp: nat, deliverable: bool) returns (sent: bool)
      modifies `otps
      ensures sent == deliverable
      ensures otps == if sent then old(otps)[session := Otp(otp, 0, now + OTP_TTL_SECONDS * 1000)] else old(otps)
    {
      if !deliverable {
        return false;
      }
      otps := otps[session := Otp(otp, 0, now + OTP_TTL_SECONDS * 1000)];
      return true;
    }

    method StartImpersonation(c: Call) returns (reply: Reply)
      requires c.Start? && Inv(Model()) && Possible(Model(), c)
      modifies this
      ensures Inv(Model()) && (Model(), reply) == Serve(old(Model()), c)
    {
      StartInv(Model(), c);
      if !c.allowed {
        return Denied(NotAllowed);
      }
      var otpRequired := NeedsOtp(c.scope, c.consent);
      var expiresAt := now + MAX_SESSION_DURATION;
      sessions := sessions[c.id := Session(c.who, c.target, otpRequired, now, expiresAt, None)];
      if otpRequired {
        var sent := DispatchImpersonationOtp(c.id, c.otp, c.deliverable);
        return if sent then OtpRequired(c.id) else Denied(Undeliverable);
      }
      IssueImpersonationCode(c.id, c.code);
      return CodeGiven(c.code);
    }

    method VerifyOtp(session: nat, otp: nat, who: nat, code: nat) returns (reply: Reply)
      requires Inv(Model()) && Possible(Model(), Call.VerifyOtp(session, otp, who, code))
      modifies this
      ensures Inv(Model()) && (Model(), reply) == Serve(old(Model()), Call.VerifyOtp(session, otp, who, code))
    {
      ServeInv(Model(), Call.VerifyOtp(session, otp, who, code));
      if session !in sessions {
        return Denied(SessionNotFound);
      }
      if sessions[session].impersonator != who {
        return Denied(NotAuthorized);
      }
      if sessions[session].endedAt.Some? {
        return Denied(SessionEnded);
      }
      if session !in otps || now >= otps[session].expiresAt {
        return Denied(OtpMissing);
      }
      var payload := otps[session];
      log := log + [OtpTried(session, who, payload.otp == otp)];
      if payload.otp != otp {
        var attempts := payload.attempts + 1;
        if attempts >= MAX_OTP_ATTEMPTS {
          otps := otps - {session};
          return Denied(MaximumAttempts);
        }
        var ttl := Ttl(payload, now);
        var ex := if ttl > 0 then ttl else OTP_TTL_SECONDS;
        otps := otps[session := Otp(payload.otp, attempts, now + ex * 1000)];
        return Denied(OtpInvalid);
      }
      otps := otps - {session}; // consume the OTP
      IssueImpersonationCode(session, code);
      return CodeGiven(code);
    }

    method ExchangeCode(code: nat, active: bool) returns (reply: Reply)
      requires Inv(Model())
      modifies this
      ensures Inv(Model()) && (Model(), reply) == Serve(old(Model()), Exchange(code, active))
    {
      ServeInv(Model(), Exchange(code, active));
      if code !in codes || now >= codes[code].expiresAt {
        return Denied(CodeMissing);
      }
      var session := codes[code].session;
      codes := codes - {code};
      if !active || session !in sessions {
        log := log + [Exchanged(session, code, None)];
        return Denied(NoLongerActive);
      }
      var expiry := TokenExpiry(now);
      log := log + [Exchanged(session, code, Some(expiry))];
      return Token(expiry);
    }

    method EndImpersonation(session: nat, who: nat) returns (reply: Reply)
      requires Inv(Model())
      modifies this
      ensures Inv(Model()) && (Model(), reply) == Serve(old(Model()), End(session, who))
    {
      ServeInv(Model(), End(session, who));
      if session !in sessions {
        return Denied(SessionNotFound);
      }
      var row := sessions[session];
      if row.endedAt.Some? {
        return Denied(SessionEnded);
      }
      if row.impersonator != who && row.target != who {
        return Denied(NotAuthorized);
      }
      sessions := sessions[session := row.(endedAt := Some(now))];
      return Done;
    }
  }
}

/**
 The login lockout: a Redis counter and a Redis lock marker per username, both with a
 time to live. They are proved to say what a plain log of the evaluated attempts says.
 Times are in any one unit; a key set at t to live for n is there while now < t + n.
 */
module LoginLockout {
  import opened Wrappers

  /** An attempt that was evaluated: a failure, a failure that locked the account, or a success. */
  datatype Entry = Failed(at: int) | LockedOut(at: int) | Succeeded(at: int)

  /** Redis rejects a time to live that is not positive; the number of attempts is not checked. */
  datatype Config = Config(maxAttempts: int, lockout: int, window: int)

  predicate Usable(c: Config) {
    c.lockout > 0 && c.window > 0
  }

  // --------------------------------------------------------------- the plain log

  /** When the entry after i came, or `t` if it was the last. */
  function Following(log: seq<Entry>, i: nat, t: int): int
    requires i < |log|
  {
    if i + 1 < |log| then log[i + 1].at else t
  }

  /** At t, the last k attempts were failures that did not lock, each less than a window before the next or before t. */
  predicate IsChain(c: Config, log: seq<Entry>, k: nat, t: int) {
    k <= |log| && forall i | |log| - k <= i < |log| :: log[i].Failed? && Following(log, i, t) - log[i].at < c.window
  }

  /** k is the length of the current chain of failures at t. */
  predicate ChainLength(c: Config, log: seq<Entry>, k: nat, t: int) {
    IsChain(c, log, k, t) && !IsChain(c, log, k + 1, t)
  }

  predicate LockedAt(c: Config, log: seq<Entry>, t: int) {
    exists i | 0 <= i < |log| :: log[i].LockedOut? && t < log[i].at + c.lockout
  }

  /** How many failures in a row the account survives. */
  function Survivable(c: Config): nat {
    if c.maxAttempts <= 1 then 0 else c.maxAttempts - 1
  }

  /** Entry i is one the service may evaluate, and it locks exactly when the chain before it is as long as it may be. */
  predicate EntryOk(c: Config, log: seq<Entry>, i: nat)
    requires i < |log|
  {
    && (i > 0 ==> log[i - 1].at <= log[i].at)
    && !LockedAt(c, log[..i], log[i].at)
    && (!log[i].Succeeded? ==> (log[i].LockedOut? <==> IsChain(c, log[..i], Survivable(c), log[i].at)))
  }

  predicate ValidLog(c: Config, log: seq<Entry>) {
    forall i | 0 <= i < |log| :: EntryOk(c, log, i)
  }

  /**
   Which entries a log may have, in plain terms: they come in order, none while a lock is on,
   and a failure locks exactly when the maxAttempts - 1 entries before it are failures, each
   less than a window before the next.
   */
  lemma EntryOkIff(c: Config, log: seq<Entry>, i: nat)
    requires i < |log|
    ensures var m := if c.maxAttempts <= 1 then 0 else c.maxAttempts - 1;
            EntryOk(c, log, i) <==>
              && (i > 0 ==> log[i - 1].at <= log[i].at)
              && (forall k | 0 <= k < i && log[k].LockedOut? :: log[i].at >= log[k].at + c.lockout)
              && (!log[i].Succeeded? ==>
                    (log[i].LockedOut? <==>
                       m <= i && forall k | i - m <= k < i :: log[k].Failed? && log[k + 1].at - log[k].at < c.window))
  {
    var p, t := log[..i], log[i].at;
    forall k | 0 <= k < i ensures p[k] == log[k] && Following(p, k, t) == log[k + 1].at {
    }
  }

  // -------------------------------------------------------------- facts on logs

  lemma ChainShrinks(c: Config, log: seq<Entry>, k: nat, j: nat, t: int)
    requires IsChain(c, log, k, t) && j <= k
    ensures IsChain(c, log, j, t)
  {
  }

  lemma ChainSnoc(c: Config, log: seq<Entry>, e: Entry, k: nat, t: int)
    ensures IsChain(c, log + [e], k + 1, t) <==> e.Failed? && t - e.at < c.window && IsChain(c, log, k, e.at)
  {
    var l := log + [e];
    if k <= |log| {
      assert forall i | 0 <= i < |log| :: l[i] == log[i] && Following(l, i, t) == Following(log, i, e.at);
      assert Following(l, |log|, t) == t;
    }
  }

  lemma LockedSnoc(c: Config, log: seq<Entry>, e: Entry, t: int)
    ensures LockedAt(c, log + [e], t) <==> LockedAt(c, log, t) || (e.LockedOut? && t < e.at + c.lockout)
  {
    var l := log + [e];
    assert l[|log|] == e;
    assert forall i | 0 <= i < |log| :: l[i] == log[i];
  }

  lemma ValidSnoc(c: Config, log: seq<Entry>, e: Entry)
    requires ValidLog(c, log)
    requires log != [] ==> log[|log| - 1].at <= e.at
    requires !LockedAt(c, log, e.at)
    requires !e.Succeeded? ==> (e.LockedOut? <==> IsChain(c, log, Survivable(c), e.at))
    ensures ValidLog(c, log + [e])
  {
    var l := log + [e];
    forall i | 0 <= i < |l| ensures EntryOk(c, l, i) {
      if i < |log| {
        assert EntryOk(c, log, i) && l[..i] == log[..i];
      } else {
        assert l[..i] == log;
      }
    }
  }

  lemma {:induction false} TimesAscend(c: Config, log: seq<Entry>, i: nat, j: nat)
    requires ValidLog(c, log) && i <= j < |log|
    ensures log[i].at <= log[j].at
    decreases j
  {
    if i < j {
      TimesAscend(c, log, i, j - 1);
      assert EntryOk(c, log, j);
    }
  }

  /** The counter reaches the threshold exactly when the chain is as long as it may be. */
  lemma FailureLocksIff(c: Config, log: seq<Entry>, k: nat, t: int)
    requires ChainLength(c, log, k, t)
    ensures k + 1 >= c.maxAttempts <==> IsChain(c, log, Survivable(c), t)
  {
    if Survivable(c) <= k {
      ChainShrinks(c, log, k, Survivable(c), t);
    } else if IsChain(c, log, Survivable(c), t) {
      ChainShrinks(c, log, Survivable(c), k + 1, t);
    }
  }

  // ------------------------------------------------------------------ theorem

  /** The attempts from i up to j are failures, all within one window of time. */
  predicate FailuresWithin(c: Config, log: seq<Entry>, i: nat, j: nat, from: int) {
    i <= j <= |log| && forall k | i <= k < j :: !log[k].Succeeded? && from <= log[k].at < from + c.window
  }

  /** After a lock nothing is evaluated until it expires. */
  lemma NextAfterLock(c: Config, log: seq<Entry>, k: nat)
    requires ValidLog(c, log) && k < |log| && log[k].LockedOut?
    ensures k + 1 < |log| ==> log[k + 1].at >= log[k].at + c.lockout
  {
    if k + 1 < |log| {
      assert EntryOk(c, log, k + 1);
      assert log[..k + 1][k] == log[k];
    }
  }

  /** Failures within one window that did not lock form a chain. */
  lemma FailuresAreChain(c: Config, log: seq<Entry>, i: nat, j: nat, from: int)
    requires ValidLog(c, log) && FailuresWithin(c, log, i, j, from) && i < j
    requires forall k | i <= k < j :: log[k].Failed?
    ensures IsChain(c, log[..j - 1], j - 1 - i, log[j - 1].at)
  {
    var p, t := log[..j - 1], log[j - 1].at;
    forall m | i <= m < |p| ensures p[m].Failed? && Following(p, m, t) - p[m].at < c.window {
      assert p[m] == log[m] && Following(p, m, t) == log[m + 1].at;
    }
  }

  lemma ChainBelow(c: Config, log: seq<Entry>, k: nat, j: nat, t: int)
    requires IsChain(c, log, k, t) && !IsChain(c, log, j, t)
    ensures k < j
  {
  }

  /** So there are at most Survivable of them. */
  lemma UnlockedFailuresBounded(c: Config, log: seq<Entry>, i: nat, j: nat, from: int)
    requires ValidLog(c, log) && FailuresWithin(c, log, i, j, from)
    requires forall k | i <= k < j :: log[k].Failed?
    ensures j - i <= Survivable(c)
  {
    if i < j {
      assert EntryOk(c, log, j - 1);
      FailuresAreChain(c, log, i, j, from);
      ChainBelow(c, log[..j - 1], j - 1 - i, Survivable(c), log[j - 1].at);
    }
  }

  function Max(a: int, b: int): int {
    if a < b then b else a
  }

  /**
   When the lockout is at least the window, any stretch of time of one window with no
   success in it contains at most max(1, maxAttempts) evaluated failures.
   */
  lemma AttemptsBounded(c: Config, log: seq<Entry>, i: nat, j: nat, from: int)
    requires Usable(c) && c.lockout >= c.window && ValidLog(c, log)
    requires i <= j <= |log| && forall k | i <= k < j :: !log[k].Succeeded? && from <= log[k].at < from + c.window
    ensures j - i <= Max(1, c.maxAttempts)
  {
    if i < j {
      forall k | i <= k < j - 1 ensures log[k].Failed? {
        if log[k].LockedOut? { NextAfterLock(c, log, k); }
      }
      UnlockedFailuresBounded(c, log, i, j - 1, from);
    }
  }

  /** m failures at time 0 that do not lock. */
  function Burst(m: nat): seq<Entry> {
    seq(m, k requires 0 <= k < m => Failed(0))
  }

  lemma {:induction false} BurstValid(c: Config, m: nat)
    requires Usable(c) && m <= Survivable(c)
    ensures ValidLog(c, Burst(m)) && !LockedAt(c, Burst(m), 0)
    ensures forall k: nat :: IsChain(c, Burst(m), k, 0) <==> k <= m
  {
    if m > 0 {
      BurstValid(c, m - 1);
      ValidSnoc(c, Burst(m - 1), Failed(0));
      assert Burst(m) == Burst(m - 1) + [Failed(0)];
    }
  }

  /** The guess bound that the lockout is for. */
  ghost predicate BoundHolds(c: Config) {
    forall log: seq<Entry>, i: nat, j: nat, from: int ::
      ValidLog(c, log) && FailuresWithin(c, log, i, j, from) ==> j - i <= Max(1, c.maxAttempts)
  }

  /** The attempts of a full burst that locks, and one more as soon as the lock expires. */
  lemma ShortLockout(c: Config)
    requires Usable(c) && c.lockout < c.window
    ensures !BoundHolds(c)
  {
    var m := Survivable(c);
    BurstValid(c, m);
    var l1 := Burst(m) + [LockedOut(0)];
    ValidSnoc(c, Burst(m), LockedOut(0));
    LockedSnoc(c, Burst(m), LockedOut(0), c.lockout);
    var e := if IsChain(c, l1, m, c.lockout) then LockedOut(c.lockout) else Failed(c.lockout);
    ValidSnoc(c, l1, e);
    var l2 := l1 + [e];
    assert FailuresWithin(c, l2, 0, |l2|, 0);
  }

  /** The bound holds exactly when the lockout is at least as long as the window, as it is by default. */
  lemma BoundHoldsIff(c: Config)
    requires Usable(c)
    ensures BoundHolds(c) <==> c.lockout >= c.window
  {
    if c.lockout < c.window {
      ShortLockout(c);
    } else {
      forall log: seq<Entry>, i: nat, j: nat, from: int | ValidLog(c, log) && FailuresWithin(c, log, i, j, from)
        ensures j - i <= Max(1, c.maxAttempts)
      {
        AttemptsBounded(c, log, i, j, from);
      }
    }
  }

  /** Five attempts, thirty minutes, fifteen minutes, in seconds. */
  const DEFAULTS: Config := Config(5, 30 * 60, 15 * 60)

  /** By default no stretch of fifteen minutes without a success sees more than five failures. */
  lemma DefaultsBound(log: seq<Entry>, i: nat, j: nat, from: int)
    requires ValidLog(DEFAULTS, log)
    requires i <= j <= |log| && forall k | i <= k < j :: !log[k].Succeeded? && from <= log[k].at < from + 900
    ensures j - i <= 5
    ensures DEFAULTS == Config(5, 1800, 900)
  {
    AttemptsBounded(DEFAULTS, log, i, j, from);
  }

  // ---------------------------------------------------------------- the keys

  /** A Redis value and the time until which it is there. */
  datatype Key = Key(count: nat, expiresAt: int)

  /** The two keys of one username. */
  datatype Keys = Keys(failures: Option<Key>, lock: Option<Key>)

  /** What INCR would start from at t. */
  function CountAt(keys: Keys, t: int): nat {
    if keys.failures.Some? && t < keys.failures.value.expiresAt then keys.failures.value.count else 0
  }

  predicate MarkedAt(keys: Keys, t: int) {
    keys.lock.Some? && t < keys.lock.value.expiresAt
  }

  /** At t, if nothing happens until then, the keys say what the log says. */
  ghost predicate KeysSay(c: Config, keys: Keys, log: seq<Entry>, t: int) {
    && ChainLength(c, log, CountAt(keys, t), t)
    && (MarkedAt(keys, t) <==> LockedAt(c, log, t))
  }

  /** The refinement: from now on, as long as nothing happens, the keys say what the log says. */
  ghost predicate Refines(c: Config, keys: Keys, log: seq<Entry>, now: int) {
    && ValidLog(c, log)
    && (log != [] ==> log[|log| - 1].at <= now)
    && forall t | t >= now :: KeysSay(c, keys, log, t)
  }

  /** The keys after an entry has been evaluated at its time. */
  function KeysAfter(c: Config, keys: Keys, e: Entry): Keys {
    match e
    case Failed(at) => keys.(failures := Some(Key(CountAt(keys, at) + 1, at + c.window)))
    case LockedOut(at) => Keys(None, Some(Key(1, at + c.lockout)))
    case Succeeded(_) => keys.(failures := None)
  }

  lemma RefinesAfter(c: Config, keys: Keys, log: seq<Entry>, e: Entry)
    requires Usable(c) && Refines(c, keys, log, e.at) && !LockedAt(c, log, e.at)
    requires !e.Succeeded? ==> (e.LockedOut? <==> IsChain(c, log, Survivable(c), e.at))
    ensures Refines(c, KeysAfter(c, keys, e), log + [e], e.at)
  {
    assert KeysSay(c, keys, log, e.at);
    ValidSnoc(c, log, e);
    forall t | t >= e.at ensures KeysSay(c, KeysAfter(c, keys, e), log + [e], t) {
      assert KeysSay(c, keys, log, t);
      LockedSnoc(c, log, e, t);
      ChainSnoc(c, log, e, 0, t);
      ChainSnoc(c, log, e, CountAt(keys, e.at), t);
      ChainSnoc(c, log, e, CountAt(keys, e.at) + 1, t);
    }
  }

  // ------------------------------------------------------------- the service

  datatype Outcome = LoggedIn | AccountLocked | InvalidCredentials

  class Service {
    const config: Config
    var failures: map<string, Key>
    var locks: map<string, Key>
    var now: int
    ghost var logs: map<string, seq<Entry>>

    ghost function KeysOf(u: string): Keys
      reads this
    {
      Keys(if u in failures then Some(failures[u]) else None, if u in locks then Some(locks[u]) else None)
    }

    /** The evaluated attempts for a username. */
    ghost function Log(u: string): seq<Entry>
      reads this
    {
      if u in logs then logs[u] else []
    }

    ghost predicate Agrees(u: string)
      reads this
    {
      Refines(config, KeysOf(u), Log(u), now)
    }

    ghost predicate Valid()
      reads this
    {
      Usable(config) && forall u: string :: Agrees(u)
    }

    constructor (config: Config, now: int)
      requires Usable(config)
      ensures Valid() && this.config == config && this.now == now && logs == map[]
    {
      this.config, this.now := config, now;
      failures, locks, logs := map[], map[], map[];
    }

    /** Time passes. */
    method Wait(d: nat)
      requires Valid()
      modifies `now
      ensures Valid() && now == old(now) + d
    {
      ghost var before := now;
      now := now + d;
      forall u: string ensures Agrees(u) {
        assert old(Agrees(u)) && KeysOf(u) == old(KeysOf(u)) && Log(u) == old(Log(u));
        forall t | t >= now ensures KeysSay(config, KeysOf(u), Log(u), t) {
          assert t >= before;
        }
      }
    }

    method IsLocked(u: string) returns (locked: bool)
      requires Valid()
      ensures locked <==> LockedAt(config, Log(u), now)
      ensures locked <==> exists e | e in Log(u) :: e.LockedOut? && now < e.at + config.lockout
    {
      assert Agrees(u) && KeysSay(config, KeysOf(u), Log(u), now);
      locked := u in locks && now < locks[u].expiresAt;
    }

    /** The keys and the logs of other usernames are as they were. */
    twostate predicate OthersUnchanged(u: string)
      reads this
    {
      forall v: string | v != u :: KeysOf(v) == old(KeysOf(v)) && Log(v) == old(Log(v))
    }

    /** The INCR + EXPIRE script. */
    method IncrFailureCount(u: string) returns (attempts: nat)
      modifies `failures
      ensures attempts == old(CountAt(KeysOf(u), now)) + 1
      ensures failures == old(failures)[u := Key(attempts, now + config.window)]
    {
      var current := if u in failures && now < failures[u].expiresAt then failures[u].count else 0;
      attempts := current + 1;
      failures := failures[u := Key(attempts, now + config.window)];
    }

    /**
     What a failure does, by the log: it locks exactly when the chain before it is as long
     as it may be, and otherwise tells how many more it takes.
     */
    method RecordFailure(u: string) returns (locked: bool, remainingAttempts: int)
      requires Valid() && !LockedAt(config, Log(u), now)
      modifies `failures, `locks, `logs
      ensures Valid() && OthersUnchanged(u)
      ensures locked <==> IsChain(config, old(Log(u)), Survivable(config), now)
      ensures Log(u) == old(Log(u)) + [if locked then LockedOut(now) else Failed(now)]
      ensures locked ==> remainingAttempts == 0
      ensures !locked ==> 0 < remainingAttempts < config.maxAttempts
                          && ChainLength(config, old(Log(u)), config.maxAttempts - 1 - remainingAttempts, now)
    {
      ghost var log, keys := Log(u), KeysOf(u);
      assert Agrees(u) && KeysSay(config, keys, log, now);
      FailureLocksIff(config, log, CountAt(keys, now), now);
      var attempts := IncrFailureCount(u);
      if attempts >= config.maxAttempts {
        locks := locks[u := Key(1, now + config.lockout)];
        failures := failures - {u};
        locked, remainingAttempts := true, 0;
      } else {
        locked, remainingAttempts := false, config.maxAttempts - attempts;
      }
      ghost var e := if locked then LockedOut(now) else Failed(now);
      logs := logs[u := log + [e]];
      RefinesAfter(config, keys, log, e);
      assert KeysOf(u) == KeysAfter(config, keys, e);
      assert forall v: string | v != u :: old(Agrees(v)) && KeysOf(v) == old(KeysOf(v)) && Log(v) == old(Log(v));
    }

    method ClearOnSuccess(u: string)
      requires Valid() && !LockedAt(config, Log(u), now)
      modifies `failures, `logs
      ensures Valid() && OthersUnchanged(u) && Log(u) == old(Log(u)) + [Succeeded(now)]
    {
      ghost var log, keys := Log(u), KeysOf(u);
      assert Agrees(u);
      failures := failures - {u};
      logs := logs[u := log + [Succeeded(now)]];
      RefinesAfter(config, keys, log, Succeeded(now));
      assert KeysOf(u) == KeysAfter(config, keys, Succeeded(now));
      assert forall v: string | v != u :: old(Agrees(v)) && KeysOf(v) == old(KeysOf(v)) && Log(v) == old(Log(v));
    }

    /**
     `verifyCredentials`: while the log says locked nothing is evaluated, not even a right
     password; otherwise the attempt is evaluated and logged.
     */
    method VerifyCredentials(usernameLower: string, active: bool, passwordOk: bool) returns (outcome: Outcome)
      requires Valid()
      modifies `failures, `locks, `logs
      ensures Valid() && OthersUnchanged(usernameLower)
      ensures var log, log' := old(Log(usernameLower)), Log(usernameLower);
              if LockedAt(config, log, now) then outcome == AccountLocked && log' == log
              else if active && passwordOk then outcome == LoggedIn && log' == log + [Succeeded(now)]
              else if IsChain(config, log, Survivable(config), now)
              then outcome == AccountLocked && log' == log + [LockedOut(now)]
              else outcome == InvalidCredentials && log' == log + [Failed(now)]
    {
      var isLocked := IsLocked(usernameLower);
      if isLocked {
        return AccountLocked;
      }
      if !active || !passwordOk {
        var locked, _ := RecordFailure(usernameLower);
        return if locked then AccountLocked else InvalidCredentials;
      }
      ClearOnSuccess(usernameLower);
      return LoggedIn;
    }
  }
}

/**
 The life of a reseller: suspension, reinstatement and deletion after a grace period,
 tier changes, and the reassignment of institutes. Each call is one step. Times
 are in milliseconds.
 */
module ResellerLifecycle {
  import opened Wrappers
  import opened Runs

  const MS_PER_DAY: int := 86_400_000
  const GRACE_PERIOD_DAYS: int := 30
  const DEFAULT_RESELLER_ID: nat := 1

  datatype Status = Active | Suspended | Deleted

  datatype Tier = FullManagement | SupportManagement | ReadOnly

  datatype Reseller = Reseller(isSystem: bool, status: Status, isActive: bool, suspendedAt: Option<int>,
                               deletedAt: Option<int>, tier: Tier, profile: string)

  datatype Membership = Membership(reseller: nat, user: nat, role: nat)

  /** What has happened to a reseller. */
  datatype Event = WasSuspended(id: nat, at: int) | WasUnsuspended(id: nat, at: int) | WasDeleted(id: nat, at: int)

  /** Institutes are kept by owner. */
  datatype State = State(resellers: map<nat, Reseller>, institutes: map<nat, nat>, memberships: map<nat, Membership>,
                         now: int, log: seq<Event>)

  datatype Error =
    | ResellerNotFound | SystemResellerProtected | ResellerInvalid | TierChangeRequiresActive | InvalidTier
    | AlreadySuspended | NotSuspended | GracePeriodNotElapsed | InstituteNotFound

  datatype Reply = Done | Denied(error: Error)

  /** `role` is the system role found for the new tier, if there is one. */
  datatype Call =
    | Update(id: nat, profile: string)
    | ChangeTier(id: nat, tier: Tier, role: Option<nat>)
    | Suspend(id: nat)
    | Unsuspend(id: nat)
    | Delete(id: nat)
    | Reassign(institute: nat, owner: nat)
    | Wait(ms: nat)

  // ----------------------------------------------------------------------- calls

  function SetReseller(s: State, id: nat, r: Reseller): State {
    s.(resellers := s.resellers[id := r])
  }

  function UpdateReseller(s: State, id: nat, profile: string): (State, Reply) {
    if id !in s.resellers then (s, Denied(ResellerNotFound))
    else if s.resellers[id].isSystem then (s, Denied(SystemResellerProtected))
    else if s.resellers[id].status == Deleted then (s, Denied(ResellerInvalid))
    else (SetReseller(s, id, s.resellers[id].(profile := profile)), Done)
  }

  function WithRole(ms: map<nat, Membership>, id: nat, role: nat): map<nat, Membership> {
    map m | m in ms :: if ms[m].reseller == id then ms[m].(role := role) else ms[m]
  }

  function Retier(s: State, id: nat, tier: Tier, role: Option<nat>): (State, Reply) {
    if id !in s.resellers then (s, Denied(ResellerNotFound))
    else if s.resellers[id].isSystem then (s, Denied(SystemResellerProtected))
    else if s.resellers[id].status != Active then (s, Denied(TierChangeRequiresActive))
    else if s.resellers[id].tier == tier then (s, Done)
    else if role.None? then (s, Denied(InvalidTier))
    else
      var s1 := SetReseller(s, id, s.resellers[id].(tier := tier));
      (s1.(memberships := WithRole(s.memberships, id, role.value)), Done)
  }

  function SuspendReseller(s: State, id: nat): (State, Reply) {
    if id !in s.resellers then (s, Denied(ResellerNotFound))
    else if s.resellers[id].isSystem then (s, Denied(SystemResellerProtected))
    else if s.resellers[id].status == Suspended then (s, Denied(AlreadySuspended))
    else if s.resellers[id].status == Deleted then (s, Denied(ResellerInvalid))
    else
      var r := s.resellers[id].(status := Suspended, suspendedAt := Some(s.now), isActive := false);
      (SetReseller(s, id, r).(log := s.log + [WasSuspended(id, s.now)]), Done)
  }

  function UnsuspendReseller(s: State, id: nat): (State, Reply) {
    if id !in s.resellers then (s, Denied(ResellerNotFound))
    else if s.resellers[id].isSystem then (s, Denied(SystemResellerProtected))
    else if s.resellers[id].status == Deleted then (s, Denied(ResellerInvalid))
    else if s.resellers[id].status != Suspended then (s, Denied(NotSuspended))
    else
      var r := s.resellers[id].(status := Active, suspendedAt := None, isActive := true);
      (SetReseller(s, id, r).(log := s.log + [WasUnsuspended(id, s.now)]), Done)
  }

  function DaysSince(t: int, now: int): int {
    (now - t) / MS_PER_DAY
  }

  function Handed(institutes: map<nat, nat>, from: nat): map<nat, nat> {
    map i | i in institutes :: if institutes[i] == from then DEFAULT_RESELLER_ID else institutes[i]
  }

  function Without(ms: map<nat, Membership>, id: nat): map<nat, Membership> {
    map m | m in ms && ms[m].reseller != id :: ms[m]
  }

  function DeleteReseller(s: State, id: nat): (State, Reply) {
    if id !in s.resellers then (s, Denied(ResellerNotFound))
    else if s.resellers[id].isSystem then (s, Denied(SystemResellerProtected))
    else if s.resellers[id].status != Suspended then (s, Denied(NotSuspended))
    else if s.resellers[id].suspendedAt.None? then (s, Denied(ResellerInvalid))
    else if DaysSince(s.resellers[id].suspendedAt.value, s.now) < GRACE_PERIOD_DAYS
    then (s, Denied(GracePeriodNotElapsed))
    else
      var r := s.resellers[id].(status := Deleted, deletedAt := Some(s.now));
      (SetReseller(s, id, r).(institutes := Handed(s.institutes, id), memberships := Without(s.memberships, id),
                              log := s.log + [WasDeleted(id, s.now)]), Done)
  }

  /** The new owner must not be deleted, and must be active. */
  function ReassignReseller(s: State, institute: nat, owner: nat): (State, Reply) {
    if institute !in s.institutes then (s, Denied(InstituteNotFound))
    else if owner !in s.resellers || s.resellers[owner].deletedAt.Some? then (s, Denied(ResellerInvalid))
    else if s.resellers[owner].status != Active || !s.resellers[owner].isActive then (s, Denied(ResellerInvalid))
    else (s.(institutes := s.institutes[institute := owner]), Done)
  }

  function Serve(s: State, c: Call): (State, Reply) {
    match c
    case Update(id, profile) => UpdateReseller(s, id, profile)
    case ChangeTier(id, tier, role) => Retier(s, id, tier, role)
    case Suspend(id) => SuspendReseller(s, id)
    case Unsuspend(id) => UnsuspendReseller(s, id)
    case Delete(id) => DeleteReseller(s, id)
    case Reassign(institute, owner) => ReassignReseller(s, institute, owner)
    case Wait(ms) => (s.(now := s.now + ms), Done)
  }

  // ------------------------------------------------------------------- invariants

  /** The last thing that happened to a reseller. */
  function LastEvent(log: seq<Event>, id: nat): Option<Event> {
    if log == [] then None
    else if log[|log| - 1].id == id then Some(log[|log| - 1])
    else LastEvent(log[..|log| - 1], id)
  }

  lemma LastSnoc(log: seq<Event>, e: Event, id: nat)
    ensures LastEvent(log + [e], id) == if e.id == id then Some(e) else LastEvent(log, id)
  {
    assert (log + [e])[..|log|] == log;
  }

  /** A row's columns agree with each other and with what last happened to it. */
  predicate RowOk(r: Reseller, last: Option<Event>) {
    match r.status
    case Active => r.isActive && r.suspendedAt.None? && r.deletedAt.None? && (last.Some? ==> last.value.WasUnsuspended?)
    case Suspended => !r.isActive && r.suspendedAt.Some? && r.deletedAt.None?
                      && last.Some? && last.value.WasSuspended? && last.value.at == r.suspendedAt.value
    case Deleted => !r.isActive && r.deletedAt.Some? && last.Some? && last.value.WasDeleted?
  }

  /** A deletion comes at least the grace period after the suspension before it, with nothing between them. */
  predicate EventOk(log: seq<Event>, i: nat)
    requires i < |log|
  {
    log[i].WasDeleted? ==>
      var last := LastEvent(log[..i], log[i].id);
      last.Some? && last.value.WasSuspended? && log[i].at - last.value.at >= GRACE_PERIOD_DAYS * MS_PER_DAY
  }

  predicate OwnerOk(resellers: map<nat, Reseller>, owner: nat) {
    owner in resellers && resellers[owner].status != Deleted
  }

  ghost predicate Inv(s: State) {
    && OwnerOk(s.resellers, DEFAULT_RESELLER_ID) && s.resellers[DEFAULT_RESELLER_ID].isSystem
    && (forall id | id in s.resellers :: RowOk(s.resellers[id], LastEvent(s.log, id)))
    && (forall i | i in s.institutes :: OwnerOk(s.resellers, s.institutes[i]))
    && (forall i | 0 <= i < |s.log| :: EventOk(s.log, i))
  }

  /** What no call undoes: institutes stay, and a system or deleted reseller's row does not change at all. */
  ghost predicate Later(s: State, s': State) {
    && s'.institutes.Keys == s.institutes.Keys
    && forall id | id in s.resellers :: id in s'.resellers && RowLater(s.resellers[id], s'.resellers[id])
  }

  predicate RowLater(r: Reseller, r': Reseller) {
    r'.isSystem == r.isSystem && (r.isSystem || r.status == Deleted ==> r' == r)
  }

  /** A row changed together with the log. */
  lemma EventKeeps(s: State, id: nat, r: Reseller, e: Event)
    requires Inv(s) && id in s.resellers && !s.resellers[id].isSystem && s.resellers[id].status != Deleted
    requires e.id == id && r.isSystem == s.resellers[id].isSystem && RowOk(r, Some(e))
    requires EventOk(s.log + [e], |s.log|) && r.status != Deleted
    ensures Inv(SetReseller(s, id, r).(log := s.log + [e])) && Later(s, SetReseller(s, id, r).(log := s.log + [e]))
  {
    var s' := SetReseller(s, id, r).(log := s.log + [e]);
    LogSnoc(s, e);
    forall i | i in s'.institutes ensures OwnerOk(s'.resellers, s'.institutes[i]) {
      assert OwnerOk(s.resellers, s.institutes[i]);
    }
    forall x | x in s'.resellers ensures RowOk(s'.resellers[x], LastEvent(s'.log, x)) {
      LastSnoc(s.log, e, x);
    }
  }

  lemma LogSnoc(s: State, e: Event)
    requires Inv(s) && EventOk(s.log + [e], |s.log|)
    ensures forall i | 0 <= i < |s.log + [e]| :: EventOk(s.log + [e], i)
  {
    var l := s.log + [e];
    forall i | 0 <= i < |l| ensures EventOk(l, i) {
      if i < |s.log| {
        assert EventOk(s.log, i) && l[..i] == s.log[..i];
      }
    }
  }

  /** A row changed without an event. */
  lemma RowKeeps(s: State, id: nat, r: Reseller)
    requires Inv(s) && id in s.resellers && !s.resellers[id].isSystem && s.resellers[id].status != Deleted
    requires r == s.resellers[id].(tier := r.tier, profile := r.profile)
    ensures Inv(SetReseller(s, id, r)) && Later(s, SetReseller(s, id, r))
  {
    var s' := SetReseller(s, id, r);
    forall i | i in s'.institutes ensures OwnerOk(s'.resellers, s'.institutes[i]) {
      assert OwnerOk(s.resellers, s.institutes[i]);
    }
  }

  lemma DeleteKeeps(s: State, id: nat)
    requires Inv(s)
    ensures Inv(DeleteReseller(s, id).0) && Later(s, DeleteReseller(s, id).0)
  {
    var s' := DeleteReseller(s, id).0;
    if DeleteReseller(s, id).1.Done? {
      var e := WasDeleted(id, s.now);
      assert (s.log + [e])[..|s.log|] == s.log;
      LogSnoc(s, e);
      forall i | i in s'.institutes ensures OwnerOk(s'.resellers, s'.institutes[i]) {
        assert OwnerOk(s.resellers, s.institutes[i]);
      }
      forall x | x in s'.resellers ensures RowOk(s'.resellers[x], LastEvent(s'.log, x)) {
        LastSnoc(s.log, e, x);
      }
    }
  }

  lemma UpdateKeeps(s: State, id: nat, profile: string)
    requires Inv(s)
    ensures Inv(UpdateReseller(s, id, profile).0) && Later(s, UpdateReseller(s, id, profile).0)
  {
    if UpdateReseller(s, id, profile).1.Done? {
      RowKeeps(s, id, s.resellers[id].(profile := profile));
    }
  }

  lemma RetierKeeps(s: State, id: nat, tier: Tier, role: Option<nat>)
    requires Inv(s)
    ensures Inv(Retier(s, id, tier, role).0) && Later(s, Retier(s, id, tier, role).0)
  {
    if Retier(s, id, tier, role).1.Done? {
      RowKeeps(s, id, s.resellers[id].(tier := tier));
    }
  }

  lemma ReassignKeeps(s: State, institute: nat, owner: nat)
    requires Inv(s)
    ensures Inv(ReassignReseller(s, institute, owner).0) && Later(s, ReassignReseller(s, institute, owner).0)
  {
  }

  lemma SuspendKeeps(s: State, id: nat)
    requires Inv(s)
    ensures Inv(SuspendReseller(s, id).0) && Later(s, SuspendReseller(s, id).0)
  {
    if SuspendReseller(s, id).1.Done? {
      var r := s.resellers[id].(status := Suspended, suspendedAt := Some(s.now), isActive := false);
      EventKeeps(s, id, r, WasSuspended(id, s.now));
    }
  }

  lemma UnsuspendKeeps(s: State, id: nat)
    requires Inv(s)
    ensures Inv(UnsuspendReseller(s, id).0) && Later(s, UnsuspendReseller(s, id).0)
  {
    if UnsuspendReseller(s, id).1.Done? {
      var r := s.resellers[id].(status := Active, suspendedAt := None, isActive := true);
      EventKeeps(s, id, r, WasUnsuspended(id, s.now));
    }
  }

  /** Every call keeps the invariant, loses no institute, and leaves system and deleted resellers alone. */
  lemma ServeKeeps(s: State, c: Call)
    requires Inv(s)
    ensures Inv(Serve(s, c).0) && Later(s, Serve(s, c).0)
  {
    match c {
      case Update(id, profile) => UpdateKeeps(s, id, profile);
      case ChangeTier(id, tier, role) => RetierKeeps(s, id, tier, role);
      case Suspend(id) => SuspendKeeps(s, id);
      case Unsuspend(id) => UnsuspendKeeps(s, id);
      case Delete(id) => DeleteKeeps(s, id);
      case Reassign(institute, owner) => ReassignKeeps(s, institute, owner);
      case Wait(_) =>
    }
  }

  // ------------------------------------------------------------------------- runs

  ghost function Next(s: State, c: Call): Option<State> {
    Some(Serve(s, c).0)
  }

  /** A run begins with active resellers only, among them the system reseller that institutes fall back to. */
  ghost predicate Valid(r: Run<State, Call>) {
    IsRun(Next, r) && Inv(r.states[0]) && r.states[0].log == []
  }

  lemma CallsAdvance()
    ensures Keeps(Next, Inv) && Advances(Next, Inv, Later) && Preorder(Later)
  {
    forall s: State, c: Call | Inv(s) ensures Inv(Next(s, c).value) && Later(s, Next(s, c).value) {
      ServeKeeps(s, c);
    }
    forall s: State, t: State, u: State | Later(s, t) && Later(t, u) ensures Later(s, u) {
      LaterTrans(s, t, u);
    }
  }

  lemma LaterTrans(s: State, s1: State, s2: State)
    requires Later(s, s1) && Later(s1, s2)
    ensures Later(s, s2)
  {
  }

  lemma Reachable(r: Run<State, Call>, n: nat)
    requires Valid(r) && n < |r.states|
    ensures Inv(r.states[n])
  {
    CallsAdvance();
    Always(Next, Inv, r, n);
  }

  lemma RunLater(r: Run<State, Call>, i: nat, j: nat)
    requires Valid(r) && i <= j < |r.states|
    ensures Later(r.states[i], r.states[j])
  {
    CallsAdvance();
    Along(Next, Inv, Later, r, i, j);
  }

  // --------------------------------------------------------------------- theorems

  /** Over every run the institutes are the same ones, and none is owned by a deleted reseller. */
  lemma InstitutesConserved(r: Run<State, Call>, i: nat, j: nat)
    requires Valid(r) && i <= j < |r.states|
    ensures r.states[j].institutes.Keys == r.states[i].institutes.Keys
    ensures forall x | x in r.states[j].institutes ::
              r.states[j].institutes[x] in r.states[j].resellers
              && r.states[j].resellers[r.states[j].institutes[x]].status != Deleted
  {
    RunLater(r, i, j);
    Reachable(r, j);
    forall x | x in r.states[j].institutes ensures OwnerOk(r.states[j].resellers, r.states[j].institutes[x]) {
    }
  }

  /** DELETED is absorbing and the system reseller cannot be changed: their rows are the same ever after. */
  lemma NeverChangedAgain(r: Run<State, Call>, i: nat, j: nat, id: nat)
    requires Valid(r) && i <= j < |r.states| && id in r.states[i].resellers
    requires r.states[i].resellers[id].isSystem || r.states[i].resellers[id].status == Deleted
    ensures id in r.states[j].resellers && r.states[j].resellers[id] == r.states[i].resellers[id]
  {
    RunLater(r, i, j);
    assert RowLater(r.states[i].resellers[id], r.states[j].resellers[id]);
  }

  /** A suspended reseller is inactive and its suspension is dated, and only such a one. */
  lemma SuspendedIff(r: Run<State, Call>, n: nat, id: nat)
    requires Valid(r) && n < |r.states| && id in r.states[n].resellers
    ensures var row := r.states[n].resellers[id];
            row.status == Suspended <==> !row.isActive && row.suspendedAt.Some? && row.deletedAt.None?
  {
    Reachable(r, n);
    assert RowOk(r.states[n].resellers[id], LastEvent(r.states[n].log, id));
  }

  /**
   Every deletion in the history came at least 30 full days after the latest suspension, which
   was not lifted in between.
   */
  lemma GracePeriodKept(r: Run<State, Call>, n: nat, i: nat)
    requires Valid(r) && n < |r.states| && i < |r.states[n].log| && r.states[n].log[i].WasDeleted?
    ensures var log := r.states[n].log;
            exists j :: 0 <= j < i && log[j] == WasSuspended(log[i].id, log[j].at)
                        && log[i].at - log[j].at >= 30 * 24 * 60 * 60 * 1000
                        && forall k | j < k < i :: log[k].id != log[i].id
  {
    Reachable(r, n);
    var log := r.states[n].log;
    assert EventOk(log, i);
    LastAt(log[..i], log[i].id);
    var j :| 0 <= j < i && log[..i][j].id == log[i].id && LastEvent(log[..i], log[i].id) == Some(log[..i][j])
             && forall k | j < k < i :: log[..i][k].id != log[i].id;
    assert log[j] == log[..i][j];
    assert forall k | j < k < i :: log[k] == log[..i][k];
  }

  lemma {:induction false} LastAt(log: seq<Event>, id: nat)
    requires LastEvent(log, id).Some?
    ensures exists j :: 0 <= j < |log| && log[j].id == id && LastEvent(log, id) == Some(log[j])
                        && forall k | j < k < |log| :: log[k].id != id
  {
    var l := log[..|log| - 1];
    if log[|log| - 1].id != id {
      LastAt(l, id);
      var j :| 0 <= j < |l| && l[j].id == id && LastEvent(l, id) == Some(l[j])
               && forall k | j < k < |l| :: l[k].id != id;
      assert log[j] == l[j];
      assert forall k | j < k < |l| :: log[k] == l[k];
    }
  }

  /** The reseller a call is about. */
  function About(c: Call): Option<nat> {
    match c
    case Reassign(_, _) => None
    case Wait(_) => None
    case _ => Some(c.id)
  }

  /**
   A call changes no other reseller, hands over no other reseller's institutes, and changes no
   other reseller's members.
   */
  lemma OthersUntouched(s: State, c: Call, other: nat)
    requires Inv(s) && About(c) != Some(other)
    ensures var s' := Serve(s, c).0;
            && (other in s.resellers ==> other in s'.resellers && s'.resellers[other] == s.resellers[other])
            && (!c.Reassign? ==> forall i | i in s.institutes && s.institutes[i] == other :: s'.institutes[i] == other)
            && forall m | m in s.memberships && s.memberships[m].reseller == other ::
                 m in s'.memberships && s'.memberships[m] == s.memberships[m]
  {
  }

  /** The call takes institute x to another owner, or to the same one anew. */
  ghost predicate Moves(s: State, c: Call, x: nat) {
    && x in s.institutes && Serve(s, c).1.Done?
    && ((c.Reassign? && c.institute == x) || (c.Delete? && c.id == s.institutes[x]))
  }

  function NewOwner(c: Call): nat
    requires c.Reassign? || c.Delete?
  {
    if c.Reassign? then c.owner else DEFAULT_RESELLER_ID
  }

  lemma MoveDecides(s: State, c: Call, x: nat)
    requires x in s.institutes
    ensures x in Serve(s, c).0.institutes
    ensures Serve(s, c).0.institutes[x] == if Moves(s, c, x) then NewOwner(c) else s.institutes[x]
  {
  }

  /** The call at k takes institute x along. */
  ghost predicate MovesAt(r: Run<State, Call>, k: nat, x: nat)
    requires k < |r.calls| < |r.states|
  {
    Moves(r.states[k], r.calls[k], x)
  }

  ghost predicate NoMove(r: Run<State, Call>, i: nat, j: nat, x: nat)
    requires j <= |r.calls| < |r.states|
  {
    forall k | i <= k < j :: !MovesAt(r, k, x)
  }

  /**
   Who owns an institute: the reseller that the latest call to move it gave it to, whether a
   reassignment of it or the deletion of its owner of the time, and its first owner if none did.
   */
  lemma {:induction false} LatestMoveDecides(r: Run<State, Call>, i: nat, j: nat, x: nat)
    requires Valid(r) && i <= j < |r.states| && x in r.states[i].institutes
    ensures x in r.states[j].institutes
    ensures NoMove(r, i, j, x) ==> r.states[j].institutes[x] == r.states[i].institutes[x]
    ensures forall k | i <= k < j && MovesAt(r, k, x) && NoMove(r, k + 1, j, x) ::
              r.states[j].institutes[x] == NewOwner(r.calls[k])
    decreases j
  {
    if i < j {
      LatestMoveDecides(r, i, j - 1, x);
      assert Follows(Next, r, j - 1);
      MoveDecides(r.states[j - 1], r.calls[j - 1], x);
      forall k | i <= k < j && MovesAt(r, k, x) && NoMove(r, k + 1, j, x)
        ensures r.states[j].institutes[x] == NewOwner(r.calls[k])
      {
        if k < j - 1 {
          assert !MovesAt(r, j - 1, x) && NoMove(r, k + 1, j - 1, x);
        }
      }
      assert NoMove(r, i, j, x) ==> !MovesAt(r, j - 1, x) && NoMove(r, i, j - 1, x);
    }
  }

  /** A row that an administrator may work on: known, not the system's, and not deleted. */
  predicate Editable(s: State, id: nat) {
    id in s.resellers && !s.resellers[id].isSystem && s.resellers[id].status != Deleted
  }

  /** Exactly when a deletion goes through, thirty days being 30 * 24 * 60 * 60 * 1000 milliseconds, and the new row. */
  lemma DeletedIff(r: Run<State, Call>, n: nat, id: nat)
    requires Valid(r) && n < |r.states|
    ensures var s := r.states[n];
            var (s', reply) := Serve(s, Delete(id));
            && (reply.Done? <==>
                  && id in s.resellers && !s.resellers[id].isSystem && s.resellers[id].status == Suspended
                  && s.resellers[id].suspendedAt.Some?
                  && s.now - s.resellers[id].suspendedAt.value >= 30 * 24 * 60 * 60 * 1000)
            && (reply.Done? ==>
                  s'.resellers == s.resellers[id := s.resellers[id].(status := Deleted, deletedAt := Some(s.now))])
            && (!reply.Done? ==> s' == s)
  {
    Reachable(r, n);
    assert id in r.states[n].resellers ==> RowOk(r.states[n].resellers[id], LastEvent(r.states[n].log, id));
  }

  /** A reassignment goes through exactly for a known institute and an active reseller, and moves it alone. */
  lemma ReassignedIff(s: State, institute: nat, owner: nat)
    requires Inv(s)
    ensures var (s', reply) := Serve(s, Reassign(institute, owner));
            && reply == (if institute !in s.institutes then Denied(InstituteNotFound)
                         else if owner in s.resellers && s.resellers[owner].status == Active then Done
                         else Denied(ResellerInvalid))
            && s' == if reply.Done? then s.(institutes := s.institutes[institute := owner]) else s
  {
    assert owner in s.resellers ==> RowOk(s.resellers[owner], LastEvent(s.log, owner));
  }

  /** Suspending takes an active reseller, reinstating a suspended one, and each writes what the other takes back. */
  lemma SuspendedAnswers(s: State, id: nat)
    requires Inv(s)
    ensures var (s', reply) := Serve(s, Suspend(id));
            && (reply.Done? <==> id in s.resellers && !s.resellers[id].isSystem && s.resellers[id].status == Active)
            && (reply.Done? ==>
                  && s'.resellers == s.resellers[id := s.resellers[id].(status := Suspended, suspendedAt := Some(s.now),
                                                                         isActive := false)]
                  && s'.log == s.log + [WasSuspended(id, s.now)])
            && (id in s.resellers && !s.resellers[id].isSystem ==>
                  && (s.resellers[id].status == Suspended ==> reply == Denied(AlreadySuspended))
                  && (s.resellers[id].status == Deleted ==> reply == Denied(ResellerInvalid)))
            && s'.institutes == s.institutes && s'.memberships == s.memberships
    ensures var (s', reply) := Serve(s, Unsuspend(id));
            && (reply.Done? <==> id in s.resellers && !s.resellers[id].isSystem && s.resellers[id].status == Suspended)
            && (reply.Done? ==>
                  && s'.resellers == s.resellers[id := s.resellers[id].(status := Active, suspendedAt := None,
                                                                         isActive := true)]
                  && s'.log == s.log + [WasUnsuspended(id, s.now)])
            && (id in s.resellers && !s.resellers[id].isSystem ==>
                  && (s.resellers[id].status == Active ==> reply == Denied(NotSuspended))
                  && (s.resellers[id].status == Deleted ==> reply == Denied(ResellerInvalid)))
            && s'.institutes == s.institutes && s'.memberships == s.memberships
  {
  }

  /** An update takes any row an administrator may work on, a change of tier an active one; no other column changes. */
  lemma EditedAnswers(s: State, id: nat, profile: string, tier: Tier, role: Option<nat>)
    requires Inv(s)
    ensures var (s', reply) := Serve(s, Update(id, profile));
            && (reply.Done? <==> Editable(s, id))
            && s' == if reply.Done? then s.(resellers := s.resellers[id := s.resellers[id].(profile := profile)]) else s
    ensures var (s', reply) := Serve(s, ChangeTier(id, tier, role));
            && (reply.Done? <==>
                  && id in s.resellers && !s.resellers[id].isSystem && s.resellers[id].status == Active
                  && (s.resellers[id].tier == tier || role.Some?))
            && s'.resellers == (if reply.Done? then s.resellers[id := s.resellers[id].(tier := tier)] else s.resellers)
            && s'.institutes == s.institutes && s'.memberships.Keys == s.memberships.Keys
            && forall m | m in s.memberships ::
                 s'.memberships[m] ==
                 if reply.Done? && s.memberships[m].reseller == id && s.resellers[id].tier != tier
                 then s.memberships[m].(role := role.value) else s.memberships[m]
  {
    if id in s.resellers {
      assert s.resellers[id := s.resellers[id]] == s.resellers;
    }
  }

  /** A call is refused for an unknown reseller, for the system's, or in the wrong state, and then nothing changes. */
  lemma Refusals(s: State, c: Call)
    requires Inv(s) && About(c).Some?
    ensures var id, (s', reply) := c.id, Serve(s, c);
            && (reply.Denied? ==> s' == s)
            && (id !in s.resellers ==> reply == Denied(ResellerNotFound))
            && (id in s.resellers && s.resellers[id].isSystem ==> reply == Denied(SystemResellerProtected))
            && (id in s.resellers && !s.resellers[id].isSystem && reply.Denied? ==>
                  match c {
                    case Update(_, _) => reply.error == ResellerInvalid && s.resellers[id].status == Deleted
                    case ChangeTier(_, _, _) =>
                      if s.resellers[id].status == Active then reply.error == InvalidTier
                      else reply.error == TierChangeRequiresActive
                    case Delete(_) =>
                      if s.resellers[id].status == Suspended then reply.error == GracePeriodNotElapsed
                      else reply.error == NotSuspended
                    case _ => reply.error in {AlreadySuspended, NotSuspended, ResellerInvalid}
                  })
  {
    assert c.id in s.resellers ==> RowOk(s.resellers[c.id], LastEvent(s.log, c.id));
  }

  /** A deletion hands exactly the reseller's institutes to the system reseller and removes exactly its memberships. */
  lemma DeletionMovesOwn(s: State, id: nat)
    requires Inv(s) && DeleteReseller(s, id).1.Done?
    ensures var s' := DeleteReseller(s, id).0;
            && (forall i | i in s.institutes :: i in s'.institutes
                  && (s'.institutes[i] != s.institutes[i] <==> s.institutes[i] == id)
                  && (s.institutes[i] == id ==> s'.institutes[i] == DEFAULT_RESELLER_ID))
            && (forall m :: m in s'.memberships <==> m in s.memberships && s.memberships[m].reseller != id)
  {
  }

  /** Every member has the role of the tier of a reseller that is not deleted. */
  ghost predicate RolesOk(s: State, roleOf: Tier -> nat) {
    forall m | m in s.memberships :: MemberOk(s.resellers, s.memberships[m], roleOf)
  }

  predicate MemberOk(resellers: map<nat, Reseller>, member: Membership, roleOf: Tier -> nat) {
    && member.reseller in resellers && resellers[member.reseller].status != Deleted
    && member.role == roleOf(resellers[member.reseller].tier)
  }

  ghost predicate HasMember(s: State, id: nat) {
    exists m :: m in s.memberships && s.memberships[m].reseller == id
  }

  /** A reseller with members gets another tier, but they do not get its role. */
  ghost predicate Misroles(s: State, c: Call, roleOf: Tier -> nat) {
    && c.ChangeTier? && Serve(s, c).1.Done? && s.resellers[c.id].tier != c.tier
    && HasMember(s, c.id) && c.role != Some(roleOf(c.tier))
  }

  lemma RolesKeptIff(s: State, c: Call, roleOf: Tier -> nat)
    requires Inv(s) && RolesOk(s, roleOf)
    ensures RolesOk(Serve(s, c).0, roleOf) <==> !Misroles(s, c, roleOf)
  {
    var s' := Serve(s, c).0;
    if Misroles(s, c, roleOf) {
      var m :| m in s.memberships && s.memberships[m].reseller == c.id;
      assert !MemberOk(s'.resellers, s'.memberships[m], roleOf);
    } else {
      forall m | m in s'.memberships ensures MemberOk(s'.resellers, s'.memberships[m], roleOf) {
        assert MemberOk(s.resellers, s.memberships[m], roleOf);
        assert HasMember(s, s.memberships[m].reseller);
      }
    }
  }

  ghost predicate MisrolesAt(r: Run<State, Call>, k: nat, roleOf: Tier -> nat)
    requires k < |r.calls| < |r.states|
  {
    Misroles(r.states[k], r.calls[k], roleOf)
  }

  lemma {:induction false} RolesSoFar(r: Run<State, Call>, n: nat, roleOf: Tier -> nat)
    requires Valid(r) && n < |r.states| && RolesOk(r.states[0], roleOf)
    requires forall k | 0 <= k < n :: !MisrolesAt(r, k, roleOf)
    ensures RolesOk(r.states[n], roleOf)
  {
    if n > 0 {
      RolesSoFar(r, n - 1, roleOf);
      Reachable(r, n - 1);
      assert Follows(Next, r, n - 1) && !MisrolesAt(r, n - 1, roleOf);
      RolesKeptIff(r.states[n - 1], r.calls[n - 1], roleOf);
    }
  }

  /**
   Members' roles follow their reseller's tier over whole runs, and deleted resellers have no
   members, exactly as long as each change of tier that finds members looks up that tier's role.
   */
  lemma RolesFollowTiersIff(r: Run<State, Call>, roleOf: Tier -> nat)
    requires Valid(r) && RolesOk(r.states[0], roleOf)
    ensures (forall n | 0 <= n < |r.states| :: RolesOk(r.states[n], roleOf)) <==>
            (forall k | 0 <= k < |r.calls| :: !MisrolesAt(r, k, roleOf))
  {
    if k: nat :| k < |r.calls| && MisrolesAt(r, k, roleOf) {
      Reachable(r, k);
      assert Follows(Next, r, k);
      if RolesOk(r.states[k], roleOf) {
        RolesKeptIff(r.states[k], r.calls[k], roleOf);
        assert !RolesOk(r.states[k + 1], roleOf);
      }
    } else {
      forall n | 0 <= n < |r.states| ensures RolesOk(r.states[n], roleOf) {
        RolesSoFar(r, n, roleOf);
      }
    }
  }

  // ------------------------------------------------------------------ the service

  class AdminResellerService {
    var resellers: map<nat, Reseller>
    var institutes: map<nat, nat>
    var memberships: map<nat, Membership>
    var now: int
    ghost var log: seq<Event>

    ghost function Model(): State
      reads this
    {
      State(resellers, institutes, memberships, now, log)
    }

    constructor (resellers: map<nat, Reseller>, institutes: map<nat, nat>, memberships: map<nat, Membership>, now: int)
      ensures Model() == State(resellers, institutes, memberships, now, [])
    {
      this.resellers, this.institutes, this.memberships := resellers, institutes, memberships;
      this.now, this.log := now, [];
    }

    method Update(id: nat, profile: string) returns (reply: Reply)
      requires Inv(Model())
      modifies this
      ensures Inv(Model()) && (Model(), reply) == Serve(old(Model()), Call.Update(id, profile))
    {
      ServeKeeps(Model(), Call.Update(id, profile));
      if id !in resellers {
        return Denied(ResellerNotFound);
      }
      var existing := resellers[id];
      if existing.isSystem {
        return Denied(SystemResellerProtected);
      }
      if existing.status == Deleted {
        return Denied(ResellerInvalid);
      }
      resellers := resellers[id := existing.(profile := profile)];
      return Done;
    }

    method ChangeTier(id: nat, newTier: Tier, newRole: Option<nat>) returns (reply: Reply)
      requires Inv(Model())
      modifies this
      ensures Inv(Model()) && (Model(), reply) == Serve(old(Model()), Call.ChangeTier(id, newTier, newRole))
    {
      ServeKeeps(Model(), Call.ChangeTier(id, newTier, newRole));
      if id !in resellers {
        return Denied(ResellerNotFound);
      }
      var existing := resellers[id];
      if existing.isSystem {
        return Denied(SystemResellerProtected);
      }
      if existing.status != Active {
        return Denied(TierChangeRequiresActive);
      }
      if existing.tier == newTier {
        return Done;
      }
      if newRole.None? {
        return Denied(InvalidTier);
      }
      resellers := resellers[id := existing.(tier := newTier)];
      memberships := map m | m in memberships ::
        if memberships[m].reseller == id then memberships[m].(role := newRole.value) else memberships[m];
      return Done;
    }

    method SuspendReseller(id: nat) returns (reply: Reply)
      requires Inv(Model())
      modifies this
      ensures Inv(Model()) && (Model(), reply) == Serve(old(Model()), Suspend(id))
    {
      ServeKeeps(Model(), Suspend(id));
      if id !in resellers {
        return Denied(ResellerNotFound);
      }
      var reseller := resellers[id];
      if reseller.isSystem {
        return Denied(SystemResellerProtected);
      }
      if reseller.status == Suspended {
        return Denied(AlreadySuspended);
      }
      if reseller.status == Deleted {
        return Denied(ResellerInvalid);
      }
      resellers := resellers[id := reseller.(status := Suspended, suspendedAt := Some(now), isActive := false)];
      log := log + [WasSuspended(id, now)];
      return Done;
    }

    method UnsuspendReseller(id: nat) returns (reply: Reply)
      requires Inv(Model())
      modifies this
      ensures Inv(Model()) && (Model(), reply) == Serve(old(Model()), Unsuspend(id))
    {
      ServeKeeps(Model(), Unsuspend(id));
      if id !in resellers {
        return Denied(ResellerNotFound);
      }
      var reseller := resellers[id];
      if reseller.isSystem {
        return Denied(SystemResellerProtected);
      }
      if reseller.status == Deleted {
        return Denied(ResellerInvalid);
      }
      if reseller.status != Suspended {
        return Denied(NotSuspended);
      }
      resellers := resellers[id := reseller.(status := Active, suspendedAt := None, isActive := true)];
      log := log + [WasUnsuspended(id, now)];
      return Done;
    }

    method DeleteReseller(id: nat) returns (reply: Reply)
      requires Inv(Model())
      modifies this
      ensures Inv(Model()) && (Model(), reply) == Serve(old(Model()), Delete(id))
    {
      ServeKeeps(Model(), Delete(id));
      if id !in resellers {
        return Denied(ResellerNotFound);
      }
      var reseller := resellers[id];
      if reseller.isSystem {
        return Denied(SystemResellerProtected);
      }
      if reseller.status != Suspended {
        return Denied(NotSuspended);
      }
      if reseller.suspendedAt.None? {
        return Denied(ResellerInvalid);
      }
      var daysSinceSuspension := DaysSince(reseller.suspendedAt.value, now);
      if daysSinceSuspension < GRACE_PERIOD_DAYS {
        return Denied(GracePeriodNotElapsed);
      }
      institutes := map i | i in institutes :: if institutes[i] == id then DEFAULT_RESELLER_ID else institutes[i];
      memberships := map m | m in memberships && memberships[m].reseller != id :: memberships[m];
      resellers := resellers[id := reseller.(status := Deleted, deletedAt := Some(now))];
      log := log + [WasDeleted(id, now)];
      return Done;
    }

    method ReassignReseller(institute: nat, newReseller: nat) returns (reply: Reply)
      requires Inv(Model())
      modifies this
      ensures Inv(Model()) && (Model(), reply) == Serve(old(Model()), Reassign(institute, newReseller))
    {
      ServeKeeps(Model(), Reassign(institute, newReseller));
      if institute !in institutes {
        return Denied(InstituteNotFound);
      }
      if newReseller !in resellers || resellers[newReseller].deletedAt.Some? {
        return Denied(ResellerInvalid);
      }
      var target := resellers[newReseller];
      if target.status != Active || !target.isActive {
        return Denied(ResellerInvalid);
      }
      institutes := institutes[institute := newReseller];
      return Done;
    }
  }
}

/**
 The consumer's own code over the pipeline state: the consume loop's body and `flush`.
 Whether an insert or a dead-letter publish succeeds is a parameter, and so is what the
 rest of the system does during each await; the ghost field `log` records the run.
 */
module AuditConsumer {
  import opened Wrappers
  import opened AuditInsert
  import opened AuditPipeline

  /** How an awaited call ends; a failed call may still have taken effect. */
  datatype Outcome = Success | Failure(tookEffect: bool)

  /** True when `a` is a step that only flush f itself takes, or ends the process. */
  predicate StepOf(a: Action, f: nat) {
    match a
    case InsertOk(g) => f == g
    case InsertFail(g, _) => f == g
    case Nak(g) => f == g
    case DlqOk(g) => f == g
    case DlqFail(g, _) => f == g
    case Restart => true
    case CrashAcking(_, _) => true
    case _ => false
  }

  ghost predicate HasResolved(st: Store, d: Delivery) {
    d.msg in st.status && !st.status[d.msg].Owned?
  }

  /** The table has a row with the id and the creation time of event m. */
  ghost predicate HasRow(st: Store, m: nat) {
    && m in st.payloads && st.payloads[m].Event?
    && var e := st.payloads[m].event;
    exists i :: 0 <= i < |st.table| && st.table[i].id == e.id && st.table[i].createdAt == e.createdAt
  }

  /** The latest dead letter is that of the delivery d of an event, with its count. */
  ghost predicate HasLetterOf(st: Store, d: Delivery) {
    && d.msg in st.payloads && st.payloads[d.msg].Event? && st.dlq != []
    && st.dlq[|st.dlq| - 1] == DeadLetter(d.msg, Some(st.payloads[d.msg].event), d.count)
  }

  lemma KeyIsRow(st: Store, m: nat)
    requires m in st.payloads && st.payloads[m].Event? && HasKey(st.table, Key(st.payloads[m].event))
    ensures HasRow(st, m)
  {
    var e := st.payloads[m].event;
    var i :| 0 <= i < |st.table| && Key(st.table[i]) == Key(e);
    assert st.table[i].id == e.id && st.table[i].createdAt == e.createdAt;
  }

  lemma StillLater(st: Store, st1: Store, st2: Store)
    requires Later(st, st1) && Later(st1, st2)
    ensures Later(st, st2)
  {
  }

  class Consumer {
    var s: State
    ghost var log: seq<Action>

    ghost predicate Valid()
      reads this
    {
      Exec(INIT, log) == Some(s)
    }

    lemma Invariant()
      requires Valid()
      ensures Inv(s)
    {
      InitInv();
      ExecInv(INIT, log);
    }

    constructor ()
      ensures Valid() && s == INIT
    {
      s := INIT;
      log := [];
    }

    method Do(a: Action)
      requires Valid() && Enabled(s, a)
      modifies this
      ensures Valid() && s == Step(old(s), a) && log == old(log) + [a]
      ensures Later(old(s).store, s.store)
    {
      Invariant();
      StepLater(s, a);
      ExecConcat(INIT, log, [a]);
      assert Exec(s, [a]) == Some(Step(s, a)) by {
        assert [a][1..] == [];
      }
      s := Step(s, a);
      log := log + [a];
    }

    /** Others act during an await of flush f. */
    method Interfere(f: nat, actions: seq<Action>)
      requires Valid() && f in s.worker.flushes
      modifies this
      ensures Valid() && Later(old(s).store, s.store)
      ensures f in s.worker.flushes && s.worker.flushes[f] == old(s).worker.flushes[f]
    {
      for i := 0 to |actions|
        invariant Valid() && Later(old(s).store, s.store)
        invariant f in s.worker.flushes && s.worker.flushes[f] == old(s).worker.flushes[f]
      {
        if !StepOf(actions[i], f) && Enabled(s, actions[i]) {
          Do(actions[i]);
        }
      }
    }

    /** The batch was inserted: every message is acknowledged. */
    method Complete(f: nat)
      requires Valid() && f in s.worker.flushes && s.worker.flushes[f].Inserting?
      modifies this
      ensures Valid() && Later(old(s).store, s.store) && f !in s.worker.flushes
      ensures forall d | d in old(s).worker.flushes[f].batch ::
                HasResolved(s.store, d) && HasRow(s.store, d.msg)
    {
      var batch := s.worker.flushes[f].batch;
      Invariant();
      assert FlushOk(s.store.payloads, s.worker, s.worker.flushes[f]);
      var q := BatchInsert(EventsOf(s.store, batch));
      StoredOk(s.store, batch);
      ghost var was := s.store;
      Do(InsertOk(f));
      forall d | d in batch ensures HasResolved(s.store, d) && HasRow(s.store, d.msg) {
        AckAllStatus(was.status, batch, d.msg);
        var i :| 0 <= i < |batch| && batch[i] == d;
        KeyIsRow(s.store, d.msg);
      }
    }

    /** One message of a failed batch: dead-lettered and terminated, or handed back for redelivery. */
    method HandleOne(f: nat, dlq: Delivery -> Outcome, env: seq<Action>) returns (threw: bool)
      requires Valid() && Due(s.worker, f)
      modifies this
      ensures Valid() && Later(old(s).store, s.store)
      ensures var d := DueDelivery(old(s).worker, f);
              && (threw <==> d.count >= 3 && dlq(d).Failure?)
              && (d.count < 3 ==> s.store == old(s).store)
              && (d.count >= 3 && !threw ==> HasResolved(s.store, d) && HasLetterOf(s.store, d))
      ensures var fl := old(s).worker.flushes[f];
              if threw || fl.next + 1 == |fl.batch| then f !in s.worker.flushes
              else f in s.worker.flushes && s.worker.flushes[f] == fl.(next := fl.next + 1)
    {
      var d := DueDelivery(s.worker, f);
      Invariant();
      assert FlushOk(s.store.payloads, s.worker, s.worker.flushes[f]);
      if d.count < MAX_RETRIES {
        Do(Nak(f));
        return false;
      }
      Interfere(f, env);
      Invariant();
      assert FlushOk(s.store.payloads, s.worker, s.worker.flushes[f]) && d in s.worker.flushes[f].batch;
      if dlq(d).Failure? {
        Do(DlqFail(f, dlq(d).tookEffect));
        return true;
      }
      Do(DlqOk(f));
      return false;
    }

    /** The batch failed: each message is handled by itself, until a dead-letter publish throws. */
    method HandleEach(f: nat, batch: seq<Delivery>, dlq: Delivery -> Outcome, env: nat -> seq<Action>)
      returns (threw: bool)
      requires Valid() && f in s.worker.flushes && s.worker.flushes[f] == Resolving(batch, 0) && batch != []
      modifies this
      ensures Valid() && Later(old(s).store, s.store) && f !in s.worker.flushes
      ensures !threw ==> forall d | d in batch && d.count >= 3 :: HasResolved(s.store, d)
      ensures threw ==> exists d :: d in batch && d.count >= 3 && dlq(d).Failure?
    {
      for i := 0 to |batch|
        invariant Valid() && Later(old(s).store, s.store)
        invariant i < |batch| ==> f in s.worker.flushes && s.worker.flushes[f] == Resolving(batch, i)
        invariant i == |batch| ==> f !in s.worker.flushes
        invariant forall k | 0 <= k < i && batch[k].count >= 3 :: HasResolved(s.store, batch[k])
      {
        ghost var was := s.store;
        threw := HandleOne(f, dlq, env(i + 1));
        StillLater(old(s).store, was, s.store);
        if threw {
          assert batch[i] in batch;
          return true;
        }
        forall k | 0 <= k < i && batch[k].count >= 3 ensures HasResolved(s.store, batch[k]) {
          assert HasResolved(was, batch[k]);
        }
      }
      return false;
    }

    /**
     The body of `flush` once the batch has been spliced. On success every message of the
     batch is resolved and its row stored; on failure every message that had used up its
     retries is resolved, unless a dead-letter publish threw and ended the call.
     */
    method RunFlush(f: nat, insert: Outcome, dlq: Delivery -> Outcome, env: nat -> seq<Action>)
      returns (threw: bool)
      requires Valid() && f in s.worker.flushes && s.worker.flushes[f].Inserting?
      modifies this
      ensures Valid() && Later(old(s).store, s.store)
      ensures f !in s.worker.flushes
      ensures insert.Success? ==> !threw && forall d | d in old(s).worker.flushes[f].batch ::
                HasResolved(s.store, d) && HasRow(s.store, d.msg)
      ensures var batch := old(s).worker.flushes[f].batch;
              !threw ==> forall d | d in batch && d.count >= 3 :: HasResolved(s.store, d)
      ensures var batch := old(s).worker.flushes[f].batch;
              threw ==> exists d :: d in batch && d.count >= 3 && dlq(d).Failure?
    {
      var batch := s.worker.flushes[f].batch;
      Interfere(f, env(0));
      Invariant();
      assert FlushOk(s.store.payloads, s.worker, s.worker.flushes[f]);
      if insert.Success? {
        Complete(f);
        threw := false;
      } else {
        Do(InsertFail(f, insert.tookEffect));
        threw := HandleEach(f, batch, dlq, env);
      }
    }

    /** `flush` as the timer and the shutdown hook call it. */
    method FlushBuffer(f: nat, insert: Outcome, dlq: Delivery -> Outcome, env: nat -> seq<Action>)
      returns (threw: bool)
      requires Valid() && f !in s.worker.flushes
      modifies this
      ensures Valid() && Later(old(s).store, s.store)
      ensures old(s).worker.buffer == [] ==> s == old(s) && !threw
      ensures insert.Success? ==> !threw && forall d | d in old(s).worker.buffer ::
                HasResolved(s.store, d) && HasRow(s.store, d.msg)
      ensures !threw ==> forall d | d in old(s).worker.buffer && d.count >= 3 :: HasResolved(s.store, d)
      ensures threw ==> exists d :: d in old(s).worker.buffer && d.count >= 3 && dlq(d).Failure?
    {
      if s.worker.buffer == [] {
        return false;
      }
      Do(TimerFlush(f));
      threw := RunFlush(f, insert, dlq, env);
    }

    /**
     One iteration of the consume loop for message m. A message that does not parse is
     dead-lettered at once, and the loop ends when that throws. Any other joins the buffer;
     when that is full it is flushed, and what the iteration promises is what the flush does.
     */
    method OnMessage(m: nat, f: nat, insert: Outcome, dlq: Delivery -> Outcome, env: nat -> seq<Action>)
      returns (threw: bool)
      requires Valid() && Enabled(s, Deliver(m, f))
      modifies this
      ensures Valid() && Later(old(s).store, s.store)
      ensures var d := Delivery(m, old(s).store.status[m].deliveries + 1);
              old(s).store.payloads[m].Malformed? ==>
                && (threw <==> dlq(d).Failure?)
                && (if threw then s.worker.loop == Stopped else s.store.status[m] == Termed && HasLetter(s.store, m))
      ensures var d, w := Delivery(m, old(s).store.status[m].deliveries + 1), old(s).worker;
              old(s).store.payloads[m].Event? && |w.buffer| + 1 < 50 ==>
                !threw && s.worker.buffer == w.buffer + [d]
      ensures var batch := old(s).worker.buffer + [Delivery(m, old(s).store.status[m].deliveries + 1)];
              old(s).store.payloads[m].Event? && |batch| >= 50 ==>
                && (insert.Success? ==>
                      !threw && forall d | d in batch :: HasResolved(s.store, d) && HasRow(s.store, d.msg))
                && (!threw ==> forall d | d in batch && d.count >= 3 :: HasResolved(s.store, d))
                && (threw ==> exists d :: d in batch && d.count >= 3 && dlq(d).Failure?)
    {
      var d := Delivery(m, s.store.status[m].deliveries + 1);
      Do(Deliver(m, f));
      if s.store.payloads[m].Malformed? {
        if dlq(d).Failure? {
          Do(DiscardFail(dlq(d).tookEffect));
          return true;
        }
        Do(DiscardOk);
        Invariant();
        assert Safe(s.store, m);
        return false;
      }
      if f in s.worker.flushes {
        ghost var batch := s.worker.flushes[f].batch;
        assert batch == old(s).worker.buffer + [d];
        threw := RunFlush(f, insert, dlq, env);
      } else {
        threw := false;
      }
    }
  }
}

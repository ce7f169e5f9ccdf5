/**
 The audit consumer between the message stream, the audit table and the dead-letter
 queue, as a state machine whose steps are separated by the consumer's awaits: messages
 arrive, the buffer is flushed by size or by timer, inserts and dead-letter publishes
 succeed or fail (a failed one may still have taken effect), several flushes are in
 flight at once, messages are redelivered, and the process may restart at any point,
 also between two acknowledgements of a batch.
 */
module AuditPipeline {
  import opened Wrappers
  import opened AuditInsert

  const BATCH_SIZE: nat := 50
  const MAX_RETRIES: nat := 3
  const MAX_DELIVER: nat := MAX_RETRIES + 1

  /** What was published: JSON that parses to an event, or bytes that do not parse. */
  datatype Payload = Event(event: AuditEvent) | Malformed

  /** What the stream knows of a message; Owned messages are still the stream's to deliver. */
  datatype Status = Owned(deliveries: nat) | Acked | Termed

  datatype Delivery = Delivery(msg: nat, count: nat)

  datatype DeadLetter = DeadLetter(msg: nat, payload: Option<AuditEvent>, retryCount: nat)

  /** The durable side: the stream, the audit table and the dead-letter queue. */
  datatype Store = Store(
    payloads: map<nat, Payload>,
    status: map<nat, Status>,
    table: seq<AuditEvent>,
    dlq: seq<DeadLetter>)

  datatype Flush = Inserting(batch: seq<Delivery>) | Resolving(batch: seq<Delivery>, next: nat)

  /** The consume loop: ready for the next message, waiting on a flush or on a publish, or ended by an error. */
  datatype Loop = Idle | Flushing(f: nat) | Discarding(d: Delivery) | Stopped

  /** The process: its buffer, its flushes in flight, and a record of its pushes and splices. */
  datatype Worker = Worker(
    buffer: seq<Delivery>,
    flushes: map<nat, Flush>,
    loop: Loop,
    received: seq<Delivery>,
    taken: seq<seq<Delivery>>)

  datatype State = State(store: Store, worker: Worker)

  datatype Action =
    | Publish(m: nat, p: Payload)
    | Deliver(m: nat, f: nat)        // f names the flush, should this message fill the buffer
    | TimerFlush(f: nat)
    | InsertOk(f: nat)
    | InsertFail(f: nat, committed: bool)
    | Nak(f: nat)
    | DlqOk(f: nat)
    | DlqFail(f: nat, stored: bool)
    | DiscardOk
    | DiscardFail(stored: bool)
    | Restart
    | CrashAcking(f: nat, n: nat)    // the insert succeeds; the process dies after n acknowledgements

  const FRESH: Worker := Worker([], map[], Idle, [], [])
  const INIT: State := State(Store(map[], map[], [], []), FRESH)

  // ------------------------------------------------- steps on the durable side

  predicate Known(st: Store, batch: seq<Delivery>) {
    forall d | d in batch :: d.msg in st.payloads && st.payloads[d.msg].Event?
  }

  function EventsOf(st: Store, batch: seq<Delivery>): seq<AuditEvent>
    requires Known(st, batch)
  {
    seq(|batch|, i requires 0 <= i < |batch| => st.payloads[batch[i].msg].event)
  }

  /** Only the first resolution of a message counts. */
  function Resolved(status: map<nat, Status>, m: nat, to: Status): map<nat, Status> {
    if m in status && status[m].Owned? then status[m := to] else status
  }

  function AckAll(status: map<nat, Status>, batch: seq<Delivery>): map<nat, Status> {
    if batch == [] then status else AckAll(Resolved(status, batch[0].msg, Acked), batch[1..])
  }

  function Stored(st: Store, batch: seq<Delivery>): Store
    requires Known(st, batch)
  {
    st.(table := Inserted(st.table, EventsOf(st, batch)))
  }

  function Acknowledged(st: Store, batch: seq<Delivery>): Store {
    st.(status := AckAll(st.status, batch))
  }

  function DeadLettered(st: Store, d: Delivery): Store
    requires d.msg in st.payloads
  {
    var p := st.payloads[d.msg];
    st.(dlq := st.dlq + [DeadLetter(d.msg, if p.Event? then Some(p.event) else None, d.count)])
  }

  function Terminated(st: Store, m: nat): Store {
    st.(status := Resolved(st.status, m, Termed))
  }

  // --------------------------------------------------- steps of the process

  /** `splice` the whole buffer into a new flush. */
  function Spliced(w: Worker, f: nat): Worker {
    w.(flushes := w.flushes[f := Inserting(w.buffer)], buffer := [], taken := w.taken + [w.buffer])
  }

  /** Push one delivery; at BATCH_SIZE the consume loop flushes at once and waits. */
  function Pushed(w: Worker, d: Delivery, f: nat): Worker {
    var w1 := w.(buffer := w.buffer + [d], received := w.received + [d]);
    if |w1.buffer| >= BATCH_SIZE then Spliced(w1, f).(loop := Flushing(f)) else w1
  }

  /** A flush that has returned; the consume loop goes on as `loop` if it was waiting for it. */
  function Finished(w: Worker, f: nat, loop: Loop): Worker {
    w.(flushes := w.flushes - {f}, loop := if w.loop == Flushing(f) then loop else w.loop)
  }

  function Failing(w: Worker, f: nat): Worker
    requires f in w.flushes
  {
    w.(flushes := w.flushes[f := Resolving(w.flushes[f].batch, 0)])
  }

  predicate Due(w: Worker, f: nat) {
    f in w.flushes && w.flushes[f].Resolving? && w.flushes[f].next < |w.flushes[f].batch|
  }

  function DueDelivery(w: Worker, f: nat): Delivery
    requires Due(w, f)
  {
    w.flushes[f].batch[w.flushes[f].next]
  }

  /** The failing flush moves to its next message, or returns after the last. */
  function Advanced(w: Worker, f: nat): Worker
    requires Due(w, f)
  {
    var fl := w.flushes[f];
    if fl.next + 1 < |fl.batch| then w.(flushes := w.flushes[f := fl.(next := fl.next + 1)])
    else Finished(w, f, Idle)
  }

  predicate Enabled(s: State, a: Action) {
    var st, w := s.store, s.worker;
    match a
    case Publish(m, _) => m !in st.payloads
    case Deliver(m, f) =>
      && w.loop == Idle && f !in w.flushes
      && m in st.payloads && m in st.status && st.status[m].Owned? && st.status[m].deliveries < MAX_DELIVER
    case TimerFlush(f) => w.buffer != [] && f !in w.flushes
    case InsertOk(f) => f in w.flushes && w.flushes[f].Inserting? && Known(st, w.flushes[f].batch)
    case InsertFail(f, _) => f in w.flushes && w.flushes[f].Inserting? && Known(st, w.flushes[f].batch)
    case Nak(f) => Due(w, f) && DueDelivery(w, f).count < MAX_RETRIES
    case DlqOk(f) => Due(w, f) && DueDelivery(w, f).count >= MAX_RETRIES && DueDelivery(w, f).msg in st.payloads
    case DlqFail(f, _) => Due(w, f) && DueDelivery(w, f).count >= MAX_RETRIES && DueDelivery(w, f).msg in st.payloads
    case DiscardOk => w.loop.Discarding? && w.loop.d.msg in st.payloads
    case DiscardFail(_) => w.loop.Discarding? && w.loop.d.msg in st.payloads
    case Restart => true
    case CrashAcking(f, n) =>
      f in w.flushes && w.flushes[f].Inserting? && Known(st, w.flushes[f].batch) && n <= |w.flushes[f].batch|
  }

  function Step(s: State, a: Action): State
    requires Enabled(s, a)
  {
    var st, w := s.store, s.worker;
    match a
    case Publish(m, p) =>
      State(st.(payloads := st.payloads[m := p], status := st.status[m := Owned(0)]), w)
    case Deliver(m, f) =>
      var d := Delivery(m, st.status[m].deliveries + 1);
      State(st.(status := st.status[m := Owned(d.count)]),
            if st.payloads[m].Event? then Pushed(w, d, f) else w.(loop := Discarding(d)))
    case TimerFlush(f) => State(st, Spliced(w, f))
    case InsertOk(f) =>
      var batch := w.flushes[f].batch;
      State(Acknowledged(Stored(st, batch), batch), Finished(w, f, Idle))
    case InsertFail(f, committed) =>
      State(if committed then Stored(st, w.flushes[f].batch) else st, Failing(w, f))
    case Nak(f) => State(st, Advanced(w, f))
    case DlqOk(f) =>
      var d := DueDelivery(w, f);
      State(Terminated(DeadLettered(st, d), d.msg), Advanced(w, f))
    case DlqFail(f, stored) =>
      State(if stored then DeadLettered(st, DueDelivery(w, f)) else st, Finished(w, f, Stopped))
    case DiscardOk => State(Terminated(DeadLettered(st, w.loop.d), w.loop.d.msg), w.(loop := Idle))
    case DiscardFail(stored) =>
      State(if stored then DeadLettered(st, w.loop.d) else st, w.(loop := Stopped))
    case Restart => State(st, FRESH)
    case CrashAcking(f, n) =>
      var batch := w.flushes[f].batch;
      State(Acknowledged(Stored(st, batch), batch[..n]), FRESH)
  }

  /** The state after a run, or None when some step of it cannot happen. */
  function Exec(s: State, run: seq<Action>): Option<State>
    decreases |run|
  {
    if run == [] then Some(s)
    else if !Enabled(s, run[0]) then None
    else Exec(Step(s, run[0]), run[1..])
  }

  // ---------------------------------------------------------------- invariants

  ghost predicate HasLetter(st: Store, m: nat)
    requires m in st.payloads
  {
    exists i :: 0 <= i < |st.dlq| && LetterFor(st.payloads[m], st.dlq[i], m)
  }

  ghost predicate LetterFor(p: Payload, letter: DeadLetter, m: nat) {
    && letter.msg == m && 1 <= letter.retryCount <= MAX_DELIVER
    && letter.payload == (if p.Event? then Some(p.event) else None)
    && (p.Event? ==> letter.retryCount >= MAX_RETRIES)
  }

  /** Acknowledged messages are stored, terminated ones are in the dead-letter queue, the rest are the stream's. */
  ghost predicate Safe(st: Store, m: nat)
    requires m in st.status && m in st.payloads
  {
    match st.status[m]
    case Owned(n) => n <= MAX_DELIVER
    case Acked => st.payloads[m].Event? && HasKey(st.table, Key(st.payloads[m].event))
    case Termed => HasLetter(st, m)
  }

  ghost predicate Published(st: Store, e: AuditEvent) {
    exists m :: m in st.payloads && st.payloads[m] == Event(e)
  }

  ghost predicate StoreOk(st: Store) {
    && st.status.Keys == st.payloads.Keys
    && (forall m | m in st.status :: Safe(st, m))
    && UniqueKeys(st.table)
    && (forall e | e in st.table :: Published(st, e))
  }

  ghost function Flatten(batches: seq<seq<Delivery>>): seq<Delivery> {
    if batches == [] then [] else Flatten(batches[..|batches| - 1]) + batches[|batches| - 1]
  }

  ghost predicate DeliveryOk(payloads: map<nat, Payload>, d: Delivery) {
    d.msg in payloads && payloads[d.msg].Event? && 1 <= d.count <= MAX_DELIVER
  }

  ghost predicate ToDiscard(payloads: map<nat, Payload>, d: Delivery) {
    d.msg in payloads && payloads[d.msg].Malformed? && 1 <= d.count <= MAX_DELIVER
  }

  ghost predicate SizeOk(batch: seq<Delivery>) {
    1 <= |batch| <= BATCH_SIZE
  }

  ghost predicate FlushOk(payloads: map<nat, Payload>, w: Worker, fl: Flush) {
    && SizeOk(fl.batch) && fl.batch in w.taken
    && (forall d | d in fl.batch :: DeliveryOk(payloads, d))
    && (fl.Resolving? ==> fl.next < |fl.batch|)
  }

  ghost predicate WorkerOk(payloads: map<nat, Payload>, w: Worker) {
    |w.buffer| < BATCH_SIZE && Accounted(payloads, w)
  }

  /** Every delivery received is in a batch taken or in the buffer, however full that is. */
  ghost predicate Accounted(payloads: map<nat, Payload>, w: Worker) {
    && (forall d | d in w.buffer :: DeliveryOk(payloads, d))
    && (forall f | f in w.flushes :: FlushOk(payloads, w, w.flushes[f]))
    && (forall batch | batch in w.taken :: SizeOk(batch))
    && (w.loop.Discarding? ==> ToDiscard(payloads, w.loop.d))
    && w.received == Flatten(w.taken) + w.buffer
  }

  ghost predicate Inv(s: State) {
    StoreOk(s.store) && WorkerOk(s.store.payloads, s.worker)
  }

  lemma {:induction false} AckAllStatus(status: map<nat, Status>, batch: seq<Delivery>, m: nat)
    ensures AckAll(status, batch).Keys == status.Keys
    ensures m in status ==>
              (AckAll(status, batch)[m] ==
               if status[m].Owned? && (exists i :: 0 <= i < |batch| && batch[i].msg == m) then Acked else status[m])
    decreases |batch|
  {
    if batch != [] {
      AckAllStatus(Resolved(status, batch[0].msg, Acked), batch[1..], m);
      if i :| 0 <= i < |batch| && batch[i].msg == m {
        assert i > 0 ==> batch[1..][i - 1].msg == m;
      }
      if i :| 0 <= i < |batch[1..]| && batch[1..][i].msg == m {
        assert batch[i + 1].msg == m;
      }
    }
  }

  /** Nothing that makes a message safe is ever taken away. */
  lemma SafeKept(st: Store, st': Store, m: nat)
    requires m in st.status && m in st.payloads && m in st'.status && m in st'.payloads
    requires Safe(st, m) && st'.status[m] == st.status[m] && st'.payloads[m] == st.payloads[m]
    requires st.table <= st'.table && st.dlq <= st'.dlq
    ensures Safe(st', m)
  {
    if st.status[m].Acked? {
      KeysKept(st.table, st'.table, Key(st.payloads[m].event));
    }
  }

  lemma PublishOk(st: Store, m: nat, p: Payload)
    requires StoreOk(st) && m !in st.payloads
    ensures StoreOk(st.(payloads := st.payloads[m := p], status := st.status[m := Owned(0)]))
  {
    var st' := st.(payloads := st.payloads[m := p], status := st.status[m := Owned(0)]);
    forall k | k in st'.status ensures Safe(st', k) {
      if k != m { SafeKept(st, st', k); }
    }
    forall e | e in st'.table ensures Published(st', e) {
      var k :| k in st.payloads && st.payloads[k] == Event(e);
      assert st'.payloads[k] == Event(e);
    }
  }

  lemma StoredOk(st: Store, batch: seq<Delivery>)
    requires StoreOk(st) && Known(st, batch)
    ensures StoreOk(Stored(st, batch))
    ensures forall d | d in batch :: HasKey(Stored(st, batch).table, Key(st.payloads[d.msg].event))
  {
    var st', events := Stored(st, batch), EventsOf(st, batch);
    InsertedKeys(st.table, events);
    forall e | e in st'.table ensures Published(st', e) {
      if e in st.table {
        assert Published(st, e);
      } else {
        var i :| 0 <= i < |events| && events[i] == e;
        assert batch[i] in batch && st.payloads[batch[i].msg] == Event(e);
      }
    }
    forall d | d in batch ensures HasKey(st'.table, Key(st.payloads[d.msg].event)) {
      var i :| 0 <= i < |batch| && batch[i] == d;
      assert events[i] == st.payloads[d.msg].event;
    }
    forall m | m in st'.status ensures Safe(st', m) { SafeKept(st, st', m); }
  }

  lemma AcknowledgedOk(st: Store, batch: seq<Delivery>)
    requires StoreOk(st) && Known(st, batch)
    requires forall d | d in batch :: HasKey(st.table, Key(st.payloads[d.msg].event))
    ensures StoreOk(Acknowledged(st, batch))
  {
    var st' := Acknowledged(st, batch);
    AckAllStatus(st.status, batch, 0);
    forall m | m in st'.status ensures Safe(st', m) {
      AckAllStatus(st.status, batch, m);
      assert Safe(st, m);
      if st'.status[m] != st.status[m] {
        var i :| 0 <= i < |batch| && batch[i].msg == m;
        assert batch[i] in batch;
      }
    }
    forall e | e in st'.table ensures Published(st', e) { assert Published(st, e); }
  }

  lemma DeadLetteredOk(st: Store, d: Delivery)
    requires StoreOk(st) && d.msg in st.payloads && 1 <= d.count <= MAX_DELIVER
    requires st.payloads[d.msg].Event? ==> d.count >= MAX_RETRIES
    ensures StoreOk(DeadLettered(st, d)) && HasLetter(DeadLettered(st, d), d.msg)
    ensures StoreOk(Terminated(DeadLettered(st, d), d.msg))
  {
    var st1 := DeadLettered(st, d);
    var st2 := Terminated(st1, d.msg);
    assert LetterFor(st.payloads[d.msg], st1.dlq[|st.dlq|], d.msg);
    forall m | m in st.status ensures Safe(st1, m) && Safe(st2, m) {
      SafeKept(st, st1, m);
    }
    forall e | e in st.table ensures Published(st1, e) && Published(st2, e) { assert Published(st, e); }
  }

  lemma DeliveredOk(st: Store, m: nat)
    requires StoreOk(st) && m in st.status && st.status[m].Owned? && st.status[m].deliveries < MAX_DELIVER
    ensures StoreOk(st.(status := st.status[m := Owned(st.status[m].deliveries + 1)]))
  {
    var st' := st.(status := st.status[m := Owned(st.status[m].deliveries + 1)]);
    forall k | k in st'.status ensures Safe(st', k) {
      if k != m { SafeKept(st, st', k); }
    }
    forall e | e in st'.table ensures Published(st', e) { assert Published(st, e); }
  }

  lemma SplicedOk(payloads: map<nat, Payload>, w: Worker, f: nat)
    requires 1 <= |w.buffer| <= BATCH_SIZE && f !in w.flushes && Accounted(payloads, w)
    ensures WorkerOk(payloads, Spliced(w, f))
  {
    var w' := Spliced(w, f);
    assert w'.taken[..|w.taken|] == w.taken && w'.taken[|w.taken|] == w.buffer;
    assert Flatten(w'.taken) == w.received;
    forall g | g in w'.flushes ensures FlushOk(payloads, w', w'.flushes[g]) {
      if g != f { assert FlushOk(payloads, w, w.flushes[g]); }
    }
  }

  lemma BufferedOk(payloads: map<nat, Payload>, w: Worker, d: Delivery)
    requires WorkerOk(payloads, w) && DeliveryOk(payloads, d)
    ensures Accounted(payloads, w.(buffer := w.buffer + [d], received := w.received + [d]))
  {
    var w1 := w.(buffer := w.buffer + [d], received := w.received + [d]);
    assert w1.received == Flatten(w1.taken) + w1.buffer;
    forall g | g in w1.flushes ensures FlushOk(payloads, w1, w1.flushes[g]) {
      assert FlushOk(payloads, w, w.flushes[g]);
    }
  }

  lemma PushedOk(payloads: map<nat, Payload>, w: Worker, d: Delivery, f: nat)
    requires WorkerOk(payloads, w) && DeliveryOk(payloads, d) && f !in w.flushes
    ensures WorkerOk(payloads, Pushed(w, d, f))
  {
    var w1 := w.(buffer := w.buffer + [d], received := w.received + [d]);
    BufferedOk(payloads, w, d);
    if |w1.buffer| >= BATCH_SIZE {
      SplicedOk(payloads, w1, f);
      FlushesKept(payloads, Spliced(w1, f), Spliced(w1, f).(loop := Flushing(f)));
    }
  }

  /** The process invariant survives any change that only drops or advances flushes, or moves the loop. */
  lemma FlushesKept(payloads: map<nat, Payload>, w: Worker, w': Worker)
    requires WorkerOk(payloads, w)
    requires w'.buffer == w.buffer && w'.received == w.received && w'.taken == w.taken
    requires w'.loop.Discarding? ==> ToDiscard(payloads, w'.loop.d)
    requires forall g | g in w'.flushes :: g in w.flushes && w'.flushes[g].batch == w.flushes[g].batch
    requires forall g | g in w'.flushes && w'.flushes[g].Resolving? :: w'.flushes[g].next < |w'.flushes[g].batch|
    ensures WorkerOk(payloads, w')
  {
    forall g | g in w'.flushes ensures FlushOk(payloads, w', w'.flushes[g]) {
      assert FlushOk(payloads, w, w.flushes[g]);
    }
  }

  lemma MorePayloads(payloads: map<nat, Payload>, w: Worker, m: nat, p: Payload)
    requires WorkerOk(payloads, w) && m !in payloads
    ensures WorkerOk(payloads[m := p], w)
  {
    forall g | g in w.flushes ensures FlushOk(payloads[m := p], w, w.flushes[g]) {
      assert FlushOk(payloads, w, w.flushes[g]);
      forall d | d in w.flushes[g].batch ensures DeliveryOk(payloads[m := p], d) {
        assert DeliveryOk(payloads, d);
      }
    }
    forall d | d in w.buffer ensures DeliveryOk(payloads[m := p], d) {
      assert DeliveryOk(payloads, d);
    }
  }

  lemma DueOk(s: State, f: nat)
    requires Inv(s) && Due(s.worker, f)
    ensures DeliveryOk(s.store.payloads, DueDelivery(s.worker, f))
  {
    assert FlushOk(s.store.payloads, s.worker, s.worker.flushes[f]);
  }

  lemma StepKeepsStore(s: State, a: Action)
    requires Inv(s) && Enabled(s, a)
    ensures StoreOk(Step(s, a).store)
  {
    var st, w := s.store, s.worker;
    match a
    case Publish(m, p) => PublishOk(st, m, p);
    case Deliver(m, f) => DeliveredOk(st, m);
    case InsertOk(f) =>
      StoredOk(st, w.flushes[f].batch);
      AcknowledgedOk(Stored(st, w.flushes[f].batch), w.flushes[f].batch);
    case InsertFail(f, committed) =>
      StoredOk(st, w.flushes[f].batch);
    case DlqOk(f) => DueOk(s, f); DeadLetteredOk(st, DueDelivery(w, f));
    case DlqFail(f, _) => DueOk(s, f); DeadLetteredOk(st, DueDelivery(w, f));
    case DiscardOk => DeadLetteredOk(st, w.loop.d);
    case DiscardFail(_) => DeadLetteredOk(st, w.loop.d);
    case CrashAcking(f, n) =>
      StoredOk(st, w.flushes[f].batch);
      AcknowledgedOk(Stored(st, w.flushes[f].batch), w.flushes[f].batch[..n]);
    case TimerFlush(_) =>
    case Nak(_) =>
    case Restart =>
  }

  lemma DeliverKeepsWorker(s: State, m: nat, f: nat)
    requires Inv(s) && Enabled(s, Deliver(m, f))
    ensures WorkerOk(Step(s, Deliver(m, f)).store.payloads, Step(s, Deliver(m, f)).worker)
  {
    var st, w := s.store, s.worker;
    assert Safe(st, m);
    if st.payloads[m].Event? {
      PushedOk(st.payloads, w, Delivery(m, st.status[m].deliveries + 1), f);
    } else {
      FlushesKept(st.payloads, w, Step(s, Deliver(m, f)).worker);
    }
  }

  lemma StepKeepsWorker(s: State, a: Action)
    requires Inv(s) && Enabled(s, a)
    ensures WorkerOk(Step(s, a).store.payloads, Step(s, a).worker)
  {
    var st, w := s.store, s.worker;
    match a
    case Publish(m, p) => MorePayloads(st.payloads, w, m, p);
    case Deliver(m, f) => DeliverKeepsWorker(s, m, f);
    case TimerFlush(f) => SplicedOk(st.payloads, w, f);
    case InsertFail(f, _) =>
      assert FlushOk(st.payloads, w, w.flushes[f]);
      FlushesKept(st.payloads, w, Failing(w, f));
    case Restart => assert FRESH.received == Flatten(FRESH.taken) + FRESH.buffer;
    case CrashAcking(_, _) => assert FRESH.received == Flatten(FRESH.taken) + FRESH.buffer;
    case InsertOk(f) => FlushesKept(st.payloads, w, Finished(w, f, Idle));
    case Nak(f) => FlushesKept(st.payloads, w, Advanced(w, f));
    case DlqOk(f) => FlushesKept(st.payloads, w, Advanced(w, f));
    case DlqFail(f, _) => FlushesKept(st.payloads, w, Finished(w, f, Stopped));
    case DiscardOk => FlushesKept(st.payloads, w, w.(loop := Idle));
    case DiscardFail(_) => FlushesKept(st.payloads, w, w.(loop := Stopped));
  }

  lemma {:induction false} ExecInv(s: State, run: seq<Action>)
    requires Inv(s) && Exec(s, run).Some?
    ensures Inv(Exec(s, run).value)
    decreases |run|
  {
    if run != [] {
      StepKeepsStore(s, run[0]);
      StepKeepsWorker(s, run[0]);
      ExecInv(Step(s, run[0]), run[1..]);
    }
  }

  // ------------------------------------------------------------------ theorems

  /**
   No audit message is ever lost: after every run, a message that was published is still
   owned by the stream, delivered at most four times; or acknowledged, with a row in the table
   that has its id and its creation time; or terminated, with its own entry in the
   dead-letter queue.
   */
  lemma NothingLost(run: seq<Action>, m: nat)
    requires Exec(INIT, run).Some? && m in Exec(INIT, run).value.store.payloads
    ensures var st := Exec(INIT, run).value.store;
            && m in st.status
            && match st.status[m] {
                 case Owned(n) => n <= 4
                 case Acked =>
                   && st.payloads[m].Event?
                   && var e := st.payloads[m].event;
                   exists i :: 0 <= i < |st.table| && st.table[i].id == e.id && st.table[i].createdAt == e.createdAt
                 case Termed =>
                   exists i :: 0 <= i < |st.dlq| && st.dlq[i].msg == m
                               && match st.payloads[m] {
                                    case Event(e) => st.dlq[i].payload == Some(e) && st.dlq[i].retryCount in {3, 4}
                                    case Malformed => st.dlq[i].payload == None && 1 <= st.dlq[i].retryCount <= 4
                                  }
               }
  {
    InitInv();
    ExecInv(INIT, run);
    var st := Exec(INIT, run).value.store;
    assert Safe(st, m);
    if st.status[m].Acked? {
      var e := st.payloads[m].event;
      var i :| 0 <= i < |st.table| && Key(st.table[i]) == Key(e);
      assert st.table[i].id == e.id && st.table[i].createdAt == e.createdAt;
    }
  }

  lemma InitInv()
    ensures Inv(INIT)
  {
    assert FRESH.received == Flatten(FRESH.taken) + FRESH.buffer;
  }

  /** No two rows agree in both id and creation time, and every row is that of a published event. */
  lemma RowsAreUniqueAndGenuine(run: seq<Action>)
    requires Exec(INIT, run).Some?
    ensures var st := Exec(INIT, run).value.store;
            && (forall i, j | 0 <= i < j < |st.table| ::
                  st.table[i].id != st.table[j].id || st.table[i].createdAt != st.table[j].createdAt)
            && forall e | e in st.table :: exists m :: m in st.payloads && st.payloads[m] == Event(e)
  {
    InitInv();
    ExecInv(INIT, run);
    var st := Exec(INIT, run).value.store;
    forall i, j | 0 <= i < j < |st.table|
      ensures st.table[i].id != st.table[j].id || st.table[i].createdAt != st.table[j].createdAt
    {
      assert Key(st.table[i]) != Key(st.table[j]);
    }
    forall e | e in st.table ensures exists m :: m in st.payloads && st.payloads[m] == Event(e) {
      assert Published(st, e);
    }
  }

  /**
   The deliveries a process has pushed are, in order, those of the batches it has taken
   followed by its buffer: each joins exactly one batch. No batch exceeds fifty, and between
   steps the buffer is below that.
   */
  lemma EachDeliveryJoinsOneBatch(run: seq<Action>)
    requires Exec(INIT, run).Some?
    ensures var w := Exec(INIT, run).value.worker;
            && w.received == Flatten(w.taken) + w.buffer
            && |w.buffer| < 50
            && (forall batch | batch in w.taken :: 1 <= |batch| <= 50)
            && forall f | f in w.flushes :: w.flushes[f].batch in w.taken
  {
    InitInv();
    ExecInv(INIT, run);
    var w := Exec(INIT, run).value.worker;
    assert forall f | f in w.flushes :: FlushOk(Exec(INIT, run).value.store.payloads, w, w.flushes[f]);
  }

  /** Rows and dead letters have only been appended, no payload has changed, and every resolution stands. */
  ghost predicate Later(st: Store, st': Store) {
    && st.table <= st'.table && st.dlq <= st'.dlq
    && (forall m | m in st.payloads :: m in st'.payloads && st'.payloads[m] == st.payloads[m])
    && (forall m | m in st.status :: m in st'.status && (!st.status[m].Owned? ==> st'.status[m] == st.status[m]))
  }

  lemma StepLater(s: State, a: Action)
    requires Inv(s) && Enabled(s, a)
    ensures Later(s.store, Step(s, a).store)
  {
    if a.InsertOk? || a.CrashAcking? {
      var batch := s.worker.flushes[a.f].batch;
      forall m | m in s.store.status
        ensures m in Step(s, a).store.status
        ensures !s.store.status[m].Owned? ==> Step(s, a).store.status[m] == s.store.status[m]
      {
        AckAllStatus(s.store.status, if a.InsertOk? then batch else batch[..a.n], m);
      }
    }
  }

  lemma {:induction false} ResolutionIsFinal(s: State, run: seq<Action>)
    requires Inv(s) && Exec(s, run).Some?
    ensures Later(s.store, Exec(s, run).value.store)
    decreases |run|
  {
    if run != [] {
      StepKeepsStore(s, run[0]);
      StepKeepsWorker(s, run[0]);
      StepLater(s, run[0]);
      ResolutionIsFinal(Step(s, run[0]), run[1..]);
    }
  }

  // ------------------------------------------------- messages nobody will retry

  /** A flush still has d to deal with. */
  ghost predicate InFlush(fl: Flush, d: Delivery) {
    exists i :: 0 <= i < |fl.batch| && fl.batch[i] == d && (fl.Resolving? ==> fl.next <= i)
  }

  /** The process still has d to deal with: buffered, in a flush, or about to be discarded. */
  ghost predicate Held(w: Worker, d: Delivery) {
    d in w.buffer || (exists f :: f in w.flushes && InFlush(w.flushes[f], d)) || w.loop == Discarding(d)
  }

  ghost predicate OwnedIn(st: Store, m: nat) {
    m in st.status && st.status[m].Owned?
  }

  /** The stream has used up its deliveries of m and the process holds none of them. */
  ghost predicate Exhausted(s: State, m: nat) {
    && m in s.store.status && s.store.status[m] == Owned(MAX_DELIVER)
    && forall d | Held(s.worker, d) :: d.msg != m
  }

  /** The deliveries held are among those that the stream has counted. */
  ghost predicate Counted(s: State) {
    forall d | Held(s.worker, d) ::
      && d.msg in s.store.status && 1 <= d.count
      && (s.store.status[d.msg].Owned? ==> d.count <= s.store.status[d.msg].deliveries)
  }

  /** The step lets go of d although the stream still owns its message. */
  ghost predicate Drops(s: State, a: Action, d: Delivery)
    requires Enabled(s, a)
  {
    Held(s.worker, d) && !Held(Step(s, a).worker, d) && OwnedIn(Step(s, a).store, d.msg)
  }

  /** Some step of the run drops d. */
  ghost predicate DropsIn(s: State, run: seq<Action>, d: Delivery)
    decreases |run|
  {
    run != [] && Enabled(s, run[0]) && (Drops(s, run[0], d) || DropsIn(Step(s, run[0]), run[1..], d))
  }

  /** d was handed out, is not held any more, and did not resolve its message. */
  ghost predicate Gone(s: State, d: Delivery) {
    OwnedIn(s.store, d.msg) && d.count <= s.store.status[d.msg].deliveries && !Held(s.worker, d)
  }

  /** The process ends, or a dead-letter publish throws. */
  predicate Fault(a: Action) {
    a.Restart? || a.CrashAcking? || a.DlqFail? || a.DiscardFail?
  }

  lemma HeldSpliced(w: Worker, f: nat, d: Delivery)
    requires f !in w.flushes
    ensures Held(Spliced(w, f), d) <==> Held(w, d)
  {
    var w' := Spliced(w, f);
    forall g | g in w.flushes ensures g in w'.flushes && w'.flushes[g] == w.flushes[g] {}
    if d in w.buffer {
      var i :| 0 <= i < |w.buffer| && w.buffer[i] == d;
      assert InFlush(w'.flushes[f], d);
    }
  }

  lemma HeldPushed(w: Worker, e: Delivery, f: nat, d: Delivery)
    requires f !in w.flushes && w.loop == Idle
    ensures Held(Pushed(w, e, f), d) <==> Held(w, d) || d == e
  {
    var w1 := w.(buffer := w.buffer + [e], received := w.received + [e]);
    assert Held(w1, d) <==> Held(w, d) || d == e;
    HeldSpliced(w1, f, d);
  }

  lemma HeldFailing(w: Worker, f: nat, d: Delivery)
    requires f in w.flushes && w.flushes[f].Inserting?
    ensures Held(Failing(w, f), d) <==> Held(w, d)
  {
    var w' := Failing(w, f);
    assert InFlush(w'.flushes[f], d) <==> InFlush(w.flushes[f], d);
    forall g | g in w.flushes && g != f ensures w'.flushes[g] == w.flushes[g] {}
  }

  lemma HeldFinished(w: Worker, f: nat, loop: Loop, d: Delivery)
    requires f in w.flushes && !loop.Discarding?
    ensures Held(Finished(w, f, loop), d) ==> Held(w, d)
    ensures Held(w, d) ==> Held(Finished(w, f, loop), d) || InFlush(w.flushes[f], d)
  {
    var w' := Finished(w, f, loop);
    forall g | g in w.flushes && g != f ensures g in w'.flushes && w'.flushes[g] == w.flushes[g] {}
  }

  lemma HeldAdvanced(w: Worker, f: nat, d: Delivery)
    requires Due(w, f)
    ensures Held(Advanced(w, f), d) ==> Held(w, d)
    ensures Held(w, d) ==> Held(Advanced(w, f), d) || d == DueDelivery(w, f)
  {
    var fl, w' := w.flushes[f], Advanced(w, f);
    if fl.next + 1 < |fl.batch| {
      forall g | g in w.flushes && g != f ensures w'.flushes[g] == w.flushes[g] {}
      assert w'.flushes[f] == fl.(next := fl.next + 1);
      assert InFlush(w'.flushes[f], d) ==> InFlush(fl, d);
      assert InFlush(fl, d) ==> InFlush(w'.flushes[f], d) || d == fl.batch[fl.next];
    } else {
      HeldFinished(w, f, Idle, d);
    }
  }

  /** Why the process lets go of d in this step, if it does. */
  ghost predicate LetsGo(w: Worker, a: Action, d: Delivery) {
    match a
    case InsertOk(f) => f in w.flushes && InFlush(w.flushes[f], d)
    case Nak(f) => Due(w, f) && d == DueDelivery(w, f)
    case DlqOk(f) => Due(w, f) && d == DueDelivery(w, f)
    case DlqFail(f, _) => f in w.flushes && InFlush(w.flushes[f], d)
    case DiscardOk => w.loop == Discarding(d)
    case DiscardFail(_) => w.loop == Discarding(d)
    case Restart => true
    case CrashAcking(_, _) => true
    case _ => false
  }

  /** A delivery comes to be held by being handed out, and is held until the step that deals with it. */
  lemma StepHeld(s: State, a: Action, d: Delivery)
    requires Inv(s) && Enabled(s, a)
    ensures a.Deliver? && d == Delivery(a.m, s.store.status[a.m].deliveries + 1) ==> Held(Step(s, a).worker, d)
    ensures Held(Step(s, a).worker, d) && !Held(s.worker, d) ==>
              a.Deliver? && d == Delivery(a.m, s.store.status[a.m].deliveries + 1)
    ensures Held(s.worker, d) && !Held(Step(s, a).worker, d) ==> LetsGo(s.worker, a, d)
  {
    var w := s.worker;
    match a
    case Publish(_, _) =>
    case Deliver(m, f) =>
      HeldPushed(w, Delivery(m, s.store.status[m].deliveries + 1), f, d);
    case TimerFlush(f) => HeldSpliced(w, f, d);
    case InsertOk(f) => HeldFinished(w, f, Idle, d);
    case InsertFail(f, _) => HeldFailing(w, f, d);
    case Nak(f) => HeldAdvanced(w, f, d);
    case DlqOk(f) => HeldAdvanced(w, f, d);
    case DlqFail(f, _) => HeldFinished(w, f, Stopped, d);
    case DiscardOk =>
    case DiscardFail(_) =>
    case Restart =>
    case CrashAcking(_, _) =>
  }

  /** Which messages a step resolves: those it acknowledges or terminates, all of them held. */
  lemma StepStatus(s: State, a: Action, m: nat)
    requires Inv(s) && Enabled(s, a)
    ensures OwnedIn(Step(s, a).store, m) && m in s.store.status ==>
              && OwnedIn(s.store, m)
              && Step(s, a).store.status[m].deliveries ==
                 s.store.status[m].deliveries + if a.Deliver? && a.m == m then 1 else 0
    ensures m !in s.store.status && m in Step(s, a).store.status ==> Step(s, a).store.status[m] == Owned(0)
    ensures a.Publish? && a.m == m ==> m !in s.store.status
  {
    if a.InsertOk? || a.CrashAcking? {
      var batch := s.worker.flushes[a.f].batch;
      AckAllStatus(s.store.status, if a.InsertOk? then batch else batch[..a.n], m);
    }
  }

  /** A step that resolves m deals with a delivery of m that the process held. */
  lemma ResolverHeld(s: State, a: Action, m: nat) returns (c: nat)
    requires Inv(s) && Enabled(s, a)
    requires OwnedIn(s.store, m) && !OwnedIn(Step(s, a).store, m)
    ensures Held(s.worker, Delivery(m, c))
  {
    c := 0;
    match a {
      case InsertOk(f) =>
        var batch := s.worker.flushes[f].batch;
        AckAllStatus(s.store.status, batch, m);
        var i :| 0 <= i < |batch| && batch[i].msg == m;
        assert InFlush(s.worker.flushes[f], batch[i]);
        c := batch[i].count;
      case CrashAcking(f, n) =>
        var batch := s.worker.flushes[f].batch;
        AckAllStatus(s.store.status, batch[..n], m);
        var i :| 0 <= i < n && batch[..n][i].msg == m;
        assert batch[i] == batch[..n][i] && InFlush(s.worker.flushes[f], batch[i]);
        c := batch[i].count;
      case DlqOk(f) =>
        assert InFlush(s.worker.flushes[f], DueDelivery(s.worker, f));
        c := DueDelivery(s.worker, f).count;
      case DiscardOk => c := s.worker.loop.d.count;
      case _ =>
    }
  }

  lemma StepCounted(s: State, a: Action)
    requires Inv(s) && Counted(s) && Enabled(s, a)
    ensures Counted(Step(s, a))
  {
    var s' := Step(s, a);
    forall d | Held(s'.worker, d)
      ensures d.msg in s'.store.status && 1 <= d.count
      ensures s'.store.status[d.msg].Owned? ==> d.count <= s'.store.status[d.msg].deliveries
    {
      StepHeld(s, a, d);
      StepStatus(s, a, d.msg);
      StepLater(s, a);
    }
  }

  lemma {:induction false} CountedAlways(s: State, run: seq<Action>)
    requires Inv(s) && Counted(s) && Exec(s, run).Some?
    ensures Counted(Exec(s, run).value)
    decreases |run|
  {
    if run != [] {
      StepKeepsStore(s, run[0]);
      StepKeepsWorker(s, run[0]);
      StepCounted(s, run[0]);
      CountedAlways(Step(s, run[0]), run[1..]);
    }
  }

  /** A delivery is dropped by the redelivery it asks for, before its third, or by a fault. */
  lemma DroppedBy(s: State, a: Action, d: Delivery)
    requires Inv(s) && Enabled(s, a) && Drops(s, a, d)
    ensures (a.Nak? && d.count < 3 && s.store.payloads[d.msg].Event?) || Fault(a)
  {
    var w := s.worker;
    StepHeld(s, a, d);
    match a
    case InsertOk(f) =>
      var i :| 0 <= i < |w.flushes[f].batch| && w.flushes[f].batch[i] == d;
      AckAllStatus(s.store.status, w.flushes[f].batch, d.msg);
    case Nak(f) =>
      assert FlushOk(s.store.payloads, w, w.flushes[f]) && d in w.flushes[f].batch;
      assert DeliveryOk(s.store.payloads, d);
    case _ =>
  }

  lemma {:induction false} ResolvedNeverDropped(s: State, run: seq<Action>, d: Delivery)
    requires Inv(s) && Exec(s, run).Some? && d.msg in s.store.status && !OwnedIn(s.store, d.msg)
    ensures !DropsIn(s, run, d)
    decreases |run|
  {
    if run != [] {
      StepKeepsStore(s, run[0]);
      StepKeepsWorker(s, run[0]);
      StepStatus(s, run[0], d.msg);
      StepLater(s, run[0]);
      ResolvedNeverDropped(Step(s, run[0]), run[1..], d);
    }
  }

  /** A step that does not resolve the message leaves open or settles the fate of each delivery. */
  lemma FateStep(s: State, run: seq<Action>, d: Delivery)
    requires Inv(s) && Counted(s) && run != [] && Enabled(s, run[0]) && 1 <= d.count
    requires OwnedIn(Step(s, run[0]).store, d.msg) || d.msg !in s.store.status
    ensures var s' := Step(s, run[0]);
            Gone(s, d) || DropsIn(s, run, d) <==> Gone(s', d) || DropsIn(s', run[1..], d)
  {
    StepHeld(s, run[0], d);
    StepStatus(s, run[0], d.msg);
  }

  lemma {:induction false} FatesDecide(s: State, run: seq<Action>, m: nat)
    requires Inv(s) && Counted(s) && Exec(s, run).Some?
    ensures Exhausted(Exec(s, run).value, m) <==>
            forall c | 1 <= c <= MAX_DELIVER :: Gone(s, Delivery(m, c)) || DropsIn(s, run, Delivery(m, c))
    decreases |run|
  {
    if run == [] {
      assert Gone(s, Delivery(m, MAX_DELIVER)) && StoreOk(s.store) ==> Safe(s.store, m);
    } else {
      var a, s' := run[0], Step(s, run[0]);
      StepKeepsStore(s, a);
      StepKeepsWorker(s, a);
      StepCounted(s, a);
      FatesDecide(s', run[1..], m);
      if OwnedIn(s'.store, m) || m !in s.store.status {
        forall c: nat | 1 <= c <= MAX_DELIVER
          ensures Gone(s, Delivery(m, c)) || DropsIn(s, run, Delivery(m, c)) <==>
                  Gone(s', Delivery(m, c)) || DropsIn(s', run[1..], Delivery(m, c))
        {
          FateStep(s, run, Delivery(m, c));
        }
      } else {
        StepLater(s, a);
        ResolvedFate(s, run, m);
      }
    }
  }

  /** Once the message is resolved, the delivery that resolved it is neither gone nor dropped. */
  lemma ResolvedFate(s: State, run: seq<Action>, m: nat)
    requires Inv(s) && Counted(s) && Exec(s, run).Some? && run != []
    requires m in s.store.status && !OwnedIn(Step(s, run[0]).store, m)
    ensures exists c :: 1 <= c <= MAX_DELIVER && !Gone(s, Delivery(m, c)) && !DropsIn(s, run, Delivery(m, c))
  {
    StepKeepsStore(s, run[0]);
    StepKeepsWorker(s, run[0]);
    StepLater(s, run[0]);
    var c := 1;
    if OwnedIn(s.store, m) {
      c := ResolverHeld(s, run[0], m);
      assert Safe(s.store, m) && Held(s.worker, Delivery(m, c));
    }
    assert Delivery(m, c).msg == m;
    ResolvedNeverDropped(Step(s, run[0]), run[1..], Delivery(m, c));
    assert !Gone(s, Delivery(m, c));
  }

  /**
   A message ends up with the stream, never to be handed out again, exactly when each of
   its four deliveries was dropped: held, and let go without resolving it.
   */
  lemma ExhaustedIff(run: seq<Action>, m: nat)
    requires Exec(INIT, run).Some?
    ensures Exhausted(Exec(INIT, run).value, m) <==>
            forall c | 1 <= c <= 4 :: DropsIn(INIT, run, Delivery(m, c))
  {
    InitInv();
    FatesDecide(INIT, run, m);
  }

  lemma {:induction false} DropNeedsFault(s: State, run: seq<Action>, d: Delivery)
    requires Inv(s) && Exec(s, run).Some? && DropsIn(s, run, d)
    requires d.count >= MAX_RETRIES
    ensures exists i :: 0 <= i < |run| && Fault(run[i])
    decreases |run|
  {
    if Drops(s, run[0], d) {
      DroppedBy(s, run[0], d);
    } else {
      StepKeepsStore(s, run[0]);
      StepKeepsWorker(s, run[0]);
      DropNeedsFault(Step(s, run[0]), run[1..], d);
      var i :| 0 <= i < |run[1..]| && Fault(run[1..][i]);
      assert run[i + 1] == run[1..][i];
    }
  }

  /** As long as the process does not die and no dead-letter publish throws, no message is exhausted. */
  lemma NoFaultNoExhaustion(run: seq<Action>, m: nat)
    requires Exec(INIT, run).Some?
    requires forall a | a in run :: !Fault(a)
    ensures !Exhausted(Exec(INIT, run).value, m)
  {
    ExhaustedIff(run, m);
    if DropsIn(INIT, run, Delivery(m, MAX_DELIVER)) {
      InitInv();
      DropNeedsFault(INIT, run, Delivery(m, MAX_DELIVER));
    }
  }

  lemma ExhaustedStep(s: State, a: Action, m: nat)
    requires Inv(s) && Exhausted(s, m) && Enabled(s, a)
    ensures Exhausted(Step(s, a), m)
  {
    var s' := Step(s, a);
    if !OwnedIn(s'.store, m) {
      var c := ResolverHeld(s, a, m);
    } else {
      StepStatus(s, a, m);
      forall d | Held(s'.worker, d) ensures d.msg != m { StepHeld(s, a, d); }
    }
  }

  /** Such a message stays in the stream, unread, however the run goes on. */
  lemma {:induction false} ExhaustedForever(s: State, run: seq<Action>, m: nat)
    requires Inv(s) && Exhausted(s, m) && Exec(s, run).Some?
    ensures Exhausted(Exec(s, run).value, m)
    decreases |run|
  {
    if run != [] {
      ExhaustedStep(s, run[0], m);
      StepKeepsStore(s, run[0]);
      StepKeepsWorker(s, run[0]);
      ExhaustedForever(Step(s, run[0]), run[1..], m);
    }
  }

  /** A dead-letter publish that throws also drops every later message of its batch. */
  lemma ThrowDropsTheRest(s: State, f: nat, stored: bool, d: Delivery)
    requires Inv(s) && Enabled(s, DlqFail(f, stored))
    ensures Drops(s, DlqFail(f, stored), d) <==>
            && InFlush(s.worker.flushes[f], d) && OwnedIn(s.store, d.msg)
            && !Held(s.worker.(flushes := s.worker.flushes - {f}), d)
  {
    var w, rest := s.worker, s.worker.(flushes := s.worker.flushes - {f});
    StepHeld(s, DlqFail(f, stored), d);
    StepStatus(s, DlqFail(f, stored), d.msg);
    assert Held(Step(s, DlqFail(f, stored)).worker, d) <==> Held(rest, d) by {
      assert Step(s, DlqFail(f, stored)).worker.flushes == rest.flushes;
    }
    assert Held(rest, d) ==> Held(w, d) by {
      forall g | g in rest.flushes ensures rest.flushes[g] == w.flushes[g] {}
    }
  }

  /** A way to lose one delivery after the other. */
  datatype Mishap =
    | LetterFails(committed: bool, stored: bool)    // the insert fails, and so does the dead-letter publish
    | Dies                                          // the process dies with the message in its buffer
    | DiesAcking                                    // the row is stored, but the process dies before the ack
    | DiscardFails(stored: bool)                    // the message does not parse and its dead-letter publish fails

  predicate Befalls(mishap: Mishap, p: Payload) {
    match mishap
    case Dies => true
    case DiscardFails(_) => p.Malformed?
    case _ => p.Event?
  }

  predicate FaultOf(mishap: Mishap, a: Action) {
    match mishap
    case LetterFails(_, _) => a.DlqFail?
    case Dies => a.Restart?
    case DiesAcking => a.CrashAcking?
    case DiscardFails(_) => a.DiscardFail? || a.Restart?
  }

  predicate Stores(mishap: Mishap) {
    mishap.DiesAcking? || (mishap.LetterFails? && mishap.committed)
  }

  /** The n-th delivery of message 0. */
  function Round(mishap: Mishap, n: nat): seq<Action> {
    match mishap
    case LetterFails(committed, stored) =>
      [Deliver(0, 0), TimerFlush(0), InsertFail(0, committed), if n < MAX_RETRIES then Nak(0) else DlqFail(0, stored)]
    case Dies => [Deliver(0, 0), Restart]
    case DiesAcking => [Deliver(0, 0), TimerFlush(0), CrashAcking(0, 0)]
    case DiscardFails(stored) => [Deliver(0, 0), DiscardFail(stored), Restart]
  }

  ghost predicate Retrying(s: State, p: Payload, n: nat) {
    && s.store.payloads == map[0 := p] && s.store.status == map[0 := Owned(n)]
    && (s.store.table == [] || (p.Event? && s.store.table == [p.event]))
    && s.worker.buffer == [] && s.worker.flushes == map[] && s.worker.loop == Idle
  }

  lemma {:induction false} ExecConcat(s: State, a: seq<Action>, b: seq<Action>)
    requires Exec(s, a).Some?
    ensures Exec(s, a + b) == Exec(Exec(s, a).value, b)
    decreases |a|
  {
    if a == [] {
      assert a + b == b;
    } else {
      assert (a + b)[0] == a[0] && (a + b)[1..] == a[1..] + b;
      ExecConcat(Step(s, a[0]), a[1..], b);
    }
  }

  predicate Leads(s: State, a: Action, s': State) {
    Enabled(s, a) && Step(s, a) == s'
  }

  lemma {:induction false} ExecThrough(run: seq<Action>, states: seq<State>)
    requires |states| == |run| + 1
    requires forall i | 0 <= i < |run| :: Leads(states[i], run[i], states[i + 1])
    ensures Exec(states[0], run) == Some(states[|run|])
    decreases |run|
  {
    if run != [] {
      assert Leads(states[0], run[0], states[1]);
      forall i | 0 <= i < |run[1..]| ensures Leads(states[1..][i], run[1..][i], states[1..][i + 1]) {
        assert Leads(states[i + 1], run[i + 1], states[i + 2]);
      }
      ExecThrough(run[1..], states[1..]);
    }
  }

  lemma OneRow(table: seq<AuditEvent>, e: AuditEvent)
    requires table == [] || table == [e]
    ensures Inserted(table, [e]) == [e]
  {
    if table == [e] {
      assert HasKey(table, Key(table[0]));
    }
    assert [e][1..] == [];
    assert Inserted([e], []) == [e];
  }

  /** Message 0 is delivered and flushed by the timer: its insert is under way. */
  lemma FlushedRound(s: State, e: AuditEvent, n: nat) returns (s1: State, s2: State)
    requires Retrying(s, Event(e), n) && n < MAX_DELIVER
    ensures Leads(s, Deliver(0, 0), s1) && Leads(s1, TimerFlush(0), s2)
    ensures s2.store == s.store.(status := map[0 := Owned(n + 1)])
    ensures s2.worker.buffer == [] && s2.worker.loop == Idle
    ensures s2.worker.flushes == map[0 := Inserting([Delivery(0, n + 1)])]
    ensures Known(s2.store, [Delivery(0, n + 1)])
    ensures Stored(s2.store, [Delivery(0, n + 1)]) == s2.store.(table := [e])
  {
    var d := Delivery(0, n + 1);
    s1 := Step(s, Deliver(0, 0));
    assert s1.worker.buffer == [d] && s1.store.status == map[0 := Owned(n + 1)];
    s2 := Step(s1, TimerFlush(0));
    assert s2.worker.flushes == map[0 := Inserting([d])];
    assert EventsOf(s2.store, [d]) == [e];
    OneRow(s.store.table, e);
  }

  ghost predicate Rounded(s: State, mishap: Mishap, p: Payload, n: nat)
    requires Befalls(mishap, p)
  {
    && Exec(s, Round(mishap, n + 1)).Some?
    && var s' := Exec(s, Round(mishap, n + 1)).value;
    && Retrying(s', p, n + 1)
    && s'.store.table == if Stores(mishap) then [p.event] else s.store.table
  }

  lemma LetterFailsExec(s: State, committed: bool, stored: bool, e: AuditEvent, n: nat)
    requires Retrying(s, Event(e), n) && n < MAX_DELIVER
    ensures Rounded(s, LetterFails(committed, stored), Event(e), n)
  {
    var run := Round(LetterFails(committed, stored), n + 1);
    var s1, s2 := FlushedRound(s, e, n);
    var s3 := Step(s2, run[2]);
    assert s3.worker.flushes == map[0 := Resolving([Delivery(0, n + 1)], 0)];
    var s4 := Step(s3, run[3]);
    assert s4.worker.flushes == map[];
    ExecThrough(run, [s, s1, s2, s3, s4]);
  }

  lemma DiesAckingExec(s: State, e: AuditEvent, n: nat)
    requires Retrying(s, Event(e), n) && n < MAX_DELIVER
    ensures Rounded(s, DiesAcking, Event(e), n)
  {
    var run := Round(DiesAcking, n + 1);
    var s1, s2 := FlushedRound(s, e, n);
    assert [Delivery(0, n + 1)][..0] == [];
    ExecThrough(run, [s, s1, s2, Step(s2, run[2])]);
  }

  lemma RoundExec(s: State, mishap: Mishap, p: Payload, n: nat)
    requires Retrying(s, p, n) && n < MAX_DELIVER && Befalls(mishap, p)
    ensures Rounded(s, mishap, p, n)
  {
    var run := Round(mishap, n + 1);
    match mishap {
      case LetterFails(committed, stored) => LetterFailsExec(s, committed, stored, p.event, n);
      case DiesAcking => DiesAckingExec(s, p.event, n);
      case Dies =>
        var s1 := Step(s, run[0]);
        ExecThrough(run, [s, s1, Step(s1, Restart)]);
      case DiscardFails(stored) =>
        var s1 := Step(s, run[0]);
        var s2 := Step(s1, run[1]);
        ExecThrough(run, [s, s1, s2, Step(s2, Restart)]);
    }
  }

  /**
   Each kind of fault by itself exhausts a message: four restarts, or a dead-letter publish
   that fails twice, are enough. That says nothing about its row, which is there whenever
   an insert took effect: the process may die between the insert and the acknowledgement,
   and a failed insert may have been committed.
   */
  lemma EachFaultExhausts(mishap: Mishap, p: Payload) returns (run: seq<Action>)
    requires Befalls(mishap, p)
    ensures Exec(INIT, run).Some? && Exhausted(Exec(INIT, run).value, 0)
    ensures forall a | a in run && Fault(a) :: FaultOf(mishap, a)
    ensures Exec(INIT, run).value.store.table == if Stores(mishap) then [p.event] else []
  {
    run := [Publish(0, p)];
    ExecThrough(run, [INIT, Step(INIT, run[0])]);
    for n := 0 to MAX_DELIVER
      invariant Exec(INIT, run).Some? && Retrying(Exec(INIT, run).value, p, n)
      invariant forall a | a in run && Fault(a) :: FaultOf(mishap, a)
      invariant Exec(INIT, run).value.store.table == if n > 0 && Stores(mishap) then [p.event] else []
    {
      RoundExec(Exec(INIT, run).value, mishap, p, n);
      ExecConcat(INIT, run, Round(mishap, n + 1));
      run := run + Round(mishap, n + 1);
    }
  }
}

/**
 The one SQL statement of the audit consumer: a multi-row INSERT whose values are
 bound by numbered placeholders, and whose conflicts on (id, created_at) do nothing.
 */
module AuditInsert {
  import opened Wrappers

  /** `changes` and `metadata` are the JSON texts; None is SQL NULL. */
  datatype AuditEvent = AuditEvent(
    id: string, scope: string, tenantId: Option<string>, resellerId: Option<string>,
    userId: string, actorId: string, impersonatorId: Option<string>, impersonationSessionId: Option<string>,
    action: string, actionType: string, entityType: string, entityId: Option<string>,
    changes: Option<string>, metadata: Option<string>, correlationId: string,
    ipAddress: Option<string>, userAgent: Option<string>, source: string,
    syntheticOrigin: Option<string>, createdAt: string)

  type Cell = Option<string>
  type Row = seq<Cell>

  /** The columns, in the order of the statement. */
  datatype Column =
    | Id | Scope | TenantId | ResellerId | UserId | ActorId | ImpersonatorId | ImpersonationSessionId
    | Action | ActionType | EntityType | EntityId | Changes | Metadata | CorrelationId
    | IpAddress | UserAgent | Source | SyntheticOrigin | CreatedAt

  const COLUMNS: seq<Column> := [
    Id, Scope, TenantId, ResellerId, UserId, ActorId, ImpersonatorId, ImpersonationSessionId,
    Action, ActionType, EntityType, EntityId, Changes, Metadata, CorrelationId,
    IpAddress, UserAgent, Source, SyntheticOrigin, CreatedAt]

  const COLUMN_COUNT: nat := 20

  /** What a column of the audit table must hold for event `e`. */
  function CellOf(e: AuditEvent, c: Column): Cell {
    match c
    case Id => Some(e.id)
    case Scope => Some(e.scope)
    case TenantId => e.tenantId
    case ResellerId => e.resellerId
    case UserId => Some(e.userId)
    case ActorId => Some(e.actorId)
    case ImpersonatorId => e.impersonatorId
    case ImpersonationSessionId => e.impersonationSessionId
    case Action => Some(e.action)
    case ActionType => Some(e.actionType)
    case EntityType => Some(e.entityType)
    case EntityId => e.entityId
    case Changes => e.changes
    case Metadata => e.metadata
    case CorrelationId => Some(e.correlationId)
    case IpAddress => e.ipAddress
    case UserAgent => e.userAgent
    case Source => Some(e.source)
    case SyntheticOrigin => e.syntheticOrigin
    case CreatedAt => Some(e.createdAt)
  }

  /** The row of an event: one cell per column, in column order. */
  ghost predicate IsRowOf(row: Row, e: AuditEvent) {
    |row| == COLUMN_COUNT && forall j | 0 <= j < COLUMN_COUNT :: row[j] == CellOf(e, COLUMNS[j])
  }

  /** The values pushed for one event, in the order the code pushes them. */
  method Pushed(e: AuditEvent) returns (row: Row)
    ensures IsRowOf(row, e)
  {
    row := [Some(e.id), Some(e.scope), e.tenantId, e.resellerId, Some(e.userId), Some(e.actorId),
            e.impersonatorId, e.impersonationSessionId, Some(e.action), Some(e.actionType),
            Some(e.entityType), e.entityId, e.changes, e.metadata, Some(e.correlationId),
            e.ipAddress, e.userAgent, Some(e.source), e.syntheticOrigin, Some(e.createdAt)];
    forall j | 0 <= j < COLUMN_COUNT ensures row[j] == CellOf(e, COLUMNS[j]) {
      if j < 10 {
      } else {
      }
    }
  }

  /** INSERT INTO audit_logs (columns) VALUES rows: each row lists placeholder numbers. */
  datatype Insert = Insert(rows: seq<seq<int>>, values: seq<Cell>)

  ghost predicate Bindable(q: Insert) {
    forall i, j | 0 <= i < |q.rows| && 0 <= j < |q.rows[i]| :: 1 <= q.rows[i][j] <= |q.values|
  }

  /** The rows the database sees once `$k` is replaced by the k-th value. */
  ghost function Bound(q: Insert): seq<Row>
    requires Bindable(q)
  {
    seq(|q.rows|, i requires 0 <= i < |q.rows| =>
      seq(|q.rows[i]|, j requires 0 <= j < |q.rows[i]| => q.values[q.rows[i][j] - 1]))
  }

  ghost predicate AreRowsOf(rows: seq<Row>, events: seq<AuditEvent>) {
    |rows| == |events| && forall i | 0 <= i < |events| :: IsRowOf(rows[i], events[i])
  }

  /** Placeholder `$k` binds column (k - 1) mod 20 of event (k - 1) / 20. */
  ghost predicate BindsInPlace(q: Insert, events: seq<AuditEvent>, k: int)
    requires 1 <= k <= |q.values| == COLUMN_COUNT * |events|
  {
    q.values[k - 1] == CellOf(events[(k - 1) / COLUMN_COUNT], COLUMNS[(k - 1) % COLUMN_COUNT])
  }

  /** `values` is the concatenation of `rows`, and `placeholders` numbers it from 1. */
  ghost predicate Numbered(values: seq<Cell>, placeholders: seq<seq<int>>, rows: seq<Row>) {
    && |placeholders| == |rows| && |values| == 20 * |rows|
    && (forall h | 0 <= h < |rows| :: |placeholders[h]| == COLUMN_COUNT == |rows[h]|)
    && (forall h, j | 0 <= h < |rows| && 0 <= j < COLUMN_COUNT :: placeholders[h][j] == 20 * h + j + 1)
    && (forall p | 0 <= p < |values| :: values[p] == rows[p / 20][p % 20])
  }

  lemma NumberedMore(values: seq<Cell>, placeholders: seq<seq<int>>, rows: seq<Row>, row: Row, numbers: seq<int>)
    requires Numbered(values, placeholders, rows)
    requires |row| == COLUMN_COUNT == |numbers|
    requires forall j | 0 <= j < COLUMN_COUNT :: numbers[j] == 20 * |rows| + j + 1
    ensures Numbered(values + row, placeholders + [numbers], rows + [row])
  {
    var values', rows' := values + row, rows + [row];
    forall p | 0 <= p < |values'| ensures values'[p] == rows'[p / 20][p % 20] {
      if p < |values| {
        assert p / 20 < |rows|;
      } else {
        assert p / 20 == |rows| && p % 20 == p - |values|;
      }
    }
  }

  /** The value a placeholder stands for is the cell it stands at. */
  lemma CellBound(q: Insert, rows: seq<Row>, i: int, j: int)
    requires Numbered(q.values, q.rows, rows) && 0 <= i < |rows| && 0 <= j < COLUMN_COUNT
    ensures 1 <= q.rows[i][j] <= |q.values| && q.values[q.rows[i][j] - 1] == rows[i][j]
  {
    var p := 20 * i + j;
    assert q.rows[i][j] == p + 1;
    assert p / 20 == i && p % 20 == j;
    assert q.values[p] == rows[p / 20][p % 20];
  }

  lemma NumberBinds(q: Insert, rows: seq<Row>, events: seq<AuditEvent>, k: int)
    requires Numbered(q.values, q.rows, rows) && AreRowsOf(rows, events) && 1 <= k <= |q.values|
    ensures BindsInPlace(q, events, k)
  {
    var p := k - 1;
    assert 0 <= p / 20 < |rows| && 0 <= p % 20 < 20;
    assert q.values[p] == rows[p / 20][p % 20];
    assert IsRowOf(rows[p / 20], events[p / 20]);
  }

  lemma NumberedBinds(q: Insert, rows: seq<Row>, events: seq<AuditEvent>)
    requires Numbered(q.values, q.rows, rows) && AreRowsOf(rows, events)
    ensures Bindable(q) && Bound(q) == rows
    ensures forall k | 1 <= k <= |q.values| :: BindsInPlace(q, events, k)
  {
    forall k | 1 <= k <= |q.values| ensures BindsInPlace(q, events, k) {
      NumberBinds(q, rows, events, k);
    }
    AllBound(q, rows);
  }

  lemma AllBound(q: Insert, rows: seq<Row>)
    requires Numbered(q.values, q.rows, rows)
    ensures Bindable(q) && Bound(q) == rows
  {
    forall i, j | 0 <= i < |q.rows| && 0 <= j < |q.rows[i]|
      ensures 1 <= q.rows[i][j] <= |q.values| && q.values[q.rows[i][j] - 1] == rows[i][j]
    {
      CellBound(q, rows, i, j);
    }
    forall i | 0 <= i < |rows| ensures Bound(q)[i] == rows[i] {
      assert |Bound(q)[i]| == |rows[i]|;
    }
  }

  /**
   Placeholder `$k` of the batch binds column (k - 1) mod 20 of event (k - 1) / 20, and
   the rows the database receives are those of the events, in order.
   */
  method BatchInsert(events: seq<AuditEvent>) returns (q: Insert)
    ensures |q.values| == 20 * |events|
    ensures forall k | 1 <= k <= |q.values| :: BindsInPlace(q, events, k)
    ensures Bindable(q) && AreRowsOf(Bound(q), events)
  {
    var placeholders: seq<seq<int>> := [];
    var values: seq<Cell> := [];
    ghost var rows: seq<Row> := [];
    for i := 0 to |events|
      invariant Numbered(values, placeholders, rows) && AreRowsOf(rows, events[..i])
    {
      var offset := i * COLUMN_COUNT;
      var numbers: seq<int> := [];
      for j := 1 to COLUMN_COUNT + 1
        invariant |numbers| == j - 1
        invariant forall k | 0 <= k < j - 1 :: numbers[k] == offset + k + 1
      {
        numbers := numbers + [offset + j];
      }
      var row := Pushed(events[i]);
      NumberedMore(values, placeholders, rows, row, numbers);
      placeholders := placeholders + [numbers];
      values := values + row;
      rows := rows + [row];
    }
    q := Insert(placeholders, values);
    assert events[..|events|] == events;
    NumberedBinds(q, rows, events);
  }

  // ------------------------------------------------- ON CONFLICT DO NOTHING

  /** The primary key (id, created_at). */
  function Key(e: AuditEvent): (string, string) {
    (e.id, e.createdAt)
  }

  predicate HasKey(table: seq<AuditEvent>, key: (string, string)) {
    exists i :: 0 <= i < |table| && Key(table[i]) == key
  }

  ghost predicate UniqueKeys(table: seq<AuditEvent>) {
    forall i, j | 0 <= i < j < |table| :: Key(table[i]) != Key(table[j])
  }

  /** The table after the statement; an event stands for its row, see `RowDeterminesEvent`. */
  function Inserted(table: seq<AuditEvent>, events: seq<AuditEvent>): (table': seq<AuditEvent>)
    ensures table <= table'
    decreases |events|
  {
    if events == [] then table
    else if HasKey(table, Key(events[0])) then Inserted(table, events[1..])
    else Inserted(table + [events[0]], events[1..])
  }

  lemma {:induction false} InsertedKeys(table: seq<AuditEvent>, events: seq<AuditEvent>)
    requires UniqueKeys(table)
    ensures UniqueKeys(Inserted(table, events))
    ensures forall i | 0 <= i < |events| :: HasKey(Inserted(table, events), Key(events[i]))
    ensures forall e | e in Inserted(table, events) :: e in table || e in events
    decreases |events|
  {
    if events != [] {
      var next := if HasKey(table, Key(events[0])) then table else table + [events[0]];
      assert HasKey(next, Key(events[0])) by {
        if !HasKey(table, Key(events[0])) {
          assert Key(next[|table|]) == Key(events[0]);
        }
      }
      InsertedKeys(next, events[1..]);
      KeysKept(next, Inserted(next, events[1..]), Key(events[0]));
      forall i | 0 <= i < |events| ensures HasKey(Inserted(table, events), Key(events[i])) {
        if i > 0 {
          assert events[i] == events[1..][i - 1];
        }
      }
    }
  }

  lemma {:induction false} InsertedOneMore(table: seq<AuditEvent>, events: seq<AuditEvent>, e: AuditEvent)
    ensures Inserted(table, events + [e]) == Inserted(Inserted(table, events), [e])
    decreases |events|
  {
    if events == [] {
      assert [] + [e] == [e];
    } else {
      var next := if HasKey(table, Key(events[0])) then table else table + [events[0]];
      assert (events + [e])[0] == events[0] && (events + [e])[1..] == events[1..] + [e];
      InsertedOneMore(next, events[1..], e);
    }
  }

  /**
   Which events the statement passes over: the k-th exactly when a row before it, old or of
   the same statement, has both its id and its creation time. Any other becomes the next row.
   */
  lemma PassedOverIff(table: seq<AuditEvent>, events: seq<AuditEvent>, k: nat)
    requires k < |events|
    ensures var before, e := Inserted(table, events[..k]), events[k];
            Inserted(table, events[..k + 1]) ==
            if exists i :: 0 <= i < |before| && before[i].id == e.id && before[i].createdAt == e.createdAt
            then before else before + [e]
  {
    var before, e := Inserted(table, events[..k]), events[k];
    assert events[..k + 1] == events[..k] + [e];
    InsertedOneMore(table, events[..k], e);
    assert [e][1..] == [];
    if i :| 0 <= i < |before| && before[i].id == e.id && before[i].createdAt == e.createdAt {
      assert Key(before[i]) == Key(e);
    }
  }

  lemma KeysKept(table: seq<AuditEvent>, table': seq<AuditEvent>, key: (string, string))
    requires table <= table' && HasKey(table, key)
    ensures HasKey(table', key)
  {
    var i :| 0 <= i < |table| && Key(table[i]) == key;
    assert table'[i] == table[i];
  }

  /** Inserting a batch again changes nothing: redelivery cannot duplicate a row. */
  lemma {:induction false} InsertTwice(table: seq<AuditEvent>, events: seq<AuditEvent>)
    requires forall i | 0 <= i < |events| :: HasKey(table, Key(events[i]))
    ensures Inserted(table, events) == table
    decreases |events|
  {
    if events != [] {
      forall i | 0 <= i < |events[1..]| ensures HasKey(table, Key(events[1..][i])) {
        assert events[1..][i] == events[i + 1];
      }
      assert HasKey(table, Key(events[0]));
      InsertTwice(table, events[1..]);
    }
  }

  /** The row of an event, column by column as the statement lists them. */
  lemma RowByField(row: Row, e: AuditEvent)
    requires IsRowOf(row, e)
    ensures COLUMNS == [Id, Scope, TenantId, ResellerId, UserId, ActorId, ImpersonatorId, ImpersonationSessionId,
                        Action, ActionType, EntityType, EntityId, Changes, Metadata, CorrelationId,
                        IpAddress, UserAgent, Source, SyntheticOrigin, CreatedAt]
    ensures row == [Some(e.id), Some(e.scope), e.tenantId, e.resellerId, Some(e.userId), Some(e.actorId),
                    e.impersonatorId, e.impersonationSessionId,
                    Some(e.action), Some(e.actionType), Some(e.entityType), e.entityId, e.changes, e.metadata,
                    Some(e.correlationId),
                    e.ipAddress, e.userAgent, Some(e.source), e.syntheticOrigin, Some(e.createdAt)]
  {
    assert row[0] == CellOf(e, COLUMNS[0]) && row[1] == CellOf(e, COLUMNS[1]);
  }

  function Position(c: Column): (j: nat)
    ensures j < COLUMN_COUNT && COLUMNS[j] == c
  {
    match c
    case Id => 0 case Scope => 1 case TenantId => 2 case ResellerId => 3 case UserId => 4
    case ActorId => 5 case ImpersonatorId => 6 case ImpersonationSessionId => 7 case Action => 8
    case ActionType => 9 case EntityType => 10 case EntityId => 11 case Changes => 12
    case Metadata => 13 case CorrelationId => 14 case IpAddress => 15 case UserAgent => 16
    case Source => 17 case SyntheticOrigin => 18 case CreatedAt => 19
  }

  ghost predicate SameCell(a: AuditEvent, b: AuditEvent, c: Column) {
    CellOf(a, c) == CellOf(b, c)
  }

  lemma CellsDetermineEvent(a: AuditEvent, b: AuditEvent)
    requires forall c: Column :: SameCell(a, b, c)
    ensures a == b
  {
    assert a.id == b.id by { assert SameCell(a, b, Id); }
    assert a.scope == b.scope by { assert SameCell(a, b, Scope); }
    assert a.tenantId == b.tenantId by { assert SameCell(a, b, TenantId); }
    assert a.resellerId == b.resellerId by { assert SameCell(a, b, ResellerId); }
    assert a.userId == b.userId by { assert SameCell(a, b, UserId); }
    assert a.actorId == b.actorId by { assert SameCell(a, b, ActorId); }
    assert a.impersonatorId == b.impersonatorId by { assert SameCell(a, b, ImpersonatorId); }
    assert a.impersonationSessionId == b.impersonationSessionId by { assert SameCell(a, b, ImpersonationSessionId); }
    assert a.action == b.action by { assert SameCell(a, b, Action); }
    assert a.actionType == b.actionType by { assert SameCell(a, b, ActionType); }
    assert a.entityType == b.entityType by { assert SameCell(a, b, EntityType); }
    assert a.entityId == b.entityId by { assert SameCell(a, b, EntityId); }
    assert a.changes == b.changes by { assert SameCell(a, b, Changes); }
    assert a.metadata == b.metadata by { assert SameCell(a, b, Metadata); }
    assert a.correlationId == b.correlationId by { assert SameCell(a, b, CorrelationId); }
    assert a.ipAddress == b.ipAddress by { assert SameCell(a, b, IpAddress); }
    assert a.userAgent == b.userAgent by { assert SameCell(a, b, UserAgent); }
    assert a.source == b.source by { assert SameCell(a, b, Source); }
    assert a.syntheticOrigin == b.syntheticOrigin by { assert SameCell(a, b, SyntheticOrigin); }
    assert a.createdAt == b.createdAt by { assert SameCell(a, b, CreatedAt); }
  }

  /** A row determines its event, so the table may be kept as a sequence of events. */
  lemma RowDeterminesEvent(row: Row, a: AuditEvent, b: AuditEvent)
    requires IsRowOf(row, a) && IsRowOf(row, b)
    ensures a == b
  {
    forall c: Column ensures SameCell(a, b, c) {
      var j := Position(c);
      assert row[j] == CellOf(a, COLUMNS[j]);
    }
    CellsDetermineEvent(a, b);
  }
}

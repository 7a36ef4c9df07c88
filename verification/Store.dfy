/** The authority store. */
module Store {
  // An append-only journal with receipts, outbox and audit, written only by `commitBatch` inside one
  // transaction.
  import opened CodeUnits
  import opened Envelopes

  datatype Row = Row(identity: Identity, receipt: Receipt)

  datatype Db = Db(journal: seq<Event>, receipts: seq<Row>, outbox: seq<Task>, audit: seq<Audit>)

  const EMPTY: Db := Db([], [], [], [])

  datatype Failure = ContractInvalid | IdempotencyConflict | OptimisticConcurrency | StorageFailure

  datatype Lookup = NoReceipt | Found(receipt: Receipt) | Conflict

  // ---------------------------------------------------------------- queries

  /** The row shares the command id, or the idempotency key within its scope. */
  predicate Clashes(row: Row, id: Identity) {
    row.identity.commandId == id.commandId
    || (row.identity.idempotencyKey == id.idempotencyKey && row.identity.effectScope == id.effectScope)
  }

  function Clashing(rows: seq<Row>, id: Identity): seq<Row> {
    if rows == [] then [] else
      Clashing(rows[..|rows| - 1], id) + if Clashes(rows[|rows| - 1], id) then [rows[|rows| - 1]] else []
  }

  /** `findCommandDuplicate` */
  function FindDuplicate(db: Db, id: Identity): Lookup {
    var rows := Clashing(db.receipts, id);
    if rows == [] then NoReceipt
    else if |rows| != 1 || rows[0].identity != id then Conflict
    else Found(rows[0].receipt)
  }

  /** The events of one stream, in the order they were inserted. */
  function Stream(journal: seq<Event>, key: StreamKey): seq<Event> {
    if journal == [] then [] else
      var last := journal[|journal| - 1];
      Stream(journal[..|journal| - 1], key) + if last.stream == key then [last] else []
  }

  /** `SELECT COALESCE(MAX(aggregate_version), 0)` over a stream. */
  function MaxVersion(events: seq<Event>): int {
    if events == [] then 0 else
      var rest := MaxVersion(events[..|events| - 1]);
      if |events| == 1 || events[|events| - 1].version > rest then events[|events| - 1].version else rest
  }

  function CurrentVersion(db: Db, key: StreamKey): int { MaxVersion(Stream(db.journal, key)) }

  function InsertByVersion(e: Event, events: seq<Event>): seq<Event> {
    if events == [] || events[|events| - 1].version <= e.version then events + [e]
    else InsertByVersion(e, events[..|events| - 1]) + [events[|events| - 1]]
  }

  /** `ORDER BY aggregate_version` */
  function OrderByVersion(events: seq<Event>): seq<Event> {
    if events == [] then [] else InsertByVersion(events[|events| - 1], OrderByVersion(events[..|events| - 1]))
  }

  function Take<T>(s: seq<T>, n: nat): seq<T> { if n <= |s| then s[..n] else s }

  function ReadEvents(db: Db, key: StreamKey, limit: nat): seq<Event> {
    Take(OrderByVersion(Stream(db.journal, key)), limit)
  }

  // ---------------------------------------------------------------- one commit

  predicate TaskHashesOk(tasks: seq<Task>) {
    forall i :: 0 <= i < |tasks| ==> tasks[i].payloadHash == OfValue(tasks[i].payload)
  }

  predicate SameTask(t: Task, u: Task) {
    t.taskId == u.taskId || (t.idempotencyKey == u.idempotencyKey && t.effectScope == u.effectScope)
  }

  /** No two tasks of the batch, and no task and stored task, share an identity. */
  predicate TasksFresh(stored: seq<Task>, tasks: seq<Task>) {
    && (forall i, j :: 0 <= i < j < |tasks| ==> !SameTask(tasks[i], tasks[j]))
    && forall i, j :: 0 <= i < |stored| && 0 <= j < |tasks| ==> !SameTask(stored[i], tasks[j])
  }

  /** The UNIQUE constraints of `event_journal`, and its CHECK. */
  predicate Insertable(journal: seq<Event>, e: Event) {
    e.version >= 1
    && forall i :: 0 <= i < |journal| ==>
         journal[i].eventId != e.eventId && !(journal[i].stream == e.stream && journal[i].version == e.version)
  }

  predicate AuditInsertable(audit: seq<Audit>, a: Audit) {
    forall i :: 0 <= i < |audit| ==> audit[i].auditId != a.auditId
  }

  /** `verifyEvent` and the insertion, event by event. */
  function InsertEvents(journal: seq<Event>, events: seq<Event>, key: StreamKey, version: int)
    : Result<seq<Event>, Failure>
    decreases |events|
  {
    if events == [] then Ok(journal)
    else if events[0].stream != key || events[0].version != version + 1 then Err(OptimisticConcurrency)
    else if events[0].payloadHash != OfValue(events[0].payload) then Err(ContractInvalid)
    else if !Insertable(journal, events[0]) then Err(StorageFailure)
    else InsertEvents(journal + [events[0]], events[1..], key, version + 1)
  }

  function InsertAudit(audit: seq<Audit>, facts: seq<Audit>): Result<seq<Audit>, Failure>
    decreases |facts|
  {
    if facts == [] then Ok(audit)
    else if !AuditInsertable(audit, facts[0]) then Err(StorageFailure)
    else InsertAudit(audit + [facts[0]], facts[1..])
  }

  function EventIds(events: seq<Event>): (r: seq<Id>)
    ensures |r| == |events| && forall i :: 0 <= i < |r| ==> r[i] == events[i].eventId
  {
    seq(|events|, i requires 0 <= i < |events| => events[i].eventId)
  }

  function MakeReceipt(batch: Batch, current: int): Receipt {
    var base := ReceiptBase(
      batch.transactionId, batch.identity.commandId, batch.stream, current + |batch.events|,
      EventIds(batch.events),
      seq(|batch.outbox|, i requires 0 <= i < |batch.outbox| => batch.outbox[i].taskId),
      seq(|batch.audit|, i requires 0 <= i < |batch.audit| => batch.audit[i].auditId),
      batch.capturedAt);
    Receipt(base, OfReceipt(base))
  }

  /** The transaction body on a store without a receipt for the command. */
  function Transact(db: Db, batch: Batch): Result<Db, Failure> {
    if !TasksFresh(db.outbox, batch.outbox) then Err(IdempotencyConflict)
    else if CurrentVersion(db, batch.stream) != batch.expectedVersion then Err(OptimisticConcurrency)
    else
      match InsertEvents(db.journal, batch.events, batch.stream, batch.expectedVersion)
      case Err(e) => Err(e)
      case Ok(journal) =>
        match InsertAudit(db.audit, batch.audit)
        case Err(e) => Err(e)
        case Ok(audit) =>
          var receipt := MakeReceipt(batch, batch.expectedVersion);
          Ok(Db(journal, db.receipts + [Row(batch.identity, receipt)], db.outbox + batch.outbox, audit))
  }

  /** `commitBatch`: the store afterwards, and the receipt or the error. */
  function Commit(db: Db, batch: Batch): (Db, Result<Receipt, Failure>) {
    match FindDuplicate(db, batch.identity)
    case Found(receipt) => (db, Ok(receipt))
    case Conflict => (db, Err(IdempotencyConflict))
    case NoReceipt =>
      if !TaskHashesOk(batch.outbox) then (db, Err(ContractInvalid)) else
        match Transact(db, batch)
        case Err(e) => (db, Err(e))
        case Ok(db') => (db', Ok(MakeReceipt(batch, batch.expectedVersion)))
  }
}

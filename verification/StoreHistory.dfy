/** What every history of commits keeps, with repeats, rejections and foreign batches in any order. */
module StoreHistory {
  import opened CodeUnits
  import opened Envelopes
  import opened Store

  // ---------------------------------------------------------------- streams

  lemma {:induction false} StreamAppend(a: seq<Event>, b: seq<Event>, key: StreamKey)
    ensures Stream(a + b, key) == Stream(a, key) + Stream(b, key)
  {
    if b == [] {
      assert a + b == a;
    } else {
      assert (a + b)[..|a + b| - 1] == a + b[..|b| - 1];
      StreamAppend(a, b[..|b| - 1], key);
    }
  }

  lemma {:induction false} StreamOfOne(events: seq<Event>, owner: StreamKey, key: StreamKey)
    requires forall i :: 0 <= i < |events| ==> events[i].stream == owner
    ensures Stream(events, key) == if key == owner then events else []
  {
    if events != [] {
      StreamOfOne(events[..|events| - 1], owner, key);
    }
  }

  /** Every event of the journal is in its stream. */
  lemma {:induction false} StreamComplete(journal: seq<Event>, i: nat) returns (k: nat)
    requires i < |journal|
    ensures k < |Stream(journal, journal[i].stream)| && Stream(journal, journal[i].stream)[k] == journal[i]
  {
    var init := journal[..|journal| - 1];
    if i == |journal| - 1 {
      k := |Stream(init, journal[i].stream)|;
    } else {
      k := StreamComplete(init, i);
    }
  }

  /** Versions 1, 2, 3, ... */
  predicate Consecutive(events: seq<Event>) {
    forall k :: 0 <= k < |events| ==> events[k].version == k + 1
  }

  lemma {:induction false} ConsecutiveMax(events: seq<Event>)
    requires Consecutive(events)
    ensures MaxVersion(events) == |events|
  {
    if events != [] {
      ConsecutiveMax(events[..|events| - 1]);
    }
  }

  lemma InsertLast(e: Event, events: seq<Event>)
    requires events != [] ==> events[|events| - 1].version <= e.version
    ensures InsertByVersion(e, events) == events + [e]
  {
  }

  lemma {:induction false} ConsecutiveOrdered(events: seq<Event>)
    requires Consecutive(events)
    ensures OrderByVersion(events) == events
  {
    if events != [] {
      var init, last := events[..|events| - 1], events[|events| - 1];
      ConsecutiveOrdered(init);
      InsertLast(last, init);
      assert init + [last] == events;
    }
  }

  // ---------------------------------------------------------------- what insertion accepts

  /** Events that continue stream `key` after `version` and break no constraint. */
  predicate Fit(journal: seq<Event>, events: seq<Event>, key: StreamKey, version: int) {
    && (forall i :: 0 <= i < |events| ==>
         && events[i].stream == key && events[i].version == version + i + 1
         && events[i].payloadHash == OfValue(events[i].payload)
         && Insertable(journal, events[i]))
    && forall i, j :: 0 <= i < j < |events| ==> events[i].eventId != events[j].eventId
  }

  lemma {:induction false} InsertsFit(journal: seq<Event>, events: seq<Event>, key: StreamKey, version: int)
    ensures InsertEvents(journal, events, key, version).Ok? <==> Fit(journal, events, key, version)
    ensures InsertEvents(journal, events, key, version).Ok? ==>
              InsertEvents(journal, events, key, version).value == journal + events
    decreases |events|
  {
    if events == [] {
      assert journal + events == journal;
    } else {
      var rest, more := events[1..], journal + [events[0]];
      InsertsFit(more, rest, key, version + 1);
      assert more + rest == journal + events;
      if Fit(journal, events, key, version) {
        FitTail(journal, events, key, version);
      } else if InsertEvents(journal, events, key, version).Ok? {
        FitCons(journal, events, key, version);
      }
    }
  }

  lemma FitTail(journal: seq<Event>, events: seq<Event>, key: StreamKey, version: int)
    requires events != [] && Fit(journal, events, key, version)
    ensures Fit(journal + [events[0]], events[1..], key, version + 1)
  {
    var rest, more := events[1..], journal + [events[0]];
    forall i | 0 <= i < |rest|
      ensures rest[i].stream == key && rest[i].version == version + 1 + i + 1
      ensures rest[i].payloadHash == OfValue(rest[i].payload) && Insertable(more, rest[i])
    {
      assert rest[i] == events[i + 1] && Insertable(journal, events[i + 1]);
    }
  }

  lemma FitCons(journal: seq<Event>, events: seq<Event>, key: StreamKey, version: int)
    requires events != [] && Fit(journal + [events[0]], events[1..], key, version + 1)
    requires events[0].stream == key && events[0].version == version + 1
    requires events[0].payloadHash == OfValue(events[0].payload) && Insertable(journal, events[0])
    ensures Fit(journal, events, key, version)
  {
    var rest, more := events[1..], journal + [events[0]];
    forall i | 1 <= i < |events|
      ensures events[i].stream == key && events[i].version == version + i + 1
      ensures events[i].payloadHash == OfValue(events[i].payload) && Insertable(journal, events[i])
      ensures events[i].eventId != events[0].eventId
    {
      assert events[i] == rest[i - 1] && Insertable(more, rest[i - 1]);
      assert more[|journal|] == events[0];
      assert forall j :: 0 <= j < |journal| ==> more[j] == journal[j];
    }
    forall i, j | 0 <= i < j < |events|
      ensures events[i].eventId != events[j].eventId
    {
      if i > 0 {
        assert events[i] == rest[i - 1] && events[j] == rest[j - 1];
      }
    }
  }

  predicate AuditFit(audit: seq<Audit>, facts: seq<Audit>) {
    && (forall i :: 0 <= i < |facts| ==> AuditInsertable(audit, facts[i]))
    && forall i, j :: 0 <= i < j < |facts| ==> facts[i].auditId != facts[j].auditId
  }

  lemma {:induction false} AuditInsertsFit(audit: seq<Audit>, facts: seq<Audit>)
    ensures InsertAudit(audit, facts).Ok? <==> AuditFit(audit, facts)
    ensures InsertAudit(audit, facts) == if AuditFit(audit, facts) then Ok(audit + facts) else Err(StorageFailure)
    decreases |facts|
  {
    if facts == [] {
      assert audit + facts == audit;
    } else {
      var rest, more := facts[1..], audit + [facts[0]];
      AuditInsertsFit(more, rest);
      assert more + rest == audit + facts;
      assert more[|audit|] == facts[0] && forall j :: 0 <= j < |audit| ==> more[j] == audit[j];
      assert forall i :: 0 < i < |facts| ==> facts[i] == rest[i - 1];
      if AuditFit(audit, facts) {
        forall i | 0 <= i < |rest|
          ensures AuditInsertable(more, rest[i])
        {
          assert rest[i] == facts[i + 1] && AuditInsertable(audit, facts[i + 1]);
        }
      } else if AuditInsertable(audit, facts[0]) && AuditFit(more, rest) {
        forall i | 0 < i < |facts|
          ensures AuditInsertable(audit, facts[i]) && facts[i].auditId != facts[0].auditId
        {
          assert AuditInsertable(more, rest[i - 1]);
        }
        assert false;
      }
    }
  }

  // ---------------------------------------------------------------- the store invariant

  predicate DistinctEventIds(journal: seq<Event>) {
    forall i, j :: 0 <= i < j < |journal| ==> journal[i].eventId != journal[j].eventId
  }

  predicate DistinctRows(rows: seq<Row>) {
    forall i, j :: 0 <= i < j < |rows| ==> !Clashes(rows[i], rows[j].identity)
  }

  predicate DistinctTasks(tasks: seq<Task>) {
    forall i, j :: 0 <= i < j < |tasks| ==> !SameTask(tasks[i], tasks[j])
  }

  predicate DistinctAudit(audit: seq<Audit>) {
    forall i, j :: 0 <= i < j < |audit| ==> audit[i].auditId != audit[j].auditId
  }

  /** The sums over the receipts of what each says it wrote. */
  function EventSum(rows: seq<Row>): nat {
    if rows == [] then 0 else EventSum(rows[..|rows| - 1]) + |rows[|rows| - 1].receipt.base.eventIds|
  }

  function TaskSum(rows: seq<Row>): nat {
    if rows == [] then 0 else TaskSum(rows[..|rows| - 1]) + |rows[|rows| - 1].receipt.base.outboxTaskIds|
  }

  function AuditSum(rows: seq<Row>): nat {
    if rows == [] then 0 else AuditSum(rows[..|rows| - 1]) + |rows[|rows| - 1].receipt.base.auditIds|
  }

  /** The receipt names its command, carries its own hash, and lists the ids of the slice of its
      stream that ends at its version. */
  predicate Truthful(journal: seq<Event>, row: Row) {
    var base := row.receipt.base;
    var events := Stream(journal, base.stream);
    && base.commandId == row.identity.commandId
    && row.receipt.receiptHash == OfReceipt(base)
    && |base.eventIds| <= base.committedVersion <= |events|
    && EventIds(events[base.committedVersion - |base.eventIds|..base.committedVersion]) == base.eventIds
  }

  ghost predicate StreamsConsecutive(journal: seq<Event>) {
    forall key :: Consecutive(Stream(journal, key))
  }

  ghost predicate DbOk(db: Db) {
    && DistinctEventIds(db.journal)
    && StreamsConsecutive(db.journal)
    && DistinctRows(db.receipts)
    && DistinctTasks(db.outbox)
    && DistinctAudit(db.audit)
    && |db.journal| == EventSum(db.receipts)
    && |db.outbox| == TaskSum(db.receipts)
    && |db.audit| == AuditSum(db.receipts)
    && forall i :: 0 <= i < |db.receipts| ==> Truthful(db.journal, db.receipts[i])
  }

  /** `db'` has everything `db` has, in the same order, and possibly more. */
  predicate Grows(db: Db, db': Db) {
    db.journal <= db'.journal && db.receipts <= db'.receipts && db.outbox <= db'.outbox && db.audit <= db'.audit
  }

  /** What a transaction that goes through has found and does. */
  predicate Accepted(db: Db, batch: Batch, db': Db) {
    && TasksFresh(db.outbox, batch.outbox)
    && Fit(db.journal, batch.events, batch.stream, batch.expectedVersion)
    && AuditFit(db.audit, batch.audit)
    && CurrentVersion(db, batch.stream) == batch.expectedVersion
    && db' == Db(db.journal + batch.events,
                 db.receipts + [Row(batch.identity, MakeReceipt(batch, batch.expectedVersion))],
                 db.outbox + batch.outbox,
                 db.audit + batch.audit)
  }

  lemma TransactAccepts(db: Db, batch: Batch)
    ensures var r := Transact(db, batch); r.Ok? ==> Accepted(db, batch, r.value)
    ensures (TasksFresh(db.outbox, batch.outbox) && CurrentVersion(db, batch.stream) == batch.expectedVersion
             && Fit(db.journal, batch.events, batch.stream, batch.expectedVersion)
             && AuditFit(db.audit, batch.audit)) ==> Transact(db, batch).Ok?
  {
    InsertsFit(db.journal, batch.events, batch.stream, batch.expectedVersion);
    AuditInsertsFit(db.audit, batch.audit);
  }

  /** A batch without outbox tasks that fits its stream is committed. */
  lemma CommitAccepts(db: Db, batch: Batch)
    requires FindDuplicate(db, batch.identity).NoReceipt? && batch.outbox == []
    requires CurrentVersion(db, batch.stream) == batch.expectedVersion
    requires Fit(db.journal, batch.events, batch.stream, batch.expectedVersion) && AuditFit(db.audit, batch.audit)
    ensures Commit(db, batch).1 == Ok(MakeReceipt(batch, batch.expectedVersion))
    ensures Accepted(db, batch, Commit(db, batch).0)
  {
    TransactAccepts(db, batch);
  }

  lemma CommitGrows(db: Db, batch: Batch)
    ensures Grows(db, Commit(db, batch).0)
  {
    TransactAccepts(db, batch);
  }

  /** A clashing row is a stored row. */
  lemma {:induction false} ClashingSound(rows: seq<Row>, id: Identity)
    ensures Clashing(rows, id) == [] <==> forall i :: 0 <= i < |rows| ==> !Clashes(rows[i], id)
    ensures forall r :: r in Clashing(rows, id) ==> r in rows && Clashes(r, id)
  {
    if rows != [] {
      ClashingSound(rows[..|rows| - 1], id);
      assert rows == rows[..|rows| - 1] + [rows[|rows| - 1]];
    }
  }

  lemma StreamsKept(db: Db, batch: Batch, db': Db, key: StreamKey)
    requires StreamsConsecutive(db.journal) && Accepted(db, batch, db')
    ensures Stream(db'.journal, key) == Stream(db.journal, key) + if key == batch.stream then batch.events else []
    ensures Consecutive(Stream(db'.journal, key))
  {
    StreamAppend(db.journal, batch.events, key);
    StreamOfOne(batch.events, batch.stream, key);
    assert Consecutive(Stream(db.journal, key));
    ConsecutiveMax(Stream(db.journal, key));
  }

  lemma EventIdsSlice(a: seq<Event>, b: seq<Event>, lo: nat, hi: nat)
    requires lo <= hi <= |a|
    ensures EventIds((a + b)[lo..hi]) == EventIds(a[lo..hi])
  {
    assert (a + b)[lo..hi] == a[lo..hi];
  }

  lemma TruthfulKept(db: Db, batch: Batch, db': Db, row: Row)
    requires StreamsConsecutive(db.journal) && Accepted(db, batch, db') && Truthful(db.journal, row)
    ensures Truthful(db'.journal, row)
  {
    var base := row.receipt.base;
    var events := Stream(db.journal, base.stream);
    StreamsKept(db, batch, db', base.stream);
    EventIdsSlice(events, if base.stream == batch.stream then batch.events else [],
                  base.committedVersion - |base.eventIds|, base.committedVersion);
  }

  lemma NewRowTruthful(db: Db, batch: Batch, db': Db)
    requires StreamsConsecutive(db.journal) && Accepted(db, batch, db')
    ensures Truthful(db'.journal, Row(batch.identity, MakeReceipt(batch, batch.expectedVersion)))
  {
    var events, more := Stream(db.journal, batch.stream), batch.events;
    StreamsKept(db, batch, db', batch.stream);
    assert Consecutive(events);
    ConsecutiveMax(events);
    LastSlice(events, more);
  }

  lemma LastSlice(a: seq<Event>, b: seq<Event>)
    ensures EventIds((a + b)[|a|..|a| + |b|]) == EventIds(b)
  {
    assert (a + b)[|a|..|a| + |b|] == b;
  }

  lemma EventsStayDistinct(journal: seq<Event>, events: seq<Event>, key: StreamKey, version: int)
    requires DistinctEventIds(journal) && Fit(journal, events, key, version)
    ensures DistinctEventIds(journal + events)
  {
    var all := journal + events;
    forall i, j | 0 <= i < j < |all|
      ensures all[i].eventId != all[j].eventId
    {
      if i < |journal| && j >= |journal| {
        assert Insertable(journal, events[j - |journal|]);
      }
    }
  }

  lemma RowsStayDistinct(rows: seq<Row>, row: Row)
    requires DistinctRows(rows) && Clashing(rows, row.identity) == []
    ensures DistinctRows(rows + [row])
  {
    ClashingSound(rows, row.identity);
  }

  lemma TasksStayDistinct(stored: seq<Task>, tasks: seq<Task>)
    requires DistinctTasks(stored) && TasksFresh(stored, tasks)
    ensures DistinctTasks(stored + tasks)
  {
  }

  lemma AuditStaysDistinct(audit: seq<Audit>, facts: seq<Audit>)
    requires DistinctAudit(audit) && AuditFit(audit, facts)
    ensures DistinctAudit(audit + facts)
  {
    var all := audit + facts;
    forall i, j | 0 <= i < j < |all|
      ensures all[i].auditId != all[j].auditId
    {
      if i < |audit| && j >= |audit| {
        assert AuditInsertable(audit, facts[j - |audit|]);
      }
    }
  }

  lemma AcceptedKeepsTables(db: Db, batch: Batch, db': Db)
    requires DbOk(db) && Accepted(db, batch, db') && Clashing(db.receipts, batch.identity) == []
    ensures DistinctEventIds(db'.journal) && DistinctRows(db'.receipts)
    ensures DistinctTasks(db'.outbox) && DistinctAudit(db'.audit)
  {
    EventsStayDistinct(db.journal, batch.events, batch.stream, batch.expectedVersion);
    RowsStayDistinct(db.receipts, Row(batch.identity, MakeReceipt(batch, batch.expectedVersion)));
    TasksStayDistinct(db.outbox, batch.outbox);
    AuditStaysDistinct(db.audit, batch.audit);
  }

  lemma AcceptedKeepsSums(db: Db, batch: Batch, db': Db)
    requires Accepted(db, batch, db')
    ensures EventSum(db'.receipts) == EventSum(db.receipts) + |batch.events|
    ensures TaskSum(db'.receipts) == TaskSum(db.receipts) + |batch.outbox|
    ensures AuditSum(db'.receipts) == AuditSum(db.receipts) + |batch.audit|
  {
    assert db'.receipts[..|db'.receipts| - 1] == db.receipts;
  }

  lemma AcceptedKeepsReceipts(db: Db, batch: Batch, db': Db, i: nat)
    requires DbOk(db) && Accepted(db, batch, db') && i < |db'.receipts|
    ensures Truthful(db'.journal, db'.receipts[i])
  {
    if i < |db.receipts| {
      TruthfulKept(db, batch, db', db.receipts[i]);
    } else {
      NewRowTruthful(db, batch, db');
    }
  }

  lemma AcceptedKeeps(db: Db, batch: Batch, db': Db)
    requires DbOk(db) && Accepted(db, batch, db') && Clashing(db.receipts, batch.identity) == []
    ensures DbOk(db')
  {
    AcceptedKeepsTables(db, batch, db');
    AcceptedKeepsSums(db, batch, db');
    forall key
      ensures Consecutive(Stream(db'.journal, key))
    {
      StreamsKept(db, batch, db', key);
    }
    forall i | 0 <= i < |db'.receipts|
      ensures Truthful(db'.journal, db'.receipts[i])
    {
      AcceptedKeepsReceipts(db, batch, db', i);
    }
  }

  lemma CommitKeeps(db: Db, batch: Batch)
    requires DbOk(db)
    ensures DbOk(Commit(db, batch).0)
  {
    TransactAccepts(db, batch);
    if FindDuplicate(db, batch.identity).NoReceipt? && Transact(db, batch).Ok? {
      AcceptedKeeps(db, batch, Transact(db, batch).value);
    }
  }

  /** A commit either changes nothing or is an accepted transaction. */
  lemma CommitCases(db: Db, batch: Batch)
    ensures Commit(db, batch).0 == db
            || (Accepted(db, batch, Commit(db, batch).0) && FindDuplicate(db, batch.identity).NoReceipt?
                && Commit(db, batch).1 == Ok(MakeReceipt(batch, batch.expectedVersion)))
  {
    TransactAccepts(db, batch);
  }

  // ---------------------------------------------------------------- histories

  function After(db: Db, batches: seq<Batch>): Db
    decreases |batches|
  {
    if batches == [] then db else After(Commit(db, batches[0]).0, batches[1..])
  }

  /** The answer to request `i` of the history. */
  function Reply(db: Db, batches: seq<Batch>, i: nat): Result<Receipt, Failure>
    requires i < |batches|
  {
    Commit(After(db, batches[..i]), batches[i]).1
  }

  lemma {:induction false} AfterSplit(db: Db, a: seq<Batch>, b: seq<Batch>)
    ensures After(db, a + b) == After(After(db, a), b)
    decreases |a|
  {
    if a == [] {
      assert a + b == b;
    } else {
      assert (a + b)[1..] == a[1..] + b;
      AfterSplit(Commit(db, a[0]).0, a[1..], b);
    }
  }

  lemma {:induction false} HistoryKeeps(db: Db, batches: seq<Batch>)
    requires DbOk(db)
    ensures DbOk(After(db, batches)) && Grows(db, After(db, batches))
    decreases |batches|
  {
    if batches != [] {
      CommitKeeps(db, batches[0]);
      CommitGrows(db, batches[0]);
      HistoryKeeps(Commit(db, batches[0]).0, batches[1..]);
    }
  }

  lemma ReadsStream(db: Db, key: StreamKey, limit: nat)
    requires StreamsConsecutive(db.journal)
    ensures Consecutive(Stream(db.journal, key)) && CurrentVersion(db, key) == |Stream(db.journal, key)|
    ensures ReadEvents(db, key, limit) == Take(Stream(db.journal, key), limit)
  {
    assert Consecutive(Stream(db.journal, key));
    ConsecutiveMax(Stream(db.journal, key));
    ConsecutiveOrdered(Stream(db.journal, key));
  }

  /** Every history of commits from an empty store: the versions of each stream are exactly
      1, 2, ..., n in insertion order, which is the order `readEvents` returns them in. */
  lemma StreamsAreNumbered(batches: seq<Batch>, key: StreamKey, limit: nat)
    ensures var db := After(EMPTY, batches);
      && Consecutive(Stream(db.journal, key))
      && CurrentVersion(db, key) == |Stream(db.journal, key)|
      && ReadEvents(db, key, limit) == Take(Stream(db.journal, key), limit)
  {
    EmptyIsOk();
    HistoryKeeps(EMPTY, batches);
    ReadsStream(After(EMPTY, batches), key, limit);
  }

  lemma EmptyIsOk()
    ensures DbOk(EMPTY)
  {
  }

  /** What `recover` counts is what the receipts say was written. */
  lemma RecoverCountsReceipts(batches: seq<Batch>)
    ensures var db := After(EMPTY, batches);
      |db.journal| == EventSum(db.receipts) && |db.outbox| == TaskSum(db.receipts)
      && |db.audit| == AuditSum(db.receipts)
  {
    EmptyIsOk();
    HistoryKeeps(EMPTY, batches);
  }

  lemma {:induction false} ClashingAppend(a: seq<Row>, b: seq<Row>, id: Identity)
    ensures Clashing(a + b, id) == Clashing(a, id) + Clashing(b, id)
  {
    if b == [] {
      assert a + b == a;
    } else {
      assert (a + b)[..|a + b| - 1] == a + b[..|b| - 1];
      ClashingAppend(a, b[..|b| - 1], id);
    }
  }

  lemma NoneClash(rows: seq<Row>, id: Identity)
    requires forall r :: r in rows ==> !Clashes(r, id)
    ensures Clashing(rows, id) == []
  {
    ClashingSound(rows, id);
  }

  lemma OnlyOneClashes(a: seq<Row>, row: Row, b: seq<Row>)
    requires (forall r :: r in a ==> !Clashes(r, row.identity)) && (forall r :: r in b ==> !Clashes(r, row.identity))
    ensures Clashing(a + [row] + b, row.identity) == [row]
  {
    NoneClash(a, row.identity);
    NoneClash(b, row.identity);
    ClashingAppend(a + [row], b, row.identity);
    assert (a + [row])[..|a|] == a;
  }

  /** A stored receipt is found by its own identity, and by it alone. */
  lemma RowIsFound(db: Db, i: nat)
    requires DistinctRows(db.receipts) && i < |db.receipts|
    ensures FindDuplicate(db, db.receipts[i].identity) == Found(db.receipts[i].receipt)
  {
    var rows := db.receipts;
    assert rows == rows[..i] + [rows[i]] + rows[i + 1..];
    forall r | r in rows[i + 1..]
      ensures !Clashes(r, rows[i].identity)
    {
      var j :| 0 <= j < |rows[i + 1..]| && rows[i + 1..][j] == r;
      assert r == rows[i + 1 + j] && !Clashes(rows[i], r.identity);
    }
    OnlyOneClashes(rows[..i], rows[i], rows[i + 1..]);
  }

  lemma FoundIsRow(db: Db, id: Identity) returns (i: nat)
    requires FindDuplicate(db, id).Found?
    ensures i < |db.receipts| && db.receipts[i] == Row(id, FindDuplicate(db, id).receipt)
  {
    ClashingSound(db.receipts, id);
    var row := Clashing(db.receipts, id)[0];
    assert row in Clashing(db.receipts, id);
    i :| 0 <= i < |db.receipts| && db.receipts[i] == row;
  }

  /** Once found, a receipt is found for ever. */
  lemma FoundForever(db: Db, db': Db, id: Identity)
    requires DbOk(db) && DbOk(db') && Grows(db, db') && FindDuplicate(db, id).Found?
    ensures FindDuplicate(db', id) == FindDuplicate(db, id)
  {
    var i := FoundIsRow(db, id);
    RowIsFound(db', i);
  }

  lemma SuccessIsFound(db: Db, batch: Batch)
    requires DbOk(db) && Commit(db, batch).1.Ok?
    ensures FindDuplicate(Commit(db, batch).0, batch.identity) == Found(Commit(db, batch).1.value)
  {
    CommitKeeps(db, batch);
    if FindDuplicate(db, batch.identity).NoReceipt? {
      TransactAccepts(db, batch);
      RowIsFound(Commit(db, batch).0, |db.receipts|);
    }
  }

  /** A command that succeeded once: however the history goes on, sending it again changes nothing
      and gets the first receipt, even if the repeated batch carries other events. */
  lemma RepeatsGetTheFirstReceipt(db: Db, batch: Batch, more: seq<Batch>, again: Batch)
    requires DbOk(db) && Commit(db, batch).1.Ok? && again.identity == batch.identity
    ensures var later := After(Commit(db, batch).0, more);
      Commit(later, again) == (later, Commit(db, batch).1)
  {
    SuccessIsFound(db, batch);
    CommitKeeps(db, batch);
    HistoryKeeps(Commit(db, batch).0, more);
    FoundForever(Commit(db, batch).0, After(Commit(db, batch).0, more), batch.identity);
  }

  /** The requests of a history that are the first success of their identity. */
  function Kept(db: Db, batches: seq<Batch>): seq<Batch>
    decreases |batches|
  {
    if batches == [] then [] else
      (if FindDuplicate(db, batches[0].identity).NoReceipt? && Commit(db, batches[0]).1.Ok? then [batches[0]] else [])
      + Kept(Commit(db, batches[0]).0, batches[1..])
  }

  /** Dropping every repeat and every rejected request from a history gives the same store. */
  lemma {:induction false} KeptGivesTheSameStore(db: Db, batches: seq<Batch>)
    ensures After(db, Kept(db, batches)) == After(db, batches)
    decreases |batches|
  {
    if batches != [] {
      var b, rest := batches[0], batches[1..];
      var db' := Commit(db, b).0;
      KeptGivesTheSameStore(db', rest);
      if FindDuplicate(db, b.identity).NoReceipt? && Commit(db, b).1.Ok? {
        assert ([b] + Kept(db', rest))[1..] == Kept(db', rest);
      } else {
        assert db' == db;
        assert [] + Kept(db, rest) == Kept(db, rest);
      }
    }
  }

  /** A request that succeeded is found by every later request with its identity. */
  lemma EarlierSuccessIsFound(batches: seq<Batch>, j: nat, i: nat)
    requires j < i <= |batches| && Reply(EMPTY, batches, j).Ok?
    ensures FindDuplicate(After(EMPTY, batches[..i]), batches[j].identity).Found?
  {
    var before, b, between := After(EMPTY, batches[..j]), batches[j], batches[j + 1..i];
    EmptyIsOk();
    HistoryKeeps(EMPTY, batches[..j]);
    SuccessIsFound(before, b);
    CommitKeeps(before, b);
    HistoryKeeps(Commit(before, b).0, between);
    FoundForever(Commit(before, b).0, After(Commit(before, b).0, between), b.identity);
    assert batches[..i] == batches[..j] + ([b] + between);
    AfterSplit(EMPTY, batches[..j], [b] + between);
    assert ([b] + between)[1..] == between;
  }

  /** A commit that makes a receipt appear is one with its identity, and it succeeds. */
  lemma ReceiptAppears(db: Db, batch: Batch, id: Identity)
    requires DbOk(db) && !FindDuplicate(db, id).Found? && FindDuplicate(Commit(db, batch).0, id).Found?
    ensures batch.identity == id && Commit(db, batch).1.Ok?
  {
    TransactAccepts(db, batch);
    var k := FoundIsRow(Commit(db, batch).0, id);
    if k < |db.receipts| {
      RowIsFound(db, k);
    }
  }

  /** A receipt in a store that began empty was earned by some request of the history. */
  lemma {:induction false} FirstSender(batches: seq<Batch>, id: Identity) returns (j: nat)
    requires FindDuplicate(After(EMPTY, batches), id).Found?
    ensures j < |batches| && batches[j].identity == id && Reply(EMPTY, batches, j).Ok?
  {
    j := 0;
    if batches != [] {
      var init, last := batches[..|batches| - 1], batches[|batches| - 1];
      assert batches == init + [last];
      AfterSplit(EMPTY, init, [last]);
      assert After(EMPTY, batches) == Commit(After(EMPTY, init), last).0;
      EmptyIsOk();
      HistoryKeeps(EMPTY, init);
      if FindDuplicate(After(EMPTY, init), id).Found? {
        j := FirstSender(init, id);
        assert init[..j] == batches[..j];
      } else {
        j := |batches| - 1;
        ReceiptAppears(After(EMPTY, init), last, id);
      }
    }
  }

  /** "First success" means what it says: request `i` is kept iff it succeeds and no earlier request
      with its identity did. */
  lemma KeptIsFirstSuccess(batches: seq<Batch>, i: nat)
    requires i < |batches| && Reply(EMPTY, batches, i).Ok?
    ensures FindDuplicate(After(EMPTY, batches[..i]), batches[i].identity).NoReceipt? <==>
            forall j :: 0 <= j < i && batches[j].identity == batches[i].identity ==> Reply(EMPTY, batches, j).Err?
  {
    var found := FindDuplicate(After(EMPTY, batches[..i]), batches[i].identity);
    forall j | 0 <= j < i && batches[j].identity == batches[i].identity && Reply(EMPTY, batches, j).Ok?
      ensures found.Found?
    {
      EarlierSuccessIsFound(batches, j, i);
    }
    if found.Found? {
      var j := FirstSender(batches[..i], batches[i].identity);
      assert batches[..i][..j] == batches[..j];
    }
  }

  /** Once an identity conflicts, it conflicts for ever. */
  lemma ConflictForever(db: Db, db': Db, id: Identity)
    requires db.receipts <= db'.receipts && FindDuplicate(db, id).Conflict?
    ensures FindDuplicate(db', id).Conflict?
  {
    var added := db'.receipts[|db.receipts|..];
    assert db'.receipts == db.receipts + added;
    ClashingAppend(db.receipts, added, id);
  }

  /** The check before BEGIN may look at an older store than the transaction does: unless the batch
      itself is malformed, the answer is that of a commit on the later store. */
  lemma EarlyCheckIsSafe(db: Db, batch: Batch, more: seq<Batch>)
    requires DbOk(db)
    ensures var later := After(db, more);
      match FindDuplicate(db, batch.identity)
      case Found(receipt) => Commit(later, batch) == (later, Ok(receipt))
      case Conflict => Commit(later, batch) == (later, Err(IdempotencyConflict))
      case NoReceipt => true
  {
    HistoryKeeps(db, more);
    var later := After(db, more);
    match FindDuplicate(db, batch.identity)
    case Found(receipt) => FoundForever(db, later, batch.identity);
    case Conflict => ConflictForever(db, later, batch.identity);
    case NoReceipt =>
  }

  // ---------------------------------------------------------------- the four identity columns

  /** Two commands share their id, or their idempotency key and its scope. */
  predicate Shared(a: Identity, b: Identity) {
    a.commandId == b.commandId || (a.idempotencyKey == b.idempotencyKey && a.effectScope == b.effectScope)
  }

  lemma {:induction false} SharingRowIsListed(rows: seq<Row>, id: Identity, i: nat)
    requires i < |rows| && Shared(rows[i].identity, id)
    ensures rows[i] in Clashing(rows, id)
  {
    if i < |rows| - 1 {
      SharingRowIsListed(rows[..|rows| - 1], id, i);
    }
  }

  /** A command that shares its id, or its idempotency key and scope, with a stored row that is not the same
      in all four columns is refused, and nothing changes. */
  lemma ReusedIdentityIsRefused(db: Db, batch: Batch, i: nat)
    requires i < |db.receipts| && Shared(db.receipts[i].identity, batch.identity)
    requires db.receipts[i].identity != batch.identity
    ensures Commit(db, batch) == (db, Err(IdempotencyConflict))
  {
    SharingRowIsListed(db.receipts, batch.identity, i);
  }

  /** What a lookup answers, on the columns of the stored rows. */
  lemma LookupSays(db: Db, id: Identity)
    requires DbOk(db)
    ensures FindDuplicate(db, id).NoReceipt? <==> forall i :: 0 <= i < |db.receipts| ==> !Shared(db.receipts[i].identity, id)
    ensures FindDuplicate(db, id).Conflict? <==>
      exists i :: 0 <= i < |db.receipts| && Shared(db.receipts[i].identity, id) && db.receipts[i].identity != id
    ensures forall receipt :: FindDuplicate(db, id) == Found(receipt) <==> Row(id, receipt) in db.receipts
  {
    ClashingSound(db.receipts, id);
    if i :| 0 <= i < |db.receipts| && Shared(db.receipts[i].identity, id) && db.receipts[i].identity != id {
      SharingRowIsListed(db.receipts, id, i);
    }
    if FindDuplicate(db, id).Conflict? {
      var row := Clashing(db.receipts, id)[0];
      assert row in Clashing(db.receipts, id);
      var i :| 0 <= i < |db.receipts| && db.receipts[i] == row;
      if row.identity == id {
        RowIsFound(db, i);
      }
    }
    forall receipt
      ensures FindDuplicate(db, id) == Found(receipt) <==> Row(id, receipt) in db.receipts
    {
      if Row(id, receipt) in db.receipts {
        var i :| 0 <= i < |db.receipts| && db.receipts[i] == Row(id, receipt);
        RowIsFound(db, i);
      }
      if FindDuplicate(db, id) == Found(receipt) {
        var i := FoundIsRow(db, id);
      }
    }
  }

  /** After any history no two receipts share a command id, and no two share idempotency key and scope. */
  lemma ReceiptsAreApart(batches: seq<Batch>, i: nat, j: nat)
    requires i < j < |After(EMPTY, batches).receipts|
    ensures var a, b := After(EMPTY, batches).receipts[i].identity, After(EMPTY, batches).receipts[j].identity;
      a.commandId != b.commandId && !(a.idempotencyKey == b.idempotencyKey && a.effectScope == b.effectScope)
  {
    EmptyIsOk();
    HistoryKeeps(EMPTY, batches);
    assert !Clashes(After(EMPTY, batches).receipts[i], After(EMPTY, batches).receipts[j].identity);
  }

  // ---------------------------------------------------------------- what the receipts account for

  function ListedEvents(rows: seq<Row>): seq<Id> {
    if rows == [] then [] else ListedEvents(rows[..|rows| - 1]) + rows[|rows| - 1].receipt.base.eventIds
  }

  function ListedTasks(rows: seq<Row>): seq<Id> {
    if rows == [] then [] else ListedTasks(rows[..|rows| - 1]) + rows[|rows| - 1].receipt.base.outboxTaskIds
  }

  function ListedAudit(rows: seq<Row>): seq<Id> {
    if rows == [] then [] else ListedAudit(rows[..|rows| - 1]) + rows[|rows| - 1].receipt.base.auditIds
  }

  /** The receipts, one after another, list exactly the rows of the three tables, in the order of the tables. */
  predicate Accounted(db: Db) {
    && |ListedEvents(db.receipts)| == |db.journal| && |ListedTasks(db.receipts)| == |db.outbox|
    && |ListedAudit(db.receipts)| == |db.audit|
    && (forall i :: 0 <= i < |db.journal| ==> db.journal[i].eventId == ListedEvents(db.receipts)[i])
    && (forall i :: 0 <= i < |db.outbox| ==> db.outbox[i].taskId == ListedTasks(db.receipts)[i])
    && forall i :: 0 <= i < |db.audit| ==> db.audit[i].auditId == ListedAudit(db.receipts)[i]
  }

  /** Every stored event and task carries the hash of its payload. */
  predicate Hashed(db: Db) {
    && (forall i :: 0 <= i < |db.journal| ==> db.journal[i].payloadHash == OfValue(db.journal[i].payload))
    && forall i :: 0 <= i < |db.outbox| ==> db.outbox[i].payloadHash == OfValue(db.outbox[i].payload)
  }

  lemma AcceptedIsAccounted(db: Db, batch: Batch, db': Db)
    requires Accounted(db) && Accepted(db, batch, db')
    ensures Accounted(db')
  {
    assert db'.receipts[..|db'.receipts| - 1] == db.receipts;
  }

  lemma AcceptedIsHashed(db: Db, batch: Batch, db': Db)
    requires Hashed(db) && Accepted(db, batch, db')
    requires forall i :: 0 <= i < |batch.outbox| ==> batch.outbox[i].payloadHash == OfValue(batch.outbox[i].payload)
    ensures Hashed(db')
  {
  }

  /** Over any history, whatever the requests hold: the receipts account for every row of every table, and
      every stored hash is the hash of what is stored with it. */
  lemma {:induction false} TablesAreAccounted(db: Db, batches: seq<Batch>)
    requires Accounted(db) && Hashed(db)
    ensures Accounted(After(db, batches)) && Hashed(After(db, batches))
    decreases |batches|
  {
    if batches != [] {
      var db' := Commit(db, batches[0]).0;
      TransactAccepts(db, batches[0]);
      if db' != db {
        AcceptedIsAccounted(db, batches[0], db');
        AcceptedIsHashed(db, batches[0], db');
      }
      TablesAreAccounted(db', batches[1..]);
    }
  }

  /** What a receipt says of the commit that made it. */
  lemma ReceiptTells(db: Db, batch: Batch, receipt: Receipt)
    requires DbOk(db) && FindDuplicate(db, batch.identity).NoReceipt? && Commit(db, batch).1 == Ok(receipt)
    ensures var base, db' := receipt.base, Commit(db, batch).0;
      && base.transactionId == batch.transactionId && base.commandId == batch.identity.commandId
      && base.committedAt == batch.capturedAt && base.stream == batch.stream
      && base.committedVersion == |Stream(db'.journal, batch.stream)|
      && db'.receipts == db.receipts + [Row(batch.identity, receipt)]
      && db'.journal == db.journal + batch.events && db'.outbox == db.outbox + batch.outbox && db'.audit == db.audit + batch.audit
  {
    TransactAccepts(db, batch);
    ReadsStream(db, batch.stream, 0);
    StreamsKept(db, batch, Commit(db, batch).0, batch.stream);
  }

  // ---------------------------------------------------------------- why a commit is refused

  /** Two tasks share their id, or their idempotency key and its scope. */
  predicate SharedTask(t: Task, u: Task) {
    t.taskId == u.taskId || (t.idempotencyKey == u.idempotencyKey && t.effectScope == u.effectScope)
  }

  predicate HashesHold(tasks: seq<Task>) { forall i :: 0 <= i < |tasks| ==> tasks[i].payloadHash == OfValue(tasks[i].payload) }

  /** No task shares with another of the batch or with a stored one. */
  predicate Unshared(stored: seq<Task>, tasks: seq<Task>) {
    forall i, j :: 0 <= i < j < |stored| + |tasks| && j >= |stored| ==> !SharedTask((stored + tasks)[i], (stored + tasks)[j])
  }

  lemma UnsharedIsFresh(stored: seq<Task>, tasks: seq<Task>)
    ensures Unshared(stored, tasks) <==> TasksFresh(stored, tasks)
  {
    var all := stored + tasks;
    if Unshared(stored, tasks) {
      forall i, j | 0 <= i < j < |tasks|
        ensures !SameTask(tasks[i], tasks[j])
      {
        assert !SharedTask(all[|stored| + i], all[|stored| + j]);
      }
      forall i, j | 0 <= i < |stored| && 0 <= j < |tasks|
        ensures !SameTask(stored[i], tasks[j])
      {
        assert !SharedTask(all[i], all[|stored| + j]);
      }
    }
  }

  /** Why event `e` does not come next. */
  function Misfit(e: Event, key: StreamKey, version: int): Failure {
    if e.stream != key || e.version != version then OptimisticConcurrency
    else if e.payloadHash != OfValue(e.payload) then ContractInvalid
    else StorageFailure
  }

  lemma MisfitAtOnce(journal: seq<Event>, events: seq<Event>, key: StreamKey, version: int)
    requires events != [] && !Fit(journal, events[..1], key, version)
    ensures InsertEvents(journal, events, key, version) == Err(Misfit(events[0], key, version + 1))
  {
    assert events[..1] == [events[0]];
  }

  lemma FitsFirst(journal: seq<Event>, events: seq<Event>, key: StreamKey, version: int)
    requires events != [] && Fit(journal, events, key, version)
    ensures events[0].stream == key && events[0].version == version + 1
    ensures events[0].payloadHash == OfValue(events[0].payload) && Insertable(journal, events[0])
  {
  }

  /** The first event that does not fit decides how the insertion fails. */
  lemma {:induction false} FirstMisfitDecides(journal: seq<Event>, events: seq<Event>, key: StreamKey, version: int, i: nat)
    requires i < |events| && Fit(journal, events[..i], key, version) && !Fit(journal, events[..i + 1], key, version)
    ensures InsertEvents(journal, events, key, version) == Err(Misfit(events[i], key, version + i + 1))
    decreases i
  {
    hide Fit, Insertable, Misfit;
    if i > 0 {
      var rest, more := events[1..], journal + [events[0]];
      assert events[..i][0] == events[0] && events[..i][1..] == rest[..i - 1] && events[..i + 1][1..] == rest[..i];
      FitsFirst(journal, events[..i], key, version);
      FitTail(journal, events[..i], key, version);
      if Fit(more, rest[..i], key, version + 1) {
        FitCons(journal, events[..i + 1], key, version);
      }
      FirstMisfitDecides(more, rest, key, version + 1, i - 1);
    } else {
      MisfitAtOnce(journal, events, key, version);
    }
  }

  lemma {:induction false} SomeMisfit(journal: seq<Event>, events: seq<Event>, key: StreamKey, version: int) returns (i: nat)
    requires !Fit(journal, events, key, version)
    ensures i < |events| && Fit(journal, events[..i], key, version) && !Fit(journal, events[..i + 1], key, version)
  {
    var init := events[..|events| - 1];
    if Fit(journal, init, key, version) {
      i := |init|;
      assert events[..i + 1] == events;
    } else {
      i := SomeMisfit(journal, init, key, version);
      assert init[..i] == events[..i] && init[..i + 1] == events[..i + 1];
    }
  }

  /** A command without a receipt is refused, without trace, for the first of these reasons that applies,
      and committed when none does. */
  lemma CommitRefuses(db: Db, batch: Batch)
    requires DbOk(db) && FindDuplicate(db, batch.identity).NoReceipt?
    ensures Commit(db, batch).1.Err? ==> Commit(db, batch).0 == db
    ensures !HashesHold(batch.outbox) ==> Commit(db, batch).1 == Err(ContractInvalid)
    ensures HashesHold(batch.outbox) && !Unshared(db.outbox, batch.outbox) ==> Commit(db, batch).1 == Err(IdempotencyConflict)
    ensures HashesHold(batch.outbox) && Unshared(db.outbox, batch.outbox) ==>
      if |Stream(db.journal, batch.stream)| != batch.expectedVersion then Commit(db, batch).1 == Err(OptimisticConcurrency)
      else if !Fit(db.journal, batch.events, batch.stream, batch.expectedVersion) then
        exists i :: 0 <= i < |batch.events| && Fit(db.journal, batch.events[..i], batch.stream, batch.expectedVersion)
          && !Fit(db.journal, batch.events[..i + 1], batch.stream, batch.expectedVersion)
          && Commit(db, batch).1 == Err(Misfit(batch.events[i], batch.stream, batch.expectedVersion + i + 1))
      else if !AuditFit(db.audit, batch.audit) then Commit(db, batch).1 == Err(StorageFailure)
      else Commit(db, batch).1.Ok?
  {
    UnsharedIsFresh(db.outbox, batch.outbox);
    ReadsStream(db, batch.stream, 0);
    InsertsFit(db.journal, batch.events, batch.stream, batch.expectedVersion);
    AuditInsertsFit(db.audit, batch.audit);
    if !Fit(db.journal, batch.events, batch.stream, batch.expectedVersion) {
      var i := SomeMisfit(db.journal, batch.events, batch.stream, batch.expectedVersion);
      FirstMisfitDecides(db.journal, batch.events, batch.stream, batch.expectedVersion, i);
    }
  }
}

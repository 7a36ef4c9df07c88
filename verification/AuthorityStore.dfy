/** The persistence worker: tables changed in place between BEGIN, COMMIT and ROLLBACK. */
module AuthorityStore {
  import opened CodeUnits
  import opened Envelopes
  import opened Store

  lemma Next<T>(s: seq<T>, index: nat)
    requires index < |s|
    ensures s[index..] != [] && s[index..][0] == s[index] && s[index..][1..] == s[index + 1..]
  {
  }

  class Worker {
    var journal: seq<Event>
    var receipts: seq<Row>
    var outbox: seq<Task>
    var audit: seq<Audit>

    function Contents(): Db
      reads this
    {
      Db(journal, receipts, outbox, audit)
    }

    constructor ()
      ensures Contents() == EMPTY
    {
      journal, receipts, outbox, audit := [], [], [], [];
    }

    method FindCommandDuplicate(id: Identity) returns (r: Lookup)
      ensures r == FindDuplicate(Contents(), id)
    {
      var matches: seq<Row> := [];
      var index := 0;
      while index < |receipts|
        invariant 0 <= index <= |receipts| && matches == Clashing(receipts[..index], id)
      {
        assert receipts[..index + 1][..index] == receipts[..index];
        if Clashes(receipts[index], id) {
          matches := matches + [receipts[index]];
        }
        index := index + 1;
      }
      assert receipts[..index] == receipts;
      if |matches| == 0 {
        r := NoReceipt;
      } else if |matches| != 1 || matches[0].identity != id {
        r := Conflict;
      } else {
        r := Found(matches[0].receipt);
      }
    }

    /** True iff no identity repeats inside the batch or is already stored. */
    method VerifyOutboxIdentities(tasks: seq<Task>) returns (unused: bool)
      ensures unused == TasksFresh(outbox, tasks)
    {
      var taskIds: set<Id> := {};
      var idempotencyPairs: set<(Id, Text)> := {};
      var index := 0;
      while index < |tasks|
        invariant 0 <= index <= |tasks|
        invariant taskIds == set i | 0 <= i < index :: tasks[i].taskId
        invariant idempotencyPairs == set i | 0 <= i < index :: (tasks[i].idempotencyKey, tasks[i].effectScope)
        invariant forall i, j :: 0 <= i < j < index ==> !SameTask(tasks[i], tasks[j])
        invariant forall i, j :: 0 <= i < |outbox| && 0 <= j < index ==> !SameTask(outbox[i], tasks[j])
      {
        var task := tasks[index];
        var pair := (task.idempotencyKey, task.effectScope);
        if task.taskId in taskIds || pair in idempotencyPairs {
          assert exists i :: 0 <= i < index && SameTask(tasks[i], tasks[index]);
          return false;
        }
        taskIds := taskIds + {task.taskId};
        idempotencyPairs := idempotencyPairs + {pair};
        if exists i :: 0 <= i < |outbox| && SameTask(outbox[i], task) {
          return false;
        }
        index := index + 1;
      }
      unused := true;
    }

    method InsertEventRow(e: Event) returns (ok: bool)
      modifies this`journal
      ensures ok == Insertable(old(journal), e)
      ensures journal == if ok then old(journal) + [e] else old(journal)
    {
      ok := Insertable(journal, e);
      if ok {
        journal := journal + [e];
      }
    }

    /** Appends the events of the batch, or reports the first one that is refused. */
    method AppendEvents(batch: Batch, current: int) returns (error: Option<Failure>)
      modifies this`journal
      ensures match InsertEvents(old(journal), batch.events, batch.stream, current)
              case Ok(j) => error == None && journal == j
              case Err(e) => error == Some(e)
    {
      error := None;
      var index := 0;
      while index < |batch.events|
        invariant 0 <= index <= |batch.events|
        invariant InsertEvents(old(journal), batch.events, batch.stream, current) ==
                  InsertEvents(journal, batch.events[index..], batch.stream, current + index)
      {
        var event := batch.events[index];
        Next(batch.events, index);
        if event.stream != batch.stream || event.version != current + index + 1 {
          return Some(OptimisticConcurrency);
        }
        if event.payloadHash != OfValue(event.payload) {
          return Some(ContractInvalid);
        }
        var ok := InsertEventRow(event);
        if !ok {
          return Some(StorageFailure);
        }
        index := index + 1;
      }
    }

    method InsertTaskRow(t: Task)
      requires forall i :: 0 <= i < |outbox| ==> !SameTask(outbox[i], t)   // the UNIQUE constraints
      modifies this`outbox
      ensures outbox == old(outbox) + [t]
    {
      outbox := outbox + [t];
    }

    method AppendTasks(tasks: seq<Task>)
      requires TasksFresh(outbox, tasks)
      modifies this`outbox
      ensures outbox == old(outbox) + tasks
    {
      var index := 0;
      while index < |tasks|
        invariant 0 <= index <= |tasks| && outbox == old(outbox) + tasks[..index]
      {
        InsertTaskRow(tasks[index]);
        index := index + 1;
      }
    }

    method AppendAudit(facts: seq<Audit>) returns (ok: bool)
      modifies this`audit
      ensures match InsertAudit(old(audit), facts)
              case Ok(a) => ok && audit == a
              case Err(e) => !ok && e == StorageFailure
    {
      ok := true;
      var index := 0;
      while index < |facts|
        invariant 0 <= index <= |facts|
        invariant InsertAudit(old(audit), facts) == InsertAudit(audit, facts[index..])
      {
        Next(facts, index);
        if !AuditInsertable(audit, facts[index]) {
          return false;
        }
        audit := audit + [facts[index]];
        index := index + 1;
      }
    }

    /** The body of the write transaction; a refusal may leave the tables half written. */
    method WriteBatch(batch: Batch) returns (r: Result<Receipt, Failure>)
      modifies this
      ensures match Transact(old(Contents()), batch)
              case Ok(db) => Contents() == db && r == Ok(MakeReceipt(batch, batch.expectedVersion))
              case Err(e) => r == Err(e)
    {
      var unused := VerifyOutboxIdentities(batch.outbox);
      if !unused {
        return Err(IdempotencyConflict);
      }
      var current := CurrentVersion(Contents(), batch.stream);
      if current != batch.expectedVersion {
        return Err(OptimisticConcurrency);
      }
      var refused := AppendEvents(batch, current);
      if refused.Some? {
        return Err(refused.value);
      }
      AppendTasks(batch.outbox);
      var ok := AppendAudit(batch.audit);
      if !ok {
        return Err(StorageFailure);
      }
      var receipt := MakeReceipt(batch, current);
      receipts := receipts + [Row(batch.identity, receipt)];
      r := Ok(receipt);
    }

    /** `commitBatch`: the store becomes, and the caller gets, exactly what `Commit` says; whatever
        a refused transaction had written is rolled back. */
    method CommitBatch(batch: Batch) returns (r: Result<Receipt, Failure>)
      modifies this
      ensures (Contents(), r) == Commit(old(Contents()), batch)
    {
      var duplicate := FindCommandDuplicate(batch.identity);
      if duplicate.Found? {
        return Ok(duplicate.receipt);
      }
      if duplicate.Conflict? {
        return Err(IdempotencyConflict);
      }
      if !TaskHashesOk(batch.outbox) {
        return Err(ContractInvalid);
      }
      // BEGIN IMMEDIATE
      var begun := Contents();
      var again := FindCommandDuplicate(batch.identity);
      assert again.NoReceipt?;
      r := WriteBatch(batch);
      if r.Err? {
        // ROLLBACK
        journal, receipts, outbox, audit := begun.journal, begun.receipts, begun.outbox, begun.audit;
      }
    }
  }
}

/** `execute`, cut at every `await`. */
module WorkflowService {
  // Any number of calls, in any number of services, interleave over one store.  The service is generic
  // in the aggregate's definition; `limit` is the row limit of `readEvents`.
  import opened CodeUnits
  import opened Envelopes
  import opened Store
  import opened StoreHistory
  import opened Kernel

  datatype Refusal = PreparedAgainstOther | CommittedAgainstOther   // kernel or store version conflict

  /** Where one call of `execute` stands, between two awaits. */
  datatype Call<+S> =
    | Looking(c: Command)                    // first receipt lookup is pending
    | Reading(c: Command)                    // no receipt; history read is pending
    | Committing(c: Command, history: seq<Event>, ctx: Context, prepared: Prepared<S>)
    | Recovering(c: Command, refusal: Refusal, seen: int)   // version refused; second lookup is pending
    | Answering(c: Command, receipt: Receipt)               // receipt in hand; `#result` reads the stream
    | Succeeded(c: Command, receipt: Receipt, state: S)
    | Refused(c: Command, refusal: Refusal, seen: int)      // the version refusal is rethrown
    | Rejected(c: Command)                   // any other kernel or store error
    | Inconsistent(c: Command, receipt: Receipt)            // one of the checks of `#result` failed

  datatype State<+S> = State(db: Db, calls: map<nat, Call<S>>)

  datatype Action =
    | Execute(k: nat, input: Command)
    | Proceed(k: nat, ctx: Context)          // call `k` runs to its next await; `ctx` is its clock and ids
    | Fail(k: nat, applied: bool)            // the store call that `k` awaits fails; a commit may have been applied
    | Foreign(batch: Batch)                  // a commit of somebody else, for another aggregate type

  // ---------------------------------------------------------------- `#result`

  /** The events with versions above `lo` and up to `hi`. */
  function Between(events: seq<Event>, lo: int, hi: int): seq<Event> {
    if events == [] then [] else
      (if lo < events[0].version <= hi then [events[0]] else []) + Between(events[1..], lo, hi)
  }

  predicate BindsCommand(c: Command, receipt: Receipt) {
    receipt.base.commandId == c.commandId && receipt.base.stream == c.stream
    && receipt.receiptHash == OfReceipt(receipt.base)
  }

  function Conclude<S>(def: Definition<S>, c: Command, receipt: Receipt, events: seq<Event>): Option<S> {
    var committed := Between(events, c.expectedVersion, receipt.base.committedVersion);
    if EventIds(committed) != receipt.base.eventIds
       || exists i :: 0 <= i < |committed| && committed[i].causationId != c.commandId then None
    else
      var replayed := Replay(def, c.stream.aggregateId, Between(events, 0, receipt.base.committedVersion));
      if replayed.Err? || replayed.value.version != receipt.base.committedVersion then None
      else replayed.value.state
  }

  // ---------------------------------------------------------------- steps

  function Answer<S>(c: Command, receipt: Receipt): Call<S> {
    if BindsCommand(c, receipt) then Answering(c, receipt) else Inconsistent(c, receipt)
  }

  predicate Pending<S>(call: Call<S>) {
    call.Looking? || call.Reading? || call.Committing? || call.Recovering? || call.Answering?
  }

  function Lookup<S>(db: Db, c: Command, missing: Call<S>): Call<S> {
    match FindDuplicate(db, IdentityOf(c))
    case Found(receipt) => Answer(c, receipt)
    case Conflict => Rejected(c)
    case NoReceipt => missing
  }

  function Prepared<S>(def: Definition<S>, limit: nat, db: Db, c: Command, ctx: Context): Call<S> {
    var history := ReadEvents(db, c.stream, limit);
    match Prepare(def, c, history, ctx)
    case Ok(p) => Committing(c, history, ctx, p)
    case Err(f) => if f.VersionConflict? then Recovering(c, PreparedAgainstOther, |history|) else Rejected(c)
  }

  function Committed<S>(db: Db, c: Command, batch: Batch): Call<S> {
    match Commit(db, batch).1
    case Ok(receipt) => Answer(c, receipt)
    case Err(f) =>
      if f.OptimisticConcurrency? then Recovering(c, CommittedAgainstOther, CurrentVersion(db, c.stream))
      else Rejected(c)
  }

  function Concluded<S>(def: Definition<S>, limit: nat, db: Db, c: Command, receipt: Receipt): Call<S> {
    match Conclude(def, c, receipt, ReadEvents(db, c.stream, limit))
    case Some(state) => Succeeded(c, receipt, state)
    case None => Inconsistent(c, receipt)
  }

  /** A call's next state. */
  function Advance<S>(def: Definition<S>, limit: nat, db: Db, call: Call<S>, ctx: Context): Call<S>
    requires Pending(call)
  {
    match call
    case Looking(c) => Lookup(db, c, Reading(c))
    case Reading(c) => Prepared(def, limit, db, c, ctx)
    case Committing(c, _, _, p) => Committed(db, c, p.batch)
    case Recovering(c, refusal, seen) => Lookup(db, c, Refused(c, refusal, seen))
    case Answering(c, receipt) => Concluded(def, limit, db, c, receipt)
  }

  function Begin<S>(def: Definition<S>, input: Command): Call<S> {
    if Admit(def, input).Ok? then Looking(input) else Rejected(input)
  }

  /** The identity of a command for the aggregate of this definition. */
  predicate OwnIdentity<S>(def: Definition<S>, id: Identity) {
    id.payloadHash.OfCommand? && id.payloadHash.command.stream.aggregateType == def.aggregateType
  }

  predicate Enabled<S>(def: Definition<S>, s: State<S>, a: Action) {
    match a
    case Execute(k, input) => k !in s.calls
    case Proceed(k, ctx) => k in s.calls && Pending(s.calls[k])
    case Fail(k, applied) => k in s.calls && Pending(s.calls[k])
    case Foreign(batch) => batch.stream.aggregateType != def.aggregateType && !OwnIdentity(def, batch.identity)
  }

  predicate Commits<S>(s: State<S>, a: Action) {
    (a.Proceed? || (a.Fail? && a.applied)) && a.k in s.calls && s.calls[a.k].Committing?
  }

  /** The batch an action commits, if it commits one. */
  function Batches<S>(s: State<S>, a: Action): Option<Batch> {
    if a.Foreign? then Some(a.batch) else if Commits(s, a) then Some(s.calls[a.k].prepared.batch) else None
  }

  function NextDb<S>(s: State<S>, a: Action): Db {
    match Batches(s, a)
    case Some(batch) => Commit(s.db, batch).0
    case None => s.db
  }

  function Next<S>(def: Definition<S>, limit: nat, s: State<S>, a: Action): State<S>
    requires Enabled(def, s, a)
  {
    match a
    case Execute(k, input) => s.(calls := s.calls[k := Begin(def, input)])
    case Proceed(k, ctx) => State(NextDb(s, a), s.calls[k := Advance(def, limit, s.db, s.calls[k], ctx)])
    case Fail(k, applied) => State(NextDb(s, a), s.calls[k := Rejected(s.calls[k].c)])
    case Foreign(batch) => s.(db := NextDb(s, a))
  }

  ghost predicate Run<S(!new)>(def: Definition<S>, limit: nat, states: seq<State<S>>, actions: seq<Action>) {
    && |states| == |actions| + 1
    && states[0] == State(EMPTY, map[])
    && forall i :: 0 <= i < |actions| ==>
         Enabled(def, states[i], actions[i]) && states[i + 1] == Next(def, limit, states[i], actions[i])
  }

  // ---------------------------------------------------------------- the invariant

  /** The row is about a stream or a command of this service. */
  predicate Own<S>(def: Definition<S>, row: Row) {
    row.receipt.base.stream.aggregateType == def.aggregateType || OwnIdentity(def, row.identity)
  }

  /** A receipt row of this service belongs to the command its payload hash is the hash of, and covers
      exactly the event that command caused, and the stream replays up to it. */
  predicate RowOk<S>(def: Definition<S>, journal: seq<Event>, row: Row) {
    Own(def, row) ==>
      && row.identity.payloadHash.OfCommand?
      && var c := row.identity.payloadHash.command;
      && row.identity == IdentityOf(c) && row.receipt.base.stream == c.stream
      && Covers(def, journal, c, row.receipt)
  }

  predicate Covers<S>(def: Definition<S>, journal: seq<Event>, c: Command, receipt: Receipt) {
    var events, n := Stream(journal, c.stream), receipt.base.committedVersion;
    && 0 <= c.expectedVersion && n == c.expectedVersion + 1 && n <= |events|
    && receipt.base.eventIds == [events[n - 1].eventId]
    && events[n - 1].causationId == c.commandId
    && Replay(def, c.stream.aggregateId, events[..n]).Ok?
  }

  /** Position `k` of a stream is covered by a receipt. */
  predicate Covered(db: Db, key: StreamKey, k: nat) {
    exists i :: 0 <= i < |db.receipts| && db.receipts[i].receipt.base.stream == key
                && db.receipts[i].receipt.base.committedVersion == k + 1
  }

  ghost predicate AllCovered<S>(def: Definition<S>, db: Db) {
    forall key: StreamKey, k: nat :: key.aggregateType == def.aggregateType && k < |Stream(db.journal, key)| ==> Covered(db, key, k)
  }

  ghost predicate StoreOk<S>(def: Definition<S>, db: Db) {
    && DbOk(db)
    && (forall i :: 0 <= i < |db.receipts| ==> RowOk(def, db.journal, db.receipts[i]))
    && AllCovered(def, db)
  }

  predicate HasReceipt(db: Db, c: Command, receipt: Receipt) { FindDuplicate(db, IdentityOf(c)) == Found(receipt) }

  predicate CallOk<S(==)>(def: Definition<S>, db: Db, call: Call<S>) {
    var events := Stream(db.journal, call.c.stream);
    && (!call.Rejected? ==> Admit(def, call.c).Ok?)
    && match call
       case Committing(c, history, ctx, p) => history <= events && Prepare(def, c, history, ctx) == Ok(p)
       case Recovering(c, _, seen) => seen <= |events|
       case Refused(c, _, seen) => seen <= |events| && (seen > c.expectedVersion ==> !FindDuplicate(db, IdentityOf(c)).Found?)
       case Answering(c, receipt) => HasReceipt(db, c, receipt)
       case Inconsistent(c, receipt) => HasReceipt(db, c, receipt)
       case Succeeded(c, receipt, state) =>
         && HasReceipt(db, c, receipt) && 0 <= receipt.base.committedVersion <= |events|
         && ReplaysTo(def, c.stream.aggregateId, events[..receipt.base.committedVersion], state, receipt.base.committedVersion)
       case _ => true
  }

  ghost predicate Inv<S>(def: Definition<S>, s: State<S>) {
    StoreOk(def, s.db) && forall k :: k in s.calls ==> CallOk(def, s.db, s.calls[k])
  }

  // ---------------------------------------------------------------- growth

  lemma StreamGrows(a: seq<Event>, b: seq<Event>, key: StreamKey)
    requires a <= b
    ensures Stream(a, key) <= Stream(b, key)
  {
    assert b == a + b[|a|..];
    StreamAppend(a, b[|a|..], key);
  }

  lemma CoversForever<S>(def: Definition<S>, a: seq<Event>, b: seq<Event>, c: Command, receipt: Receipt)
    requires a <= b && Covers(def, a, c, receipt)
    ensures Covers(def, b, c, receipt)
  {
    StreamGrows(a, b, c.stream);
    var n := receipt.base.committedVersion;
    assert Stream(b, c.stream)[..n] == Stream(a, c.stream)[..n];
  }

  lemma CoveredForever(db: Db, db': Db, key: StreamKey, k: nat)
    requires db.receipts <= db'.receipts && Covered(db, key, k)
    ensures Covered(db', key, k)
  {
    var i :| 0 <= i < |db.receipts| && db.receipts[i].receipt.base.stream == key
             && db.receipts[i].receipt.base.committedVersion == k + 1;
    assert db'.receipts[i] == db.receipts[i];
  }

  lemma RowOkForever<S>(def: Definition<S>, a: seq<Event>, b: seq<Event>, row: Row)
    requires a <= b && RowOk(def, a, row)
    ensures RowOk(def, b, row)
  {
    if Own(def, row) {
      CoversForever(def, a, b, row.identity.payloadHash.command, row.receipt);
    }
  }

  lemma RowsGrow<S>(def: Definition<S>, db: Db, batch: Batch, db': Db)
    requires (forall i :: 0 <= i < |db.receipts| ==> RowOk(def, db.journal, db.receipts[i])) && Accepted(db, batch, db')
    requires RowOk(def, db'.journal, Row(batch.identity, MakeReceipt(batch, batch.expectedVersion)))
    ensures forall i :: 0 <= i < |db'.receipts| ==> RowOk(def, db'.journal, db'.receipts[i])
  {
    forall i | 0 <= i < |db'.receipts|
      ensures RowOk(def, db'.journal, db'.receipts[i])
    {
      if i < |db.receipts| {
        RowOkForever(def, db.journal, db'.journal, db.receipts[i]);
      }
    }
  }

  /** A store that grew by one good row keeps the invariant. */
  lemma StoreOkGrows<S>(def: Definition<S>, db: Db, batch: Batch, db': Db)
    requires StoreOk(def, db) && DbOk(db') && Accepted(db, batch, db')
    requires RowOk(def, db'.journal, Row(batch.identity, MakeReceipt(batch, batch.expectedVersion)))
    requires batch.stream.aggregateType == def.aggregateType ==> |batch.events| == 1
    ensures StoreOk(def, db')
  {
    RowsGrow(def, db, batch, db');
    forall key: StreamKey, k: nat | key.aggregateType == def.aggregateType && k < |Stream(db'.journal, key)|
      ensures Covered(db', key, k)
    {
      NewPositionCovered(def, db, batch, db', key, k);
    }
  }

  lemma NewPositionCovered<S>(def: Definition<S>, db: Db, batch: Batch, db': Db, key: StreamKey, k: nat)
    requires StoreOk(def, db) && Accepted(db, batch, db')
    requires batch.stream.aggregateType == def.aggregateType ==> |batch.events| == 1
    requires key.aggregateType == def.aggregateType && k < |Stream(db'.journal, key)|
    ensures Covered(db', key, k)
  {
    StreamsKept(db, batch, db', key);
    ReadsStream(db, key, 0);
    if k < |Stream(db.journal, key)| {
      assert Covered(db, key, k);
      CoveredForever(db, db', key, k);
    } else {
      assert db'.receipts[|db.receipts|].receipt.base.committedVersion == k + 1;
    }
  }

  // ---------------------------------------------------------------- commits keep the store invariant

  /** The row of a committed batch covers its one event. */
  lemma OwnRowOk<S>(def: Definition<S>, db: Db, c: Command, history: seq<Event>, ctx: Context, p: Prepared<S>, db': Db)
    requires DbOk(db) && history <= Stream(db.journal, c.stream) && Prepare(def, c, history, ctx) == Ok(p)
    requires Accepted(db, p.batch, db')
    ensures RowOk(def, db'.journal, Row(p.batch.identity, MakeReceipt(p.batch, p.batch.expectedVersion)))
    ensures |p.batch.events| == 1
  {
    var e := PreparedBatch(def, c, history, ctx, p);
    ReadsStream(db, c.stream, 0);
    StreamsKept(db, p.batch, db', c.stream);
    assert Stream(db'.journal, c.stream) == history + [e];
    assert (history + [e])[..|history| + 1] == history + [e];
    assert EventIds(p.batch.events) == [e.eventId];
  }

  lemma OwnCommit<S>(def: Definition<S>, db: Db, c: Command, history: seq<Event>, ctx: Context, p: Prepared<S>)
    requires StoreOk(def, db)
    requires history <= Stream(db.journal, c.stream) && Prepare(def, c, history, ctx) == Ok(p)
    ensures StoreOk(def, Commit(db, p.batch).0)
  {
    CommitKeeps(db, p.batch);
    CommitCases(db, p.batch);
    var db' := Commit(db, p.batch).0;
    if db' != db {
      OwnRowOk(def, db, c, history, ctx, p, db');
      StoreOkGrows(def, db, p.batch, db');
    }
  }

  lemma ForeignCommit<S>(def: Definition<S>, db: Db, batch: Batch)
    requires StoreOk(def, db) && batch.stream.aggregateType != def.aggregateType && !OwnIdentity(def, batch.identity)
    ensures StoreOk(def, Commit(db, batch).0)
  {
    CommitKeeps(db, batch);
    CommitCases(db, batch);
    var db' := Commit(db, batch).0;
    if db' != db {
      assert RowOk(def, db'.journal, Row(batch.identity, MakeReceipt(batch, batch.expectedVersion)));
      StoreOkGrows(def, db, batch, db');
    }
  }

  lemma StoreKept<S>(def: Definition<S>, s: State<S>, a: Action)
    requires Inv(def, s) && Enabled(def, s, a)
    ensures StoreOk(def, NextDb(s, a)) && Grows(s.db, NextDb(s, a))
  {
    if a.Foreign? {
      ForeignCommit(def, s.db, a.batch);
      CommitGrows(s.db, a.batch);
    } else if Commits(s, a) {
      var call := s.calls[a.k];
      assert CallOk(def, s.db, call);
      OwnCommit(def, s.db, call.c, call.history, call.ctx, call.prepared);
      CommitGrows(s.db, call.prepared.batch);
    }
  }

  // ---------------------------------------------------------------- `#result` on a good store

  predicate Numbered(events: seq<Event>, base: int) {
    forall k :: 0 <= k < |events| ==> events[k].version == base + k + 1
  }

  lemma {:induction false} NothingBelow(events: seq<Event>, base: int, lo: int, hi: int)
    requires Numbered(events, base) && hi <= base
    ensures Between(events, lo, hi) == []
    decreases |events|
  {
    if events != [] {
      NothingBelow(events[1..], base + 1, lo, hi);
    }
  }

  /** The events numbered up to `hi`, all of them after `lo`. */
  lemma {:induction false} BetweenTakes(events: seq<Event>, base: int, lo: int, hi: int)
    requires Numbered(events, base) && lo <= base <= hi
    ensures Between(events, lo, hi) == Take(events, hi - base)
    decreases |events|
  {
    if events != [] {
      var rest := events[1..];
      if hi == base {
        NothingBelow(rest, base + 1, lo, hi);
      } else {
        BetweenTakes(rest, base + 1, lo, hi);
        assert [events[0]] + Take(rest, hi - base - 1) == Take(events, hi - base);
      }
    }
  }

  function Drop<T>(s: seq<T>, n: nat): seq<T> { if n <= |s| then s[n..] else [] }

  lemma DropCons<T>(x: T, s: seq<T>, n: nat)
    ensures Drop([x] + s, n + 1) == Drop(s, n)
  {
    if n <= |s| {
      assert ([x] + s)[n + 1..] == s[n..];
    }
  }

  lemma {:induction false} BetweenIsSlice(events: seq<Event>, base: int, lo: int, hi: int)
    requires Numbered(events, base) && base <= lo <= hi
    ensures Between(events, lo, hi) == Drop(Take(events, hi - base), lo - base)
    decreases |events|
  {
    if lo == base {
      BetweenTakes(events, base, lo, hi);
    } else if events != [] {
      var rest := events[1..];
      BetweenIsSlice(rest, base + 1, lo, hi);
      assert Take(events, hi - base) == [events[0]] + Take(rest, hi - base - 1);
      DropCons(events[0], Take(rest, hi - base - 1), lo - base - 1);
    }
  }

  /** A receipt found for a command of this service binds it and covers its event. */
  lemma ReceiptBinds<S>(def: Definition<S>, db: Db, c: Command, receipt: Receipt)
    requires StoreOk(def, db) && HasReceipt(db, c, receipt) && c.stream.aggregateType == def.aggregateType
    ensures BindsCommand(c, receipt) && Covers(def, db.journal, c, receipt)
  {
    var i := FoundIsRow(db, IdentityOf(c));
    assert RowOk(def, db.journal, db.receipts[i]) && Truthful(db.journal, db.receipts[i]);
  }

  lemma ConcludesWithin<S>(def: Definition<S>, c: Command, receipt: Receipt, journal: seq<Event>, taken: seq<Event>)
    requires Covers(def, journal, c, receipt) && Consecutive(taken) && taken <= Stream(journal, c.stream)
    requires receipt.base.committedVersion <= |taken|
    ensures Conclude(def, c, receipt, taken).Some?
    ensures ReplaysTo(def, c.stream.aggregateId, Stream(journal, c.stream)[..receipt.base.committedVersion],
                      Conclude(def, c, receipt, taken).value, receipt.base.committedVersion)
  {
    var events, n := Stream(journal, c.stream), receipt.base.committedVersion;
    SlicesTaken(events, taken, n);
    ReplayCounts(def, c.stream.aggregateId, events[..n]);
    ConcludesFrom(def, c, receipt, taken, events[n - 1], events[..n]);
  }

  /** One event of the command's and a replay to the receipt's version satisfy the checks of `#result`. */
  lemma ConcludesFrom<S>(def: Definition<S>, c: Command, receipt: Receipt, taken: seq<Event>, e: Event, events: seq<Event>)
    requires Between(taken, c.expectedVersion, receipt.base.committedVersion) == [e]
    requires EventIds([e]) == receipt.base.eventIds && e.causationId == c.commandId
    requires Between(taken, 0, receipt.base.committedVersion) == events
    requires Replay(def, c.stream.aggregateId, events).Ok?
    requires Replay(def, c.stream.aggregateId, events).value.version == receipt.base.committedVersion
    ensures Conclude(def, c, receipt, taken) == Replay(def, c.stream.aggregateId, events).value.state
  {
  }

  /** What the two filters of `#result` keep of the rows read. */
  lemma SlicesTaken(events: seq<Event>, taken: seq<Event>, n: nat)
    requires Consecutive(taken) && taken <= events && 1 <= n <= |taken|
    ensures Between(taken, n - 1, n) == [events[n - 1]] && EventIds([events[n - 1]]) == [events[n - 1].eventId]
    ensures Between(taken, 0, n) == events[..n]
  {
    OneBetween(taken, n);
    assert taken[..n] == events[..n];
  }

  lemma OneBetween(taken: seq<Event>, n: nat)
    requires Consecutive(taken) && 1 <= n <= |taken|
    ensures Between(taken, n - 1, n) == [taken[n - 1]] && Between(taken, 0, n) == taken[..n]
  {
    BetweenIsSlice(taken, 0, n - 1, n);
    BetweenIsSlice(taken, 0, 0, n);
    assert taken[..n][n - 1..] == [taken[n - 1]] && taken[..n][0..] == taken[..n];
  }

  lemma ConcludesNotBeyond<S>(def: Definition<S>, c: Command, receipt: Receipt, journal: seq<Event>, taken: seq<Event>)
    requires Covers(def, journal, c, receipt) && Consecutive(taken)
    requires receipt.base.committedVersion > |taken|
    ensures Conclude(def, c, receipt, taken).None?
  {
    BetweenIsSlice(taken, 0, c.expectedVersion, receipt.base.committedVersion);
    assert |EventIds(Between(taken, c.expectedVersion, receipt.base.committedVersion))| == 0;
  }

  /** The consistency checks of `#result` pass iff the receipt's version is within the row limit of
      `readEvents`; the answer is then the state at that version, however far the stream has grown. */
  lemma ConcludesIffWithinLimit<S>(def: Definition<S>, limit: nat, db: Db, c: Command, receipt: Receipt)
    requires StoreOk(def, db) && HasReceipt(db, c, receipt) && c.stream.aggregateType == def.aggregateType
    ensures Concluded(def, limit, db, c, receipt).Succeeded? <==> receipt.base.committedVersion <= limit
    ensures var call := Concluded(def, limit, db, c, receipt); call.Succeeded? ==>
      0 <= receipt.base.committedVersion <= |Stream(db.journal, c.stream)|
      && ReplaysTo(def, c.stream.aggregateId, Stream(db.journal, c.stream)[..receipt.base.committedVersion],
                   call.state, receipt.base.committedVersion)
  {
    ReceiptBinds(def, db, c, receipt);
    ReadsStream(db, c.stream, limit);
    var taken := ReadEvents(db, c.stream, limit);
    if receipt.base.committedVersion <= limit {
      ConcludesWithin(def, c, receipt, db.journal, taken);
    } else {
      ConcludesNotBeyond(def, c, receipt, db.journal, taken);
    }
  }

  // ---------------------------------------------------------------- steps keep every call's invariant

  /** Whoever commits a batch with the identity of a command does it at the version the command expects. */
  lemma CommitterExpects<S>(def: Definition<S>, s: State<S>, a: Action, c: Command)
    requires Inv(def, s) && Enabled(def, s, a) && c.stream.aggregateType == def.aggregateType
    requires Batches(s, a).Some? && Batches(s, a).value.identity == IdentityOf(c)
    ensures Batches(s, a).value.stream == c.stream && Batches(s, a).value.expectedVersion == c.expectedVersion
  {
    if Commits(s, a) {
      var call := s.calls[a.k];
      assert CallOk(def, s.db, call);
      var e := PreparedBatch(def, call.c, call.history, call.ctx, call.prepared);
    }
  }

  /** While the stream is past a command's expected version, no step can give it a receipt. */
  lemma NoLateReceipt<S>(def: Definition<S>, s: State<S>, a: Action, c: Command)
    requires Inv(def, s) && Enabled(def, s, a) && c.stream.aggregateType == def.aggregateType
    requires |Stream(s.db.journal, c.stream)| > c.expectedVersion && !FindDuplicate(s.db, IdentityOf(c)).Found?
    ensures !FindDuplicate(NextDb(s, a), IdentityOf(c)).Found?
  {
    var batch := Batches(s, a);
    if batch.Some? && FindDuplicate(NextDb(s, a), IdentityOf(c)).Found? {
      ReceiptAppears(s.db, batch.value, IdentityOf(c));
      CommitterExpects(def, s, a, c);
      AcceptedVersion(s.db, batch.value);
      ReadsStream(s.db, c.stream, 0);
      assert false;
    }
  }

  /** A commit that leaves a receipt where there was none found the stream at its expected version. */
  lemma AcceptedVersion(db: Db, batch: Batch)
    requires Commit(db, batch).1.Ok? && !FindDuplicate(db, batch.identity).Found?
    ensures CurrentVersion(db, batch.stream) == batch.expectedVersion
  {
  }

  lemma ReplayForever<S>(def: Definition<S>, a: seq<Event>, b: seq<Event>, id: Id, n: nat, state: S)
    requires a <= b && n <= |a| && ReplaysTo(def, id, a[..n], state, n)
    ensures n <= |b| && ReplaysTo(def, id, b[..n], state, n)
  {
    assert b[..n] == a[..n];
  }

  lemma AnswerForever<S>(def: Definition<S>, db: Db, db': Db, call: Call<S>)
    requires DbOk(db) && DbOk(db') && Grows(db, db') && CallOk(def, db, call)
    requires call.Answering? || call.Inconsistent? || call.Succeeded?
    ensures CallOk(def, db', call)
  {
    FoundForever(db, db', IdentityOf(call.c));
    StreamGrows(db.journal, db'.journal, call.c.stream);
    if call.Succeeded? {
      ReplayForever(def, Stream(db.journal, call.c.stream), Stream(db'.journal, call.c.stream),
                    call.c.stream.aggregateId, call.receipt.base.committedVersion, call.state);
    }
  }

  lemma OtherCallKept<S>(def: Definition<S>, s: State<S>, a: Action, call: Call<S>)
    requires Inv(def, s) && Enabled(def, s, a) && CallOk(def, s.db, call)
    ensures CallOk(def, NextDb(s, a), call)
  {
    StoreKept(def, s, a);
    if call.Answering? || call.Inconsistent? || call.Succeeded? {
      AnswerForever(def, s.db, NextDb(s, a), call);
    } else {
      StreamGrows(s.db.journal, NextDb(s, a).journal, call.c.stream);
      if call.Refused? && call.seen > call.c.expectedVersion {
        NoLateReceipt(def, s, a, call.c);
      }
    }
  }

  lemma AdmittedStream<S>(def: Definition<S>, c: Command)
    requires Admit(def, c).Ok?
    ensures Admit(def, c) == Ok(c) && c.stream.aggregateType == def.aggregateType && 0 <= c.expectedVersion
  {
  }

  lemma LookupKept<S>(def: Definition<S>, db: Db, c: Command, missing: Call<S>)
    requires StoreOk(def, db) && Admit(def, c).Ok? && missing.c == c
    requires FindDuplicate(db, IdentityOf(c)).NoReceipt? ==> CallOk(def, db, missing)
    ensures CallOk(def, db, Lookup(db, c, missing)) && Lookup(db, c, missing).c == c
  {
  }

  lemma PreparedKept<S>(def: Definition<S>, limit: nat, db: Db, c: Command, ctx: Context)
    requires StoreOk(def, db) && Admit(def, c).Ok?
    ensures CallOk(def, db, Prepared(def, limit, db, c, ctx)) && Prepared(def, limit, db, c, ctx).c == c
  {
    ReadsStream(db, c.stream, limit);
  }

  lemma CommittedKept<S>(def: Definition<S>, db: Db, c: Command, history: seq<Event>, ctx: Context, p: Prepared<S>)
    requires StoreOk(def, db) && CallOk(def, db, Committing(c, history, ctx, p))
    ensures var call: Call<S> := Committed(db, c, p.batch);
      CallOk(def, Commit(db, p.batch).0, call) && call.c == c
  {
    var e := PreparedBatch(def, c, history, ctx, p);
    if Commit(db, p.batch).1.Ok? {
      SuccessIsFound(db, p.batch);
    } else {
      RefusedKept(def, db, c, p.batch);
    }
  }

  lemma RefusedKept<S>(def: Definition<S>, db: Db, c: Command, batch: Batch)
    requires DbOk(db) && Admit(def, c).Ok? && Commit(db, batch).1.Err?
    ensures var call: Call<S> := Committed(db, c, batch);
      CallOk(def, Commit(db, batch).0, call) && call.c == c
  {
    ReadsStream(db, c.stream, 0);
  }

  lemma CallerKept<S>(def: Definition<S>, limit: nat, s: State<S>, k: nat, ctx: Context)
    requires Inv(def, s) && Enabled(def, s, Proceed(k, ctx))
    ensures var call := Advance(def, limit, s.db, s.calls[k], ctx);
      CallOk(def, NextDb(s, Proceed(k, ctx)), call) && call.c == s.calls[k].c
  {
    var call := s.calls[k];
    assert CallOk(def, s.db, call);
    match call
    case Looking(c) => LookupKept(def, s.db, c, Reading(c));
    case Reading(c) => PreparedKept(def, limit, s.db, c, ctx);
    case Committing(c, history, used, p) => CommittedKept(def, s.db, c, history, used, p);
    case Recovering(c, refusal, seen) => LookupKept(def, s.db, c, Refused(c, refusal, seen));
    case Answering(c, receipt) =>
      AdmittedStream(def, c);
      ConcludesIffWithinLimit(def, limit, s.db, c, receipt);
  }

  lemma InvKept<S>(def: Definition<S>, limit: nat, s: State<S>, a: Action)
    requires Inv(def, s) && Enabled(def, s, a)
    ensures Inv(def, Next(def, limit, s, a))
  {
    var s' := Next(def, limit, s, a);
    StoreKept(def, s, a);
    forall k | k in s'.calls
      ensures CallOk(def, s'.db, s'.calls[k])
    {
      if a.Proceed? && a.k == k {
        CallerKept(def, limit, s, k, a.ctx);
      } else if k in s.calls {
        OtherCallKept(def, s, a, s.calls[k]);
      }
    }
  }

  lemma {:induction false} InvAlongRun<S(!new)>(def: Definition<S>, limit: nat, states: seq<State<S>>, actions: seq<Action>, i: nat)
    requires Run(def, limit, states, actions) && i < |states|
    ensures Inv(def, states[i])
  {
    if i > 0 {
      InvAlongRun(def, limit, states, actions, i - 1);
      assert states[i - 1 + 1] == Next(def, limit, states[i - 1], actions[i - 1]);
      InvKept(def, limit, states[i - 1], actions[i - 1]);
    }
  }

  // ---------------------------------------------------------------- theorems about all runs

  /** All successful calls for a command return the same receipt and the same state, whenever they
      ran and however far the stream has grown since. */
  lemma SameAnswer<S(!new)>(def: Definition<S>, limit: nat, states: seq<State<S>>, actions: seq<Action>, i: nat,
                            k: nat, l: nat)
    requires Run(def, limit, states, actions) && i < |states|
    requires k in states[i].calls && states[i].calls[k].Succeeded?
    requires l in states[i].calls && states[i].calls[l].Succeeded?
    requires states[i].calls[k].c == states[i].calls[l].c
    ensures states[i].calls[k] == states[i].calls[l]
  {
    InvAlongRun(def, limit, states, actions, i);
    assert CallOk(def, states[i].db, states[i].calls[k]) && CallOk(def, states[i].db, states[i].calls[l]);
  }

  /** Where the event at a position of a stream comes from. */
  lemma EventHasRow<S>(def: Definition<S>, db: Db, j: nat) returns (i: nat)
    requires StoreOk(def, db) && j < |db.journal| && db.journal[j].stream.aggregateType == def.aggregateType
    ensures i < |db.receipts| && db.receipts[i].identity.commandId == db.journal[j].causationId
    ensures db.receipts[i].receipt.base.eventIds == [db.journal[j].eventId]
  {
    var e := db.journal[j];
    var k := StreamComplete(db.journal, j);
    assert Covered(db, e.stream, k);
    i :| 0 <= i < |db.receipts| && db.receipts[i].receipt.base.stream == e.stream
         && db.receipts[i].receipt.base.committedVersion == k + 1;
    RowOfEvent(def, db.journal, db.receipts[i], k);
  }

  lemma RowOfEvent<S>(def: Definition<S>, journal: seq<Event>, row: Row, k: nat)
    requires RowOk(def, journal, row) && row.receipt.base.stream.aggregateType == def.aggregateType
    requires k < |Stream(journal, row.receipt.base.stream)| && row.receipt.base.committedVersion == k + 1
    ensures row.identity.commandId == Stream(journal, row.receipt.base.stream)[k].causationId
    ensures row.receipt.base.eventIds == [Stream(journal, row.receipt.base.stream)[k].eventId]
  {
  }

  lemma OneRowPerCommand(rows: seq<Row>, p: nat, q: nat)
    requires DistinctRows(rows) && p < |rows| && q < |rows|
    requires rows[p].identity.commandId == rows[q].identity.commandId
    ensures p == q
  {
    assert Clashes(rows[p], rows[q].identity) && Clashes(rows[q], rows[p].identity);
  }

  /** A command is committed at most once: no two events of the service's aggregates have the same
      causation, in any run. */
  lemma CommittedOnce<S(!new)>(def: Definition<S>, limit: nat, states: seq<State<S>>, actions: seq<Action>, i: nat,
                               m: nat, n: nat)
    requires Run(def, limit, states, actions) && i < |states|
    requires m < |states[i].db.journal| && n < |states[i].db.journal|
    requires states[i].db.journal[m].stream.aggregateType == def.aggregateType
    requires states[i].db.journal[n].stream.aggregateType == def.aggregateType
    requires states[i].db.journal[m].causationId == states[i].db.journal[n].causationId
    ensures m == n
  {
    InvAlongRun(def, limit, states, actions, i);
    var db := states[i].db;
    var p := EventHasRow(def, db, m);
    var q := EventHasRow(def, db, n);
    OneRowPerCommand(db.receipts, p, q);
    assert db.journal[m].eventId == db.journal[n].eventId;
  }

  lemma {:induction false} RefusedForever<S(!new)>(def: Definition<S>, limit: nat, states: seq<State<S>>, actions: seq<Action>,
                                                   i: nat, j: nat, k: nat)
    requires Run(def, limit, states, actions) && i <= j < |states|
    requires k in states[i].calls && states[i].calls[k].Refused?
    ensures k in states[j].calls && states[j].calls[k] == states[i].calls[k]
  {
    if i < j {
      RefusedForever(def, limit, states, actions, i, j - 1, k);
      assert states[j - 1 + 1] == Next(def, limit, states[j - 1], actions[j - 1]);
      assert Enabled(def, states[j - 1], actions[j - 1]);
    }
  }

  /** A version refusal that saw the stream past `expectedVersion`, and found no receipt, is final:
      at no later time has the command a receipt, and no call for it ever succeeds. */
  lemma RefusalIsFinal<S(!new)>(def: Definition<S>, limit: nat, states: seq<State<S>>, actions: seq<Action>,
                                i: nat, j: nat, k: nat)
    requires Run(def, limit, states, actions) && i <= j < |states|
    requires k in states[i].calls && states[i].calls[k].Refused?
    requires states[i].calls[k].seen > states[i].calls[k].c.expectedVersion
    ensures !FindDuplicate(states[j].db, IdentityOf(states[i].calls[k].c)).Found?
    ensures forall l :: l in states[j].calls && states[j].calls[l].c == states[i].calls[k].c ==>
      !states[j].calls[l].Succeeded?
  {
    RefusedForever(def, limit, states, actions, i, j, k);
    InvAlongRun(def, limit, states, actions, j);
    var c := states[i].calls[k].c;
    assert CallOk(def, states[j].db, states[j].calls[k]);
    forall l | l in states[j].calls && states[j].calls[l].c == c
      ensures !states[j].calls[l].Succeeded?
    {
      assert CallOk(def, states[j].db, states[j].calls[l]);
    }
  }

  /** A receipt in hand never fails the header check. */
  lemma NeverInconsistentEarly<S>(def: Definition<S>, limit: nat, s: State<S>, k: nat, ctx: Context)
    requires Inv(def, s) && Enabled(def, s, Proceed(k, ctx)) && !s.calls[k].Answering?
    ensures !Advance(def, limit, s.db, s.calls[k], ctx).Inconsistent?
  {
    var a := Proceed(k, ctx);
    var after := Advance(def, limit, s.db, s.calls[k], ctx);
    CallerKept(def, limit, s, k, ctx);
    StoreKept(def, s, a);
    if after.Inconsistent? {
      AdmittedStream(def, after.c);
      ReceiptBinds(def, NextDb(s, a), after.c, after.receipt);
      HeaderChecked(def, limit, s.db, s.calls[k], ctx);
      assert false;
    }
  }

  /** Before `#result` reads the stream, only a receipt that fails the header check is inconsistent. */
  lemma HeaderChecked<S>(def: Definition<S>, limit: nat, db: Db, call: Call<S>, ctx: Context)
    requires Pending(call) && !call.Answering?
    ensures var after := Advance(def, limit, db, call, ctx); after.Inconsistent? ==> !BindsCommand(after.c, after.receipt)
  {
  }

  /** A call whose commit or lookup produced a receipt never fails the header check; its answer then
      depends on one thing only, whether the receipt's version is within the row limit. */
  lemma AnswersIffWithinLimit<S(!new)>(def: Definition<S>, limit: nat, states: seq<State<S>>, actions: seq<Action>,
                                       i: nat, k: nat)
    requires Run(def, limit, states, actions) && i < |actions|
    requires actions[i].Proceed? && actions[i].k == k && k in states[i].calls && Pending(states[i].calls[k])
    ensures k in states[i + 1].calls
    ensures !states[i].calls[k].Answering? ==> !states[i + 1].calls[k].Inconsistent?
    ensures states[i].calls[k].Answering? ==>
      (states[i + 1].calls[k].Inconsistent? <==> states[i].calls[k].receipt.base.committedVersion > limit)
  {
    var s, a := states[i], actions[i];
    InvAlongRun(def, limit, states, actions, i);
    assert Enabled(def, s, a) && states[i + 1] == Next(def, limit, s, a);
    assert states[i + 1].calls[k] == Advance(def, limit, s.db, s.calls[k], a.ctx);
    var before := s.calls[k];
    assert CallOk(def, s.db, before);
    if before.Answering? {
      AdmittedStream(def, before.c);
      ConcludesIffWithinLimit(def, limit, s.db, before.c, before.receipt);
    } else {
      NeverInconsistentEarly(def, limit, s, k, a.ctx);
    }
  }
}

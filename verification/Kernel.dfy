/** The deterministic kernel: admission, replay and the preparation of one transition. */
module Kernel {
  import opened CodeUnits
  import opened CanonicalJson
  import opened Envelopes
  import opened Store
  import opened StoreHistory

  datatype KernelFailure = InvalidContract | UnsupportedCommand | VersionConflict | ReplayInvalid | DomainRejected

  datatype Decision = Decision(eventType: Text, payload: Value)

  /** An aggregate with its contracts.  Schema validation is an abstract predicate on envelopes, and
      on the payloads of each type; `decide` and `apply` are the domain's pure functions. */
  datatype Definition<!S> = Definition(
    aggregateType: Text,
    commandTypes: set<Text>,
    eventTypes: set<Text>,
    commandSchema: Text -> SchemaRef,
    eventSchema: Text -> SchemaRef,
    commandValid: Command -> bool,
    eventValid: Event -> bool,
    payloadValid: (Text, Value) -> bool,
    batchValid: Batch -> bool,
    decide: (Option<S>, Command) -> Result<Decision, KernelFailure>,
    apply: (Option<S>, Event) -> Result<S, KernelFailure>)

  datatype Progress<+S> = Progress(state: Option<S>, version: int, eventIds: set<Id>)

  datatype Context = Context(eventId: Id, auditId: Id, transactionId: Id, occurredAt: Text)

  datatype Prepared<+S> = Prepared(batch: Batch, state: S)

  const COMMITTED_ACTION: Text := Ascii("KERNEL_COMMAND_COMMITTED")

  /** `${aggregateType}:${aggregateId}` */
  function EffectScope(key: StreamKey): Text { key.aggregateType + [COLON] + key.aggregateId }

  /** Binds the whole admitted command, not merely its payload. */
  function IdentityOf(c: Command): Identity {
    Identity(c.commandId, c.idempotencyKey, EffectScope(c.stream), OfCommand(c))
  }

  function Admit<S>(def: Definition<S>, c: Command): Result<Command, KernelFailure> {
    if !def.commandValid(c) || c.expectedVersion < 0 then Err(InvalidContract)
    else if c.stream.aggregateType != def.aggregateType || c.commandType !in def.commandTypes then Err(UnsupportedCommand)
    else if c.expectedVersion >= MAX_SAFE_INTEGER then Err(InvalidContract)
    else if c.payloadSchema != def.commandSchema(c.commandType) || c.payloadHash != OfValue(c.payload)
         || !def.payloadValid(c.commandType, c.payload) then
      Err(InvalidContract)
    else Ok(c)
  }

  /** One round of the replay loop. */
  function Step<S>(def: Definition<S>, aggregateId: Id, p: Progress<S>, e: Event): Result<Progress<S>, KernelFailure> {
    if !def.eventValid(e) then Err(InvalidContract)
    else if e.eventType !in def.eventTypes || e.stream != StreamKey(def.aggregateType, aggregateId)
         || e.version > MAX_SAFE_INTEGER || e.version != p.version + 1 || e.eventId in p.eventIds then
      Err(ReplayInvalid)
    else if e.payloadSchema != def.eventSchema(e.eventType) || e.payloadHash != OfValue(e.payload)
         || !def.payloadValid(e.eventType, e.payload) then
      Err(InvalidContract)
    else
      match def.apply(p.state, e)
      case Err(f) => Err(f)
      case Ok(state) => Ok(Progress(Some(state), e.version, p.eventIds + {e.eventId}))
  }

  /** Goes on from `p` through `events`, first to last. */
  function Resume<S>(def: Definition<S>, aggregateId: Id, p: Progress<S>, events: seq<Event>)
    : Result<Progress<S>, KernelFailure>
    decreases |events|
  {
    if events == [] then Ok(p) else
      match Step(def, aggregateId, p, events[0])
      case Err(f) => Err(f)
      case Ok(q) => Resume(def, aggregateId, q, events[1..])
  }

  function Replay<S>(def: Definition<S>, aggregateId: Id, events: seq<Event>): Result<Progress<S>, KernelFailure> {
    if !(1 <= |aggregateId| <= 256) then Err(ReplayInvalid)
    else Resume(def, aggregateId, Progress(None, 0, {}), events)
  }

  /** The replay loop. */
  method ReplayEvents<S>(def: Definition<S>, aggregateId: Id, history: seq<Event>)
    returns (r: Result<Progress<S>, KernelFailure>)
    ensures r == Replay(def, aggregateId, history)
  {
    if !(1 <= |aggregateId| <= 256) {
      return Err(ReplayInvalid);
    }
    var state: Option<S>, version, eventIds: set<Id> := None, 0, {};
    var index := 0;
    while index < |history|
      invariant 0 <= index <= |history|
      invariant Replay(def, aggregateId, history) ==
                Resume(def, aggregateId, Progress(state, version, eventIds), history[index..])
    {
      var event := history[index];
      assert history[index..][1..] == history[index + 1..];
      if !def.eventValid(event) {
        return Err(InvalidContract);
      }
      if event.eventType !in def.eventTypes || event.stream != StreamKey(def.aggregateType, aggregateId)
         || event.version > MAX_SAFE_INTEGER || event.version != version + 1 || event.eventId in eventIds {
        return Err(ReplayInvalid);
      }
      if event.payloadSchema != def.eventSchema(event.eventType) || event.payloadHash != OfValue(event.payload)
         || !def.payloadValid(event.eventType, event.payload) {
        return Err(InvalidContract);
      }
      var applied := def.apply(state, event);
      if applied.Err? {
        return Err(applied.error);
      }
      state, version, eventIds := Some(applied.value), event.version, eventIds + {event.eventId};
      index := index + 1;
    }
    r := Ok(Progress(state, version, eventIds));
  }

  function MakeEvent<S>(def: Definition<S>, c: Command, d: Decision, version: int, ctx: Context): Event {
    Event(ctx.eventId, d.eventType, c.stream, version, ctx.occurredAt, c.actor, c.commandId, c.correlationId,
          def.eventSchema(d.eventType), OfValue(d.payload), d.payload)
  }

  function MakeBatch(c: Command, e: Event, ctx: Context): Batch {
    Batch(IdentityOf(c), ctx.transactionId, ctx.occurredAt, c.stream, c.expectedVersion, [e], [],
          [Audit(ctx.auditId, ctx.occurredAt, COMMITTED_ACTION, OfCommand(c))])
  }

  function Prepare<S>(def: Definition<S>, input: Command, history: seq<Event>, ctx: Context)
    : Result<Prepared<S>, KernelFailure>
  {
    match Admit(def, input)
    case Err(f) => Err(f)
    case Ok(c) =>
      match Replay(def, c.stream.aggregateId, history)
      case Err(f) => Err(f)
      case Ok(now) =>
        if c.expectedVersion != now.version then Err(VersionConflict) else
          match def.decide(now.state, c)
          case Err(f) => Err(f)
          case Ok(d) =>
            if d.eventType !in def.eventTypes then Err(DomainRejected) else
              var e := MakeEvent(def, c, d, now.version + 1, ctx);
              match Replay(def, c.stream.aggregateId, history + [e])
              case Err(f) => Err(f)
              case Ok(next) =>
                if next.state.None? then Err(DomainRejected)
                else if !def.batchValid(MakeBatch(c, e, ctx)) then Err(InvalidContract)
                else Ok(Prepared(MakeBatch(c, e, ctx), next.state.value))
  }

  // ---------------------------------------------------------------- replay

  /** Goes on through `events` from wherever an earlier replay got to. */
  function Continue<S>(def: Definition<S>, id: Id, sofar: Result<Progress<S>, KernelFailure>, events: seq<Event>)
    : Result<Progress<S>, KernelFailure>
  {
    if sofar.Err? then sofar else Resume(def, id, sofar.value, events)
  }

  /** Replaying a history is replaying its first part and going on through the second. */
  lemma {:induction false} ResumeSplits<S>(def: Definition<S>, id: Id, p: Progress<S>, a: seq<Event>, b: seq<Event>)
    ensures Resume(def, id, p, a + b) == Continue(def, id, Resume(def, id, p, a), b)
    decreases |a|
  {
    if a == [] {
      assert a + b == b;
    } else {
      assert (a + b)[1..] == a[1..] + b;
      var s := Step(def, id, p, a[0]);
      if s.Ok? {
        ResumeSplits(def, id, s.value, a[1..], b);
      }
    }
  }

  lemma ReplaySplits<S>(def: Definition<S>, id: Id, a: seq<Event>, b: seq<Event>)
    ensures Replay(def, id, a + b) == Continue(def, id, Replay(def, id, a), b)
  {
    if 1 <= |id| <= 256 {
      ResumeSplits(def, id, Progress(None, 0, {}), a, b);
    }
  }

  function IdSet(events: seq<Event>): set<Id> { set e | e in events :: e.eventId }

  /** A replay that succeeds has counted the events: they are numbered 1, 2, 3, ... and distinct. */
  lemma {:induction false} ReplayCounts<S>(def: Definition<S>, id: Id, events: seq<Event>)
    requires Replay(def, id, events).Ok?
    ensures Replay(def, id, events).value.version == |events|
    ensures Replay(def, id, events).value.state.None? <==> events == []
    ensures Replay(def, id, events).value.eventIds == IdSet(events)
    ensures Consecutive(events) && DistinctEventIds(events)
    ensures forall e :: e in events ==> e.stream == StreamKey(def.aggregateType, id)
    decreases |events|
  {
    if events != [] {
      var init, last := events[..|events| - 1], events[|events| - 1];
      assert events == init + [last];
      ReplaySplits(def, id, init, [last]);
      ReplayCounts(def, id, init);
      var p := Replay(def, id, init).value;
      assert [last][1..] == [];
      assert Step(def, id, p, last).Ok? && Resume(def, id, Step(def, id, p, last).value, []).Ok?;
      forall i | 0 <= i < |init|
        ensures init[i].eventId != last.eventId
      {
        assert init[i] in init;
      }
    }
  }

  // ---------------------------------------------------------------- prepared batches

  /** Replaying gives this state at this version. */
  predicate ReplaysTo<S(==)>(def: Definition<S>, id: Id, events: seq<Event>, state: S, version: int) {
    var r := Replay(def, id, events);
    r.Ok? && r.value.state == Some(state) && r.value.version == version
  }

  /** What a successful preparation has established about its history and its one event. */
  lemma PreparedBatch<S>(def: Definition<S>, c: Command, history: seq<Event>, ctx: Context, p: Prepared<S>) returns (e: Event)
    requires Prepare(def, c, history, ctx) == Ok(p)
    ensures p.batch.identity == IdentityOf(c) && p.batch.stream == c.stream
    ensures c.stream.aggregateType == def.aggregateType
    ensures p.batch.expectedVersion == c.expectedVersion == |history|
    ensures p.batch.events == [e] && p.batch.outbox == [] && |p.batch.audit| == 1
    ensures p.batch.audit[0].auditId == ctx.auditId
    ensures e.eventId == ctx.eventId && e.causationId == c.commandId && e.stream == c.stream
    ensures e.version == |history| + 1 && e.payloadHash == OfValue(e.payload)
    ensures Replay(def, c.stream.aggregateId, history).Ok?
    ensures ReplaysTo(def, c.stream.aggregateId, history + [e], p.state, |history| + 1)
  {
    ReplayCounts(def, c.stream.aggregateId, history);
    e := p.batch.events[0];
    ReplayCounts(def, c.stream.aggregateId, history + [e]);
  }

  /** A one-event batch with fresh ids that continues its stream is committed. */
  lemma OneEventCommits(db: Db, batch: Batch, e: Event) returns (db': Db, receipt: Receipt)
    requires DbOk(db) && FindDuplicate(db, batch.identity).NoReceipt?
    requires batch.events == [e] && batch.outbox == [] && |batch.audit| == 1
    requires batch.expectedVersion == |Stream(db.journal, batch.stream)|
    requires e.stream == batch.stream && e.version == batch.expectedVersion + 1 && e.payloadHash == OfValue(e.payload)
    requires forall i :: 0 <= i < |db.journal| ==> db.journal[i].eventId != e.eventId
    requires forall i :: 0 <= i < |db.audit| ==> db.audit[i].auditId != batch.audit[0].auditId
    ensures Commit(db, batch) == (db', Ok(receipt)) && DbOk(db')
    ensures receipt.base.committedVersion == batch.expectedVersion + 1 && receipt.base.eventIds == [e.eventId]
    ensures Stream(db'.journal, batch.stream) == Stream(db.journal, batch.stream) + [e]
  {
    ReadsStream(db, batch.stream, 0);
    FreshEventFits(db, batch);
    CommitAccepts(db, batch);
    CommitKeeps(db, batch);
    db', receipt := Commit(db, batch).0, MakeReceipt(batch, batch.expectedVersion);
    StreamsKept(db, batch, db', batch.stream);
    assert EventIds(batch.events) == [e.eventId];
  }

  /** A batch prepared against the store's history is accepted while the store stays at that history,
      and what `readEvents` then returns replays to the prepared state. */
  lemma PreparedCommits<S>(def: Definition<S>, c: Command, db: Db, history: seq<Event>, ctx: Context, limit: nat, p: Prepared<S>)
    returns (db': Db, receipt: Receipt)
    requires DbOk(db) && |Stream(db.journal, c.stream)| < limit
    requires history == ReadEvents(db, c.stream, limit) && Prepare(def, c, history, ctx) == Ok(p)
    requires FindDuplicate(db, IdentityOf(c)).NoReceipt?
    requires forall i :: 0 <= i < |db.journal| ==> db.journal[i].eventId != ctx.eventId
    requires forall i :: 0 <= i < |db.audit| ==> db.audit[i].auditId != ctx.auditId
    ensures Commit(db, p.batch) == (db', Ok(receipt))
    ensures receipt.base.committedVersion == c.expectedVersion + 1 && receipt.base.eventIds == [ctx.eventId]
    ensures ReplaysTo(def, c.stream.aggregateId, ReadEvents(db', c.stream, limit), p.state, c.expectedVersion + 1)
  {
    ReadsStream(db, c.stream, limit);
    var e := PreparedBatch(def, c, history, ctx, p);
    db', receipt := OneEventCommits(db, p.batch, e);
    ReadsOneMore(db, db', c.stream, e, limit);
  }

  lemma ReadsOneMore(db: Db, db': Db, key: StreamKey, e: Event, limit: nat)
    requires DbOk(db) && DbOk(db') && |Stream(db.journal, key)| < limit
    requires Stream(db'.journal, key) == Stream(db.journal, key) + [e]
    ensures ReadEvents(db', key, limit) == ReadEvents(db, key, limit) + [e]
  {
    ReadsStream(db, key, limit);
    ReadsStream(db', key, limit);
  }

  lemma FreshEventFits(db: Db, batch: Batch)
    requires DbOk(db) && |batch.events| == 1 && |batch.audit| == 1
    requires batch.expectedVersion == |Stream(db.journal, batch.stream)|
    requires var e := batch.events[0];
      e.stream == batch.stream && e.version == batch.expectedVersion + 1 && e.payloadHash == OfValue(e.payload)
    requires forall i :: 0 <= i < |db.journal| ==> db.journal[i].eventId != batch.events[0].eventId
    requires forall i :: 0 <= i < |db.audit| ==> db.audit[i].auditId != batch.audit[0].auditId
    ensures Fit(db.journal, batch.events, batch.stream, batch.expectedVersion) && AuditFit(db.audit, batch.audit)
  {
    forall i | 0 <= i < |db.journal| && db.journal[i].stream == batch.stream
      ensures db.journal[i].version != batch.events[0].version
    {
      var k := StreamComplete(db.journal, i);
      assert Consecutive(Stream(db.journal, batch.stream));
    }
  }

  /** On a store that has moved on, the batch of a command without a receipt is refused and leaves no
      trace. */
  lemma StaleBatchIsRefused<S>(def: Definition<S>, c: Command, history: seq<Event>, ctx: Context, db: Db, p: Prepared<S>)
    requires DbOk(db) && Prepare(def, c, history, ctx) == Ok(p)
    requires FindDuplicate(db, IdentityOf(c)).NoReceipt?
    requires |Stream(db.journal, c.stream)| != |history|
    ensures Commit(db, p.batch) == (db, Err(OptimisticConcurrency))
  {
    var e := PreparedBatch(def, c, history, ctx, p);
    ReadsStream(db, c.stream, 0);
  }
}

/** What the kernel accepts, and what it makes of it. */
module KernelLaws {
  // The kernel's functions against descriptions of commands, events, histories and batches that do not
  // follow their control flow.
  import opened CodeUnits
  import opened CanonicalJson
  import opened Envelopes
  import opened Store
  import opened StoreHistory
  import opened Kernel

  // ---------------------------------------------------------------- commands and events

  predicate CommandOk<S>(def: Definition<S>, c: Command) {
    && def.commandValid(c) && def.payloadValid(c.commandType, c.payload)
    && c.stream.aggregateType == def.aggregateType && c.commandType in def.commandTypes
    && 0 <= c.expectedVersion < MAX_SAFE_INTEGER
    && c.payloadSchema == def.commandSchema(c.commandType) && c.payloadHash == OfValue(c.payload)
  }

  /** A command is admitted, as it is, iff it meets the contracts; for another aggregate or of an unknown
      type it is unsupported. */
  lemma AdmitsExactly<S>(def: Definition<S>, c: Command)
    ensures Admit(def, c) == Ok(c) <==> CommandOk(def, c)
    ensures Admit(def, c).Ok? ==> Admit(def, c) == Ok(c)
    ensures Admit(def, c) == Err(UnsupportedCommand) <==>
      def.commandValid(c) && c.expectedVersion >= 0
      && (c.stream.aggregateType != def.aggregateType || c.commandType !in def.commandTypes)
    ensures Admit(def, c).Err? ==> Admit(def, c).error in {InvalidContract, UnsupportedCommand}
  {
  }

  predicate EventOk<S>(def: Definition<S>, e: Event) {
    && def.eventValid(e) && def.payloadValid(e.eventType, e.payload) && e.eventType in def.eventTypes
    && e.payloadSchema == def.eventSchema(e.eventType) && e.payloadHash == OfValue(e.payload)
  }

  // ---------------------------------------------------------------- histories

  ghost predicate Moves<S>(def: Definition<S>, before: Option<S>, e: Event, after: Option<S>) {
    after.Some? && def.apply(before, e) == Ok(after.value)
  }

  /** The states a stream goes through, from none at all. */
  ghost predicate Evolves<S>(def: Definition<S>, events: seq<Event>, states: seq<Option<S>>) {
    && |states| == |events| + 1 && states[0] == None
    && forall i :: 0 <= i < |events| ==> Moves(def, states[i], events[i], states[i + 1])
  }

  /** A history of one aggregate: valid events of its stream, numbered from 1, no id twice. */
  predicate IsHistory<S>(def: Definition<S>, id: Id, events: seq<Event>) {
    && 1 <= |id| <= 256 && |events| <= MAX_SAFE_INTEGER
    && (forall i :: 0 <= i < |events| ==>
         events[i].stream == StreamKey(def.aggregateType, id) && events[i].version == i + 1 && EventOk(def, events[i]))
    && forall i, j :: 0 <= i < j < |events| ==> events[i].eventId != events[j].eventId
  }

  lemma ReplayOneMore<S>(def: Definition<S>, id: Id, init: seq<Event>, e: Event)
    requires Replay(def, id, init).Ok?
    ensures Replay(def, id, init + [e]) == Step(def, id, Replay(def, id, init).value, e)
  {
    ReplaySplits(def, id, init, [e]);
    var p := Replay(def, id, init).value;
    assert [e][1..] == [];
    var s := Step(def, id, p, e);
    if s.Ok? {
      assert Resume(def, id, p, [e]) == Resume(def, id, s.value, []);
    }
  }

  lemma ReplayPrefix<S>(def: Definition<S>, id: Id, init: seq<Event>, e: Event)
    requires Replay(def, id, init + [e]).Ok?
    ensures Replay(def, id, init).Ok?
  {
    ReplaySplits(def, id, init, [e]);
  }

  lemma HistoryInit<S>(def: Definition<S>, id: Id, init: seq<Event>, last: Event)
    requires IsHistory(def, id, init + [last])
    ensures IsHistory(def, id, init) && EventOk(def, last)
    ensures last.stream == StreamKey(def.aggregateType, id) && last.version == |init| + 1 <= MAX_SAFE_INTEGER
    ensures last.eventId !in IdSet(init)
  {
    var events := init + [last];
    assert events[|init|] == last && forall i :: 0 <= i < |init| ==> events[i] == init[i];
    forall i | 0 <= i < |init|
      ensures init[i].eventId != last.eventId
    {
      assert events[i].eventId != events[|init|].eventId;
    }
  }

  lemma EvolvesInit<S>(def: Definition<S>, init: seq<Event>, last: Event, states: seq<Option<S>>)
    requires Evolves(def, init + [last], states)
    ensures Evolves(def, init, states[..|init| + 1]) && Moves(def, states[|init|], last, states[|init| + 1])
  {
    var events, before := init + [last], states[..|init| + 1];
    assert Moves(def, states[|init|], events[|init|], states[|init| + 1]);
    forall i | 0 <= i < |init|
      ensures Moves(def, before[i], init[i], before[i + 1])
    {
      assert Moves(def, states[i], events[i], states[i + 1]);
    }
  }

  lemma StepTaken<S>(def: Definition<S>, id: Id, p: Progress<S>, e: Event, after: Option<S>)
    requires EventOk(def, e) && e.stream == StreamKey(def.aggregateType, id) && e.version == p.version + 1 <= MAX_SAFE_INTEGER
    requires e.eventId !in p.eventIds && Moves(def, p.state, e, after)
    ensures Step(def, id, p, e) == Ok(Progress(after, e.version, p.eventIds + {e.eventId}))
  {
  }

  /** What replaying says of a history that evolves: its last state, its length. */
  lemma {:induction false} HistoryReplays<S>(def: Definition<S>, id: Id, events: seq<Event>, states: seq<Option<S>>)
    requires IsHistory(def, id, events) && Evolves(def, events, states)
    ensures Replay(def, id, events) == Ok(Progress(states[|events|], |events|, IdSet(events)))
    decreases |events|
  {
    if events != [] {
      var init, last := events[..|events| - 1], events[|events| - 1];
      assert events == init + [last];
      HistoryInit(def, id, init, last);
      EvolvesInit(def, init, last, states);
      HistoryReplays(def, id, init, states[..|events|]);
      ReplayOneMore(def, id, init, last);
      StepTaken(def, id, Replay(def, id, init).value, last, states[|events|]);
      assert IdSet(events) == IdSet(init) + {last.eventId};
    } else {
      assert IdSet(events) == {};
    }
  }

  lemma {:induction false} ReplayedIsHistory<S>(def: Definition<S>, id: Id, events: seq<Event>) returns (states: seq<Option<S>>)
    requires Replay(def, id, events).Ok?
    ensures IsHistory(def, id, events) && Evolves(def, events, states)
    decreases |events|
  {
    states := [None];
    if events != [] {
      var init, last := events[..|events| - 1], events[|events| - 1];
      assert events == init + [last];
      ReplayPrefix(def, id, init, last);
      states := ReplayedIsHistory(def, id, init);
      HistoryReplays(def, id, init, states);
      ReplayOneMore(def, id, init, last);
      states := states + [Replay(def, id, events).value.state];
      ReplayCounts(def, id, events);
      EvolvesOneMore(def, init, last, states);
      assert forall i :: 0 <= i < |init| ==> events[i] == init[i];
    }
  }

  lemma EvolvesOneMore<S>(def: Definition<S>, init: seq<Event>, last: Event, states: seq<Option<S>>)
    requires |states| == |init| + 2 && Evolves(def, init, states[..|init| + 1]) && Moves(def, states[|init|], last, states[|init| + 1])
    ensures Evolves(def, init + [last], states)
  {
    var events, before := init + [last], states[..|init| + 1];
    forall i | 0 <= i < |events|
      ensures Moves(def, states[i], events[i], states[i + 1])
    {
      if i < |init| {
        assert Moves(def, before[i], init[i], before[i + 1]);
      }
    }
  }

  /** The replay loop accepts exactly the histories whose events the domain applies one after another, and
      gives the last state and the number of events. */
  lemma ReplaysExactly<S>(def: Definition<S>, id: Id, events: seq<Event>, state: Option<S>, version: int)
    ensures (Replay(def, id, events).Ok? && Replay(def, id, events).value.state == state && Replay(def, id, events).value.version == version)
            <==> version == |events| && IsHistory(def, id, events)
                 && exists states :: Evolves(def, events, states) && states[|events|] == state
  {
    if Replay(def, id, events).Ok? {
      var states := ReplayedIsHistory(def, id, events);
      HistoryReplays(def, id, events, states);
    }
    if IsHistory(def, id, events) {
      if states :| Evolves(def, events, states) && states[|events|] == state {
        HistoryReplays(def, id, events, states);
      }
    }
  }

  // ---------------------------------------------------------------- preparation

  /** The event that a decision on a command becomes. */
  predicate Records<S>(def: Definition<S>, e: Event, c: Command, d: Decision, ctx: Context) {
    && e.stream == c.stream && e.version == c.expectedVersion + 1
    && e.eventType == d.eventType && e.payload == d.payload && e.payloadHash == OfValue(d.payload)
    && e.payloadSchema == def.eventSchema(d.eventType)
    && e.causationId == c.commandId && e.correlationId == c.correlationId && e.actor == c.actor
    && e.eventId == ctx.eventId && e.occurredAt == ctx.occurredAt
  }

  /** The batch that commits a command's one event, with one audit fact and no outbox task. */
  predicate Submits(batch: Batch, c: Command, e: Event, ctx: Context) {
    && batch.identity.commandId == c.commandId && batch.identity.idempotencyKey == c.idempotencyKey
    && batch.identity.effectScope == c.stream.aggregateType + Ascii(":") + c.stream.aggregateId
    && batch.identity.payloadHash == OfCommand(c)
    && batch.transactionId == ctx.transactionId && batch.capturedAt == ctx.occurredAt
    && batch.stream == c.stream && batch.expectedVersion == c.expectedVersion
    && batch.events == [e] && batch.outbox == [] && |batch.audit| == 1
    && batch.audit[0].auditId == ctx.auditId && batch.audit[0].occurredAt == ctx.occurredAt
    && batch.audit[0].action == Ascii("KERNEL_COMMAND_COMMITTED") && batch.audit[0].payloadHash == OfCommand(c)
  }

  /** What the domain decides on a command after a history, and the state it leads to. */
  ghost predicate Transition<S(!new)>(def: Definition<S>, c: Command, history: seq<Event>, d: Decision, e: Event, state: S) {
    exists states :: Evolves(def, history, states) && def.decide(states[|history|], c) == Ok(d)
                     && def.apply(states[|history|], e) == Ok(state)
  }

  lemma ScopeIsSpelled(key: StreamKey)
    ensures EffectScope(key) == key.aggregateType + Ascii(":") + key.aggregateId
  {
    assert Ascii(":") == [COLON];
  }

  lemma MakesAsTold<S>(def: Definition<S>, c: Command, d: Decision, ctx: Context, e: Event, batch: Batch)
    requires Records(def, e, c, d, ctx) && Submits(batch, c, e, ctx)
    ensures e == MakeEvent(def, c, d, c.expectedVersion + 1, ctx) && batch == MakeBatch(c, e, ctx)
  {
    ScopeIsSpelled(c.stream);
    assert batch.audit == [batch.audit[0]];
  }

  /** A command is prepared whenever it meets the contracts, the history ends at the version it expects, the
      domain decides and applies an event of a known type that meets the contracts, its id is new to the
      history, and the batch meets its contract. */
  lemma PrepareAccepts<S(!new)>(def: Definition<S>, c: Command, history: seq<Event>, ctx: Context, d: Decision, e: Event, state: S, batch: Batch)
    requires CommandOk(def, c) && IsHistory(def, c.stream.aggregateId, history) && c.expectedVersion == |history|
    requires Transition(def, c, history, d, e, state)
    requires Records(def, e, c, d, ctx) && EventOk(def, e) && forall h :: h in history ==> h.eventId != ctx.eventId
    requires Submits(batch, c, e, ctx) && def.batchValid(batch)
    ensures Prepare(def, c, history, ctx) == Ok(Prepared(batch, state))
  {
    AdmitsExactly(def, c);
    MakesAsTold(def, c, d, ctx, e, batch);
    var states :| Evolves(def, history, states) && def.decide(states[|history|], c) == Ok(d)
                  && def.apply(states[|history|], e) == Ok(state);
    HistoryReplays(def, c.stream.aggregateId, history, states);
    ReplayOneMore(def, c.stream.aggregateId, history, e);
  }

  /** Conversely, whatever is prepared is all that. */
  lemma PrepareMeans<S(!new)>(def: Definition<S>, c: Command, history: seq<Event>, ctx: Context, p: Prepared<S>) returns (d: Decision, e: Event)
    requires Prepare(def, c, history, ctx) == Ok(p)
    ensures CommandOk(def, c) && IsHistory(def, c.stream.aggregateId, history) && c.expectedVersion == |history|
    ensures Transition(def, c, history, d, e, p.state)
    ensures Records(def, e, c, d, ctx) && EventOk(def, e) && forall h :: h in history ==> h.eventId != ctx.eventId
    ensures Submits(p.batch, c, e, ctx) && def.batchValid(p.batch)
  {
    AdmitsExactly(def, c);
    ScopeIsSpelled(c.stream);
    var id := c.stream.aggregateId;
    var states := ReplayedIsHistory(def, id, history);
    HistoryReplays(def, id, history, states);
    d := def.decide(states[|history|], c).value;
    e := MakeEvent(def, c, d, |history| + 1, ctx);
    ReplayOneMore(def, id, history, e);
    assert p.batch == MakeBatch(c, e, ctx);
    assert EventOk(def, e) && e.eventId !in IdSet(history);
    assert def.apply(states[|history|], e) == Ok(p.state);
  }

  // ---------------------------------------------------------------- identities

  lemma TextsApart(a: Text, b: Text, c: Text)
    ensures a + b == a + c <==> b == c
  {
    assert (a + b)[|a|..] == b && (a + c)[|a|..] == c;
  }

  /** An idempotency key is spent for one aggregate only: a second command with it, under a command id of its
      own, conflicts with the first command's receipt iff it is for the same aggregate. */
  lemma KeysAreScoped(db: Db, c: Command, d: Command, receipt: Receipt)
    requires db.receipts == [Row(IdentityOf(c), receipt)]
    requires c.commandId != d.commandId && c.stream.aggregateType == d.stream.aggregateType
    ensures FindDuplicate(db, IdentityOf(d)) ==
      if c.idempotencyKey == d.idempotencyKey && c.stream == d.stream then Lookup.Conflict else NoReceipt
  {
    var row := db.receipts[0];
    assert db.receipts[..0] == [];
    assert Clashing(db.receipts, IdentityOf(d)) == if Clashes(row, IdentityOf(d)) then [row] else [];
    TextsApart(c.stream.aggregateType + [COLON], c.stream.aggregateId, d.stream.aggregateId);
  }

  /** The identity binds the whole command: two different commands have different identities. */
  lemma IdentityBinds(c: Command, d: Command)
    ensures IdentityOf(c) == IdentityOf(d) <==> c == d
  {
  }
}

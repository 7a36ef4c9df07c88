/** The workflow-run aggregate. */
module Workflow {
  // What it makes of the service's row limit: a run's stream never grows past one event, so no call on
  // it can fail the consistency checks of `#result`.
  import opened CodeUnits
  import opened CanonicalJson
  import opened Envelopes
  import opened Store
  import opened StoreHistory
  import opened Kernel
  import opened WorkflowService

  datatype Status = Created

  datatype RunState = RunState(
    runId: Id,
    version: int,
    status: Status,
    workflowDefinitionId: Value,
    workflowDefinitionVersion: Value,
    createdByCommandId: Value,
    createdAt: Text)

  const WORKFLOW_RUN: Text := Ascii("WorkflowRun")
  const CREATE_WORKFLOW_RUN: Text := Ascii("CreateWorkflowRun")
  const WORKFLOW_RUN_CREATED: Text := Ascii("WorkflowRunCreated")
  const DEFINITION_ID: Text := Ascii("workflowDefinitionId")
  const DEFINITION_VERSION: Text := Ascii("workflowDefinitionVersion")
  const CREATED_BY: Text := Ascii("createdByCommandId")

  /** A property of a payload; a schema-valid payload has every property read here. */
  function Property(payload: Value, key: Text): Value {
    if payload.ObjValue? && key in payload.fields then payload.fields[key] else NullValue
  }

  function Decide(state: Option<RunState>, c: Command): Result<Decision, KernelFailure> {
    if state.Some? || c.commandType != CREATE_WORKFLOW_RUN || c.expectedVersion != 0 then Err(DomainRejected)
    else
      Ok(Decision(WORKFLOW_RUN_CREATED, ObjValue(map[
        DEFINITION_ID := Property(c.payload, DEFINITION_ID),
        DEFINITION_VERSION := Property(c.payload, DEFINITION_VERSION),
        CREATED_BY := StrValue(c.commandId)])))
  }

  function Apply(state: Option<RunState>, e: Event): Result<RunState, KernelFailure> {
    if state.Some? || e.eventType != WORKFLOW_RUN_CREATED || e.version != 1
       || Property(e.payload, CREATED_BY) != StrValue(e.causationId) then Err(ReplayInvalid)
    else
      Ok(RunState(e.stream.aggregateId, e.version, Created, Property(e.payload, DEFINITION_ID),
                  Property(e.payload, DEFINITION_VERSION), Property(e.payload, CREATED_BY), e.occurredAt))
  }

  /** The aggregate's definition over a contract registry's schemas. */
  function RunDefinition(commandSchema: SchemaRef, eventSchema: SchemaRef, commandValid: Command -> bool,
                         eventValid: Event -> bool, payloadValid: (Text, Value) -> bool,
                         batchValid: Batch -> bool): Definition<RunState>
  {
    Definition(WORKFLOW_RUN, {CREATE_WORKFLOW_RUN}, {WORKFLOW_RUN_CREATED}, _ => commandSchema, _ => eventSchema,
               commandValid, eventValid, payloadValid, batchValid, Decide, Apply)
  }

  /** The definition is this aggregate's, whatever the registry. */
  ghost predicate IsRunDefinition(def: Definition<RunState>) {
    exists commandSchema, eventSchema, commandValid, eventValid, payloadValid, batchValid ::
      def == RunDefinition(commandSchema, eventSchema, commandValid, eventValid, payloadValid, batchValid)
  }

  lemma Unpacked(def: Definition<RunState>)
    requires IsRunDefinition(def)
    ensures def.aggregateType == WORKFLOW_RUN
    ensures forall s, e :: def.apply(s, e) == Apply(s, e)
    ensures forall s, c :: def.decide(s, c) == Decide(s, c)
    ensures forall t :: t in def.commandTypes <==> t == CREATE_WORKFLOW_RUN
    ensures forall t :: t in def.eventTypes <==> t == WORKFLOW_RUN_CREATED
  {
    var commandSchema, eventSchema, commandValid, eventValid, payloadValid, batchValid :|
      def == RunDefinition(commandSchema, eventSchema, commandValid, eventValid, payloadValid, batchValid);
  }

  /** What the command decides is what the event applies. */
  lemma DecisionApplies(c: Command, ctx: Context, def: Definition<RunState>)
    requires IsRunDefinition(def) && Decide(None, c).Ok?
    ensures Apply(None, MakeEvent(def, c, Decide(None, c).value, 1, ctx)) ==
      Ok(RunState(c.stream.aggregateId, 1, Created, Property(c.payload, DEFINITION_ID),
                  Property(c.payload, DEFINITION_VERSION), StrValue(c.commandId), ctx.occurredAt))
  {
    assert |DEFINITION_ID| == 20 && |DEFINITION_VERSION| == 25 && |CREATED_BY| == 18;
  }

  lemma ReplayOfOne(def: Definition<RunState>, id: Id, e: Event)
    requires IsRunDefinition(def) && Replay(def, id, [e]).Ok?
    ensures Apply(None, e).Ok? && Replay(def, id, [e]).value.state == Some(Apply(None, e).value)
  {
    Unpacked(def);
    var p: Progress<RunState> := Progress(None, 0, {});
    assert [e][1..] == [];
    assert Resume(def, id, p, [e]) == Resume(def, id, Step(def, id, p, e).value, []);
    assert def.apply(p.state, e) == Apply(None, e);
  }

  /** A second creation event cannot be replayed. */
  lemma ReplaysAtMostOne(def: Definition<RunState>, id: Id, events: seq<Event>)
    requires IsRunDefinition(def) && Replay(def, id, events).Ok?
    ensures |events| <= 1
    ensures events != [] ==>
      Apply(None, events[0]).Ok? && Replay(def, id, events).value.state == Some(Apply(None, events[0]).value)
  {
    if |events| >= 1 {
      var e, rest := events[0], events[1..];
      assert events == [e] + rest;
      ReplaySplits(def, id, [e], rest);
      ReplayOfOne(def, id, e);
      if rest != [] {
        Unpacked(def);
        assert false;
      }
      assert events == [e];
    }
  }

  /** The stream of a run has at most its creation. */
  lemma StreamAtMostOne(def: Definition<RunState>, db: Db, key: StreamKey)
    requires IsRunDefinition(def) && StoreOk(def, db) && key.aggregateType == def.aggregateType
    ensures |Stream(db.journal, key)| <= 1
  {
    var events := Stream(db.journal, key);
    if events != [] {
      var k := |events| - 1;
      assert Covered(db, key, k);
      var i :| 0 <= i < |db.receipts| && db.receipts[i].receipt.base.stream == key
               && db.receipts[i].receipt.base.committedVersion == k + 1;
      RowReplays(def, db.journal, db.receipts[i]);
      ReplaysAtMostOne(def, key.aggregateId, events);
    }
  }

  lemma RowReplays(def: Definition<RunState>, journal: seq<Event>, row: Row)
    requires RowOk(def, journal, row) && row.receipt.base.stream.aggregateType == def.aggregateType
    requires row.receipt.base.committedVersion == |Stream(journal, row.receipt.base.stream)|
    ensures Replay(def, row.receipt.base.stream.aggregateId, Stream(journal, row.receipt.base.stream)).Ok?
  {
    var events := Stream(journal, row.receipt.base.stream);
    assert events[..|events|] == events;
  }

  /** In every run of any number of interleaved calls, with every row limit that admits one event, no
      call ever fails a consistency check of `#result`. */
  lemma {:induction false} NeverInconsistent(def: Definition<RunState>, limit: nat, states: seq<State<RunState>>,
                                             actions: seq<Action>, i: nat, k: nat)
    requires IsRunDefinition(def) && limit >= 1
    requires Run(def, limit, states, actions) && i < |states| && k in states[i].calls
    ensures !states[i].calls[k].Inconsistent?
  {
    if i > 0 {
      var s, a := states[i - 1], actions[i - 1];
      assert Enabled(def, s, a) && states[i - 1 + 1] == Next(def, limit, s, a);
      if k in s.calls {
        NeverInconsistent(def, limit, states, actions, i - 1, k);
        if a.Proceed? && a.k == k {
          AnswersIffWithinLimit(def, limit, states, actions, i - 1, k);
          InvAlongRun(def, limit, states, actions, i - 1);
          if s.calls[k].Answering? {
            AnswerWithinOne(def, s.db, s.calls[k]);
          }
        }
      }
    }
  }

  lemma AnswerWithinOne(def: Definition<RunState>, db: Db, call: Call<RunState>)
    requires IsRunDefinition(def) && StoreOk(def, db) && CallOk(def, db, call) && call.Answering?
    ensures call.receipt.base.committedVersion <= 1
  {
    AdmittedStream(def, call.c);
    ReceiptBinds(def, db, call.c, call.receipt);
    StreamAtMostOne(def, db, call.c.stream);
  }

  /** Whoever succeeds has created the run: the state returned is version 1 of the run the command
      names, created by that command. */
  lemma SuccessCreated(def: Definition<RunState>, limit: nat, states: seq<State<RunState>>, actions: seq<Action>, i: nat, k: nat)
    requires IsRunDefinition(def) && Run(def, limit, states, actions) && i < |states|
    requires k in states[i].calls && states[i].calls[k].Succeeded?
    ensures var call := states[i].calls[k];
      && call.receipt.base.committedVersion == 1 && call.state.version == 1
      && call.state.runId == call.c.stream.aggregateId
      && call.state.createdByCommandId == StrValue(call.c.commandId)
      && |Stream(states[i].db.journal, call.c.stream)| == 1
  {
    InvAlongRun(def, limit, states, actions, i);
    var call, db := states[i].calls[k], states[i].db;
    assert CallOk(def, db, call);
    SuccessIsCreation(def, db, call);
    CreatedBy(def, call.c, Stream(db.journal, call.c.stream), call.state);
  }

  /** A successful call's receipt, its stream and its state. */
  lemma SuccessIsCreation(def: Definition<RunState>, db: Db, call: Call<RunState>)
    requires IsRunDefinition(def) && StoreOk(def, db) && CallOk(def, db, call) && call.Succeeded?
    ensures call.receipt.base.committedVersion == 1
    ensures var events := Stream(db.journal, call.c.stream);
      |events| == 1 && events[0].causationId == call.c.commandId
      && ReplaysTo(def, call.c.stream.aggregateId, events, call.state, 1)
  {
    AdmittedStream(def, call.c);
    ReceiptBinds(def, db, call.c, call.receipt);
    StreamAtMostOne(def, db, call.c.stream);
    var events := Stream(db.journal, call.c.stream);
    assert events[..1] == events;
  }

  lemma CreatedBy(def: Definition<RunState>, c: Command, events: seq<Event>, state: RunState)
    requires IsRunDefinition(def) && ReplaysTo(def, c.stream.aggregateId, events, state, 1)
    requires |events| == 1 && events[0].causationId == c.commandId
    ensures state.version == 1 && state.runId == c.stream.aggregateId
    ensures state.createdByCommandId == StrValue(c.commandId)
  {
    ReplaysAtMostOne(def, c.stream.aggregateId, events);
    ReplayCounts(def, c.stream.aggregateId, events);
    assert events[0] in events;
  }

  /** A run is created once: of all commands ever executed for it, one at most succeeds. */
  lemma OneCreator(def: Definition<RunState>, limit: nat, states: seq<State<RunState>>, actions: seq<Action>, i: nat, k: nat, l: nat)
    requires IsRunDefinition(def) && Run(def, limit, states, actions) && i < |states|
    requires k in states[i].calls && states[i].calls[k].Succeeded?
    requires l in states[i].calls && states[i].calls[l].Succeeded?
    requires states[i].calls[k].c.stream == states[i].calls[l].c.stream
    ensures states[i].calls[k].c == states[i].calls[l].c && states[i].calls[k] == states[i].calls[l]
  {
    SuccessCause(def, limit, states, actions, i, k);
    SuccessCause(def, limit, states, actions, i, l);
    InvAlongRun(def, limit, states, actions, i);
    var db := states[i].db;
    var p := FoundIsRow(db, IdentityOf(states[i].calls[k].c));
    var q := FoundIsRow(db, IdentityOf(states[i].calls[l].c));
    OneRowPerCommand(db.receipts, p, q);
    SameAnswer(def, limit, states, actions, i, k, l);
  }

  lemma SuccessCause(def: Definition<RunState>, limit: nat, states: seq<State<RunState>>, actions: seq<Action>, i: nat, k: nat)
    requires IsRunDefinition(def) && Run(def, limit, states, actions) && i < |states|
    requires k in states[i].calls && states[i].calls[k].Succeeded?
    ensures HasReceipt(states[i].db, states[i].calls[k].c, states[i].calls[k].receipt)
    ensures var call := states[i].calls[k];
      |Stream(states[i].db.journal, call.c.stream)| == 1
      && Stream(states[i].db.journal, call.c.stream)[0].causationId == call.c.commandId
  {
    InvAlongRun(def, limit, states, actions, i);
    assert CallOk(def, states[i].db, states[i].calls[k]);
    SuccessIsCreation(def, states[i].db, states[i].calls[k]);
  }
}

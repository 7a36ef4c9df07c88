/** Creating a workflow run, from command to answer. */
module WorkflowLaws {
  import opened CodeUnits
  import opened CanonicalJson
  import opened Envelopes
  import opened Store
  import opened StoreHistory
  import opened Kernel
  import opened KernelLaws
  import opened WorkflowService
  import opened ServiceLaws
  import opened Workflow

  const NO_EVENTS: seq<Event> := []

  /** What a command to create a run says, by the names of its payload. */
  datatype Order = Order(definitionId: Value, definitionVersion: Value)

  predicate Orders(c: Command, order: Order) {
    && c.commandType == Ascii("CreateWorkflowRun") && c.expectedVersion == 0 && c.payload.ObjValue?
    && Ascii("workflowDefinitionId") in c.payload.fields && c.payload.fields[Ascii("workflowDefinitionId")] == order.definitionId
    && Ascii("workflowDefinitionVersion") in c.payload.fields
    && c.payload.fields[Ascii("workflowDefinitionVersion")] == order.definitionVersion
  }

  /** The decision on it. */
  function Creation(c: Command, order: Order): Decision {
    Decision(Ascii("WorkflowRunCreated"), ObjValue(map[
      Ascii("workflowDefinitionId") := order.definitionId,
      Ascii("workflowDefinitionVersion") := order.definitionVersion,
      Ascii("createdByCommandId") := StrValue(c.commandId)]))
  }

  /** The run it creates. */
  function Run(c: Command, order: Order, ctx: Context): RunState {
    RunState(c.stream.aggregateId, 1, Created, order.definitionId, order.definitionVersion, StrValue(c.commandId), ctx.occurredAt)
  }

  lemma CreationIsDecided(def: Definition<RunState>, c: Command, order: Order)
    requires IsRunDefinition(def) && Orders(c, order)
    ensures def.decide(None, c) == Ok(Creation(c, order)) && Creation(c, order).eventType in def.eventTypes
  {
    Unpacked(def);
  }

  lemma CreationApplies(def: Definition<RunState>, c: Command, order: Order, e: Event, ctx: Context)
    requires IsRunDefinition(def) && Orders(c, order) && Records(def, e, c, Creation(c, order), ctx)
    ensures def.apply(None, e) == Ok(Run(c, order, ctx))
  {
    Unpacked(def);
    assert |Ascii("workflowDefinitionId")| == 20 && |Ascii("workflowDefinitionVersion")| == 25 && |Ascii("createdByCommandId")| == 18;
  }

  /** Nothing else is decided: only a command to create, expecting no version, on a run that does not exist. */
  lemma DecidesOnlyCreations(def: Definition<RunState>, state: Option<RunState>, c: Command)
    requires IsRunDefinition(def)
    ensures def.aggregateType == Ascii("WorkflowRun")
    ensures def.decide(state, c).Ok? <==> state == None && c.commandType == Ascii("CreateWorkflowRun") && c.expectedVersion == 0
    ensures def.decide(state, c).Err? ==> def.decide(state, c) == Err(DomainRejected)
  {
    Unpacked(def);
  }

  /** Nothing else is applied: only the first event of a run, a creation naming the command that caused it. */
  lemma AppliesOnlyCreations(def: Definition<RunState>, state: Option<RunState>, e: Event)
    requires IsRunDefinition(def)
    ensures def.apply(state, e).Ok? <==>
      && state == None && e.eventType == Ascii("WorkflowRunCreated") && e.version == 1
      && e.payload.ObjValue? && Ascii("createdByCommandId") in e.payload.fields
      && e.payload.fields[Ascii("createdByCommandId")] == StrValue(e.causationId)
    ensures def.apply(state, e).Err? ==> def.apply(state, e) == Err(ReplayInvalid)
  {
    Unpacked(def);
  }

  /** The first command to create a run can be committed, and creates the run it orders: with fresh ids, and
      when command, event and batch meet their contracts. */
  lemma FirstCreates(def: Definition<RunState>, limit: nat, db: Db, c: Command, order: Order, ctx: Context, e: Event, batch: Batch)
    requires IsRunDefinition(def) && CommandOk(def, c) && Orders(c, order) && 1 <= |c.stream.aggregateId| <= 256
    requires limit >= 1 && Stream(db.journal, c.stream) == NO_EVENTS
    requires FindDuplicate(db, IdentityOf(c)).NoReceipt? && FreshIds(db, ctx)
    requires Records(def, e, c, Creation(c, order), ctx) && EventOk(def, e) && Submits(batch, c, e, ctx) && def.batchValid(batch)
    ensures CanCommit(def, limit, db, c, ctx, Prepared(batch, Run(c, order, ctx)))
  {
    CreationIsDecided(def, c, order);
    CreationApplies(def, c, order, e, ctx);
    var states: seq<Option<RunState>> := [None];
    assert Evolves(def, NO_EVENTS, states) && states[|NO_EVENTS|] == None;
    assert Transition(def, c, NO_EVENTS, Creation(c, order), e, Run(c, order, ctx));
    PrepareAccepts(def, c, NO_EVENTS, ctx, Creation(c, order), e, Run(c, order, ctx), batch);
  }

  /** Only the first does: on a run that exists, no command is ever prepared. */
  lemma NoSecondCreates(def: Definition<RunState>, c: Command, history: seq<Event>, ctx: Context)
    requires IsRunDefinition(def) && history != NO_EVENTS
    ensures Prepare(def, c, history, ctx).Err?
  {
    if p :| Prepare(def, c, history, ctx) == Ok(p) {
      Unpacked(def);
      var d, e := PrepareMeans(def, c, history, ctx, p);
      assert false;
    }
  }
}

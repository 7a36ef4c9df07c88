/** Where calls of `execute` get to, and what the service's streams hold. */
module ServiceLaws {
  import opened CodeUnits
  import opened Envelopes
  import opened Store
  import opened StoreHistory
  import opened Kernel
  import opened KernelLaws
  import opened WorkflowService

  // ---------------------------------------------------------------- recovery

  /** The store has this receipt for the command, and `readEvents` reaches its version. */
  predicate Reachable(db: Db, limit: nat, c: Command, receipt: Receipt) {
    HasReceipt(db, c, receipt) && receipt.base.committedVersion <= limit
  }

  /** At most how many further awaits a pending call needs once its command has a receipt. */
  function Distance<S>(call: Call<S>): nat {
    if call.Answering? then 1 else if call.Reading? then 3 else if Pending(call) then 2 else 0
  }

  /** The call has succeeded with the receipt, or is on its way. */
  predicate OnItsWay<S>(call: Call<S>, c: Command, receipt: Receipt, most: nat) {
    call.c == c && if Pending(call) then Distance(call) <= most else call.Succeeded? && call.receipt == receipt
  }

  lemma {:induction false} EveryPrefixReplays<S>(def: Definition<S>, id: Id, events: seq<Event>, n: nat)
    requires Replay(def, id, events).Ok? && n <= |events|
    ensures Replay(def, id, events[..n]).Ok?
  {
    assert events == events[..n] + events[n..];
    ReplaySplits(def, id, events[..n], events[n..]);
  }

  lemma CoveredReplays<S>(def: Definition<S>, journal: seq<Event>, row: Row)
    requires RowOk(def, journal, row) && row.receipt.base.stream.aggregateType == def.aggregateType
    requires row.receipt.base.committedVersion == |Stream(journal, row.receipt.base.stream)|
    ensures Replay(def, row.receipt.base.stream.aggregateId, Stream(journal, row.receipt.base.stream)).Ok?
  {
    var events := Stream(journal, row.receipt.base.stream);
    assert events[..|events|] == events;
  }

  /** A stream of the service replays. */
  lemma StreamReplays<S>(def: Definition<S>, db: Db, key: StreamKey)
    requires StoreOk(def, db) && key.aggregateType == def.aggregateType && Stream(db.journal, key) != []
    ensures Replay(def, key.aggregateId, Stream(db.journal, key)).Ok?
  {
    var k: nat := |Stream(db.journal, key)| - 1;
    assert Covered(db, key, k);
    var i :| 0 <= i < |db.receipts| && db.receipts[i].receipt.base.stream == key
             && db.receipts[i].receipt.base.committedVersion == k + 1;
    CoveredReplays(def, db.journal, db.receipts[i]);
  }

  /** A history read after the command's own commit is past the version the command expects. */
  lemma ReadsPast<S>(def: Definition<S>, limit: nat, db: Db, c: Command, receipt: Receipt, ctx: Context)
    requires StoreOk(def, db) && Admit(def, c).Ok? && Reachable(db, limit, c, receipt)
    ensures WorkflowService.Prepared(def, limit, db, c, ctx).Recovering?
  {
    AdmittedStream(def, c);
    ReceiptBinds(def, db, c, receipt);
    ReadsStream(db, c.stream, limit);
    var history := ReadEvents(db, c.stream, limit);
    StreamReplays(def, db, c.stream);
    EveryPrefixReplays(def, c.stream.aggregateId, Stream(db.journal, c.stream), |history|);
    assert history == Stream(db.journal, c.stream)[..|history|];
    ReplayCounts(def, c.stream.aggregateId, history);
  }

  lemma RecoversStep<S>(def: Definition<S>, limit: nat, s: State<S>, k: nat, ctx: Context, receipt: Receipt, most: nat)
    requires Inv(def, s) && Enabled(def, s, Proceed(k, ctx)) && Reachable(s.db, limit, s.calls[k].c, receipt)
    requires OnItsWay(s.calls[k], s.calls[k].c, receipt, most + 1)
    ensures OnItsWay(Advance(def, limit, s.db, s.calls[k], ctx), s.calls[k].c, receipt, most)
  {
    var call := s.calls[k];
    assert CallOk(def, s.db, call);
    AdmittedStream(def, call.c);
    ReceiptBinds(def, s.db, call.c, receipt);
    match call
    case Looking(c) =>
    case Reading(c) => ReadsPast(def, limit, s.db, c, receipt, ctx);
    case Committing(c, history, used, p) => var e := PreparedBatch(def, c, history, used, p);
    case Recovering(c, refusal, seen) =>
    case Answering(c, found) => ConcludesIffWithinLimit(def, limit, s.db, c, receipt);
  }

  /** How often call `k` has gone on between two states. */
  function Proceeds(actions: seq<Action>, i: nat, j: nat, k: nat): nat
    requires i <= j <= |actions|
  {
    if i == j then 0 else Proceeds(actions, i, j - 1, k) + GoesOn(actions[j - 1], k)
  }

  lemma ReachableStays<S>(def: Definition<S>, limit: nat, s: State<S>, a: Action, c: Command, receipt: Receipt)
    requires Inv(def, s) && Enabled(def, s, a) && Reachable(s.db, limit, c, receipt)
    ensures Reachable(NextDb(s, a), limit, c, receipt)
  {
    StoreKept(def, s, a);
    FoundForever(s.db, NextDb(s, a), IdentityOf(c));
  }

  function GoesOn(a: Action, k: nat): nat { if a.Proceed? && a.k == k then 1 else 0 }

  /** Call `k` is for this command, whose receipt is there, and needs at most so many further steps. */
  predicate OnTrack<S>(s: State<S>, limit: nat, k: nat, c: Command, receipt: Receipt, most: nat) {
    k in s.calls && Reachable(s.db, limit, c, receipt) && OnItsWay(s.calls[k], c, receipt, most)
  }

  lemma RecoversNext<S>(def: Definition<S>, limit: nat, s: State<S>, a: Action, k: nat, c: Command, receipt: Receipt, most: nat)
    requires Inv(def, s) && Enabled(def, s, a) && !(a.Fail? && a.k == k) && OnTrack(s, limit, k, c, receipt, most)
    ensures GoesOn(a, k) <= most && OnTrack(Next(def, limit, s, a), limit, k, c, receipt, most - GoesOn(a, k))
  {
    ReachableStays(def, limit, s, a, c, receipt);
    if a.Proceed? && a.k == k {
      assert most >= 1;
      RecoversStep(def, limit, s, k, a.ctx, receipt, most - 1);
    }
  }

  /** The step keeps the call on its way, and brings it nearer when it is its own. */
  ghost predicate Keeps<S>(s: State<S>, a: Action, s': State<S>, limit: nat, k: nat, c: Command, receipt: Receipt) {
    forall most: nat {:trigger OnTrack(s, limit, k, c, receipt, most)} :: OnTrack(s, limit, k, c, receipt, most) ==>
      GoesOn(a, k) <= most && OnTrack(s', limit, k, c, receipt, most - GoesOn(a, k))
  }

  lemma RecoversAt<S(!new)>(def: Definition<S>, limit: nat, states: seq<State<S>>, actions: seq<Action>,
                            m: nat, k: nat, c: Command, receipt: Receipt)
    requires Run(def, limit, states, actions) && m < |actions| && !(actions[m].Fail? && actions[m].k == k)
    ensures Keeps(states[m], actions[m], states[m + 1], limit, k, c, receipt)
  {
    InvAlongRun(def, limit, states, actions, m);
    forall most: nat | OnTrack(states[m], limit, k, c, receipt, most)
      ensures GoesOn(actions[m], k) <= most && OnTrack(states[m + 1], limit, k, c, receipt, most - GoesOn(actions[m], k))
    {
      RecoversNext(def, limit, states[m], actions[m], k, c, receipt, most);
    }
  }

  lemma {:induction false} StaysOnTrack<S>(states: seq<State<S>>, actions: seq<Action>, limit: nat,
                                           i: nat, j: nat, k: nat, c: Command, receipt: Receipt, most: nat)
    requires |states| == |actions| + 1 && i <= j < |states| && OnTrack(states[i], limit, k, c, receipt, most)
    requires forall m :: i <= m < j ==> Keeps(states[m], actions[m], states[m + 1], limit, k, c, receipt)
    ensures Proceeds(actions, i, j, k) <= most
    ensures OnTrack(states[j], limit, k, c, receipt, most - Proceeds(actions, i, j, k))
    decreases j
  {
    if i < j {
      StaysOnTrack(states, actions, limit, i, j - 1, k, c, receipt, most);
      assert Keeps(states[j - 1], actions[j - 1], states[j - 1 + 1], limit, k, c, receipt);
    }
  }

  /** Recovery: once a command has a receipt within the row limit, in whatever step its calls are and however
      they interleave with others, a pending call for it whose store calls do not fail succeeds with that
      receipt, at the latest when it has gone on three times; until then it is pending, so it is neither
      refused nor rejected nor found inconsistent. */
  lemma Recovers<S(!new)>(def: Definition<S>, limit: nat, states: seq<State<S>>, actions: seq<Action>,
                          i: nat, j: nat, k: nat, receipt: Receipt)
    requires Run(def, limit, states, actions) && i <= j < |states| && k in states[i].calls && Pending(states[i].calls[k])
    requires HasReceipt(states[i].db, states[i].calls[k].c, receipt) && receipt.base.committedVersion <= limit
    requires forall m :: i <= m < j ==> !(actions[m].Fail? && actions[m].k == k)
    ensures k in states[j].calls && states[j].calls[k].c == states[i].calls[k].c
    ensures Pending(states[j].calls[k]) || (states[j].calls[k].Succeeded? && states[j].calls[k].receipt == receipt)
    ensures Proceeds(actions, i, j, k) >= 3 ==> states[j].calls[k].Succeeded?
  {
    var c := states[i].calls[k].c;
    forall m | i <= m < j
      ensures Keeps(states[m], actions[m], states[m + 1], limit, k, c, receipt)
    {
      RecoversAt(def, limit, states, actions, m, k, c, receipt);
    }
    StaysOnTrack(states, actions, limit, i, j, k, c, receipt, 3);
  }

  // ---------------------------------------------------------------- progress

  /** Call `k` goes on by one step. */
  ghost predicate Takes<S>(def: Definition<S>, limit: nat, s: State<S>, k: nat, ctx: Context, s': State<S>) {
    Enabled(def, s, Proceed(k, ctx)) && s' == Next(def, limit, s, Proceed(k, ctx))
  }

  predicate FreshIds(db: Db, ctx: Context) {
    && (forall i :: 0 <= i < |db.journal| ==> db.journal[i].eventId != ctx.eventId)
    && forall i :: 0 <= i < |db.audit| ==> db.audit[i].auditId != ctx.auditId
  }

  /** A command without a receipt, new to the store and at the version of its stream, which the row limit does
      not cut off, and which can be prepared. */
  predicate CanCommit<S(==)>(def: Definition<S>, limit: nat, db: Db, c: Command, ctx: Context, p: Prepared<S>) {
    && FindDuplicate(db, IdentityOf(c)).NoReceipt? && FreshIds(db, ctx)
    && |Stream(db.journal, c.stream)| < limit
    && Prepare(def, c, Stream(db.journal, c.stream), ctx) == Ok(p)
  }

  lemma StepTaken<S>(def: Definition<S>, limit: nat, s: State<S>, k: nat, ctx: Context, db: Db, call: Call<S>)
    requires k in s.calls && Pending(s.calls[k]) && call == Advance(def, limit, s.db, s.calls[k], ctx)
    requires db == if s.calls[k].Committing? then Commit(s.db, s.calls[k].prepared.batch).0 else s.db
    ensures Takes(def, limit, s, k, ctx, State(db, s.calls[k := call]))
  {
  }

  lemma Commits<S>(def: Definition<S>, limit: nat, db: Db, c: Command, ctx: Context, p: Prepared<S>) returns (db': Db, receipt: Receipt)
    requires StoreOk(def, db) && Admit(def, c).Ok? && CanCommit(def, limit, db, c, ctx, p)
    ensures Commit(db, p.batch) == (db', Ok(receipt)) && StoreOk(def, db') && HasReceipt(db', c, receipt)
    ensures receipt.base.eventIds == [ctx.eventId] && receipt.base.committedVersion == c.expectedVersion + 1
    ensures Stream(db'.journal, c.stream) == Stream(db.journal, c.stream) + p.batch.events
    ensures ReplaysTo(def, c.stream.aggregateId, Stream(db'.journal, c.stream), p.state, c.expectedVersion + 1)
  {
    ReadsStream(db, c.stream, limit);
    var events := Stream(db.journal, c.stream);
    var e := PreparedBatch(def, c, events, ctx, p);
    db', receipt := PreparedCommits(def, c, db, events, ctx, limit, p);
    OwnCommit(def, db, c, events, ctx, p);
    SuccessIsFound(db, p.batch);
    CommitCases(db, p.batch);
    assert Accepted(db, p.batch, db');
    StreamsKept(db, p.batch, db', c.stream);
  }

  /** The answer to a command that has just been committed. */
  lemma Concludes<S>(def: Definition<S>, limit: nat, db: Db, c: Command, receipt: Receipt, state: S)
    requires StoreOk(def, db) && Admit(def, c).Ok? && HasReceipt(db, c, receipt)
    requires receipt.base.committedVersion == |Stream(db.journal, c.stream)| <= limit
    requires ReplaysTo(def, c.stream.aggregateId, Stream(db.journal, c.stream), state, receipt.base.committedVersion)
    ensures Answer<S>(c, receipt) == Answering(c, receipt)
    ensures Concluded(def, limit, db, c, receipt) == Succeeded(c, receipt, state)
  {
    AdmittedStream(def, c);
    ReceiptBinds(def, db, c, receipt);
    ConcludesIffWithinLimit(def, limit, db, c, receipt);
    var events := Stream(db.journal, c.stream);
    assert events[..|events|] == events;
  }

  /** Looking the command up and reading its stream. */
  lemma ReadsAlone<S>(def: Definition<S>, limit: nat, s: State<S>, k: nat, ctx: Context, next: Call<S>)
    requires k in s.calls && s.calls[k].Looking? && FindDuplicate(s.db, IdentityOf(s.calls[k].c)).NoReceipt?
    requires next == WorkflowService.Prepared(def, limit, s.db, s.calls[k].c, ctx)
    ensures var s1 := s.(calls := s.calls[k := Reading(s.calls[k].c)]);
      Takes(def, limit, s, k, ctx, s1) && Takes(def, limit, s1, k, ctx, s.(calls := s.calls[k := next]))
  {
    var c := s.calls[k].c;
    var s1 := s.(calls := s.calls[k := Reading(c)]);
    StepTaken(def, limit, s, k, ctx, s.db, Reading(c));
    StepTaken(def, limit, s1, k, ctx, s.db, next);
    assert s1.calls[k := next] == s.calls[k := next];
  }

  /** Committing the prepared batch and answering. */
  lemma CommitsAlone<S>(def: Definition<S>, limit: nat, s: State<S>, k: nat, ctx: Context, c: Command, history: seq<Event>,
                        p: Prepared<S>, db: Db, receipt: Receipt)
    requires k in s.calls && s.calls[k] == Committing(c, history, ctx, p)
    requires Commit(s.db, p.batch) == (db, Ok(receipt)) && Answer<S>(c, receipt) == Answering(c, receipt)
    requires Concluded(def, limit, db, c, receipt) == Succeeded(c, receipt, p.state)
    ensures var s1 := State(db, s.calls[k := Answering(c, receipt)]);
      Takes(def, limit, s, k, ctx, s1)
      && Takes(def, limit, s1, k, ctx, State(db, s.calls[k := Succeeded(c, receipt, p.state)]))
  {
    var s1 := State(db, s.calls[k := Answering(c, receipt)]);
    StepTaken(def, limit, s, k, ctx, db, Answering(c, receipt));
    StepTaken(def, limit, s1, k, ctx, db, Succeeded(c, receipt, p.state));
    assert s1.calls[k := Succeeded(c, receipt, p.state)] == s.calls[k := Succeeded(c, receipt, p.state)];
  }

  /** Progress: a command that can be committed is committed, and its call succeeds with the prepared state:
      from the first lookup on, its own four steps do it. */
  lemma SucceedsAlone<S(!new)>(def: Definition<S>, limit: nat, s: State<S>, k: nat, ctx: Context, p: Prepared<S>)
    returns (s1: State<S>, s2: State<S>, s3: State<S>, s4: State<S>)
    requires Inv(def, s) && k in s.calls && s.calls[k].Looking? && CanCommit(def, limit, s.db, s.calls[k].c, ctx, p)
    ensures Takes(def, limit, s, k, ctx, s1) && Takes(def, limit, s1, k, ctx, s2)
    ensures Takes(def, limit, s2, k, ctx, s3) && Takes(def, limit, s3, k, ctx, s4)
    ensures k in s4.calls && s4.calls[k].Succeeded? && s4.calls[k].c == s.calls[k].c && s4.calls[k].state == p.state
    ensures var base, c := s4.calls[k].receipt.base, s.calls[k].c;
      && base.eventIds == [ctx.eventId] && base.committedVersion == c.expectedVersion + 1
      && Stream(s4.db.journal, c.stream) == Stream(s.db.journal, c.stream) + p.batch.events
  {
    var c, history := s.calls[k].c, Stream(s.db.journal, s.calls[k].c.stream);
    assert CallOk(def, s.db, s.calls[k]);
    ReadsStream(s.db, c.stream, limit);
    var db, receipt := Commits(def, limit, s.db, c, ctx, p);
    VersionAfter(def, s.db, db, c, ctx, p);
    Concludes(def, limit, db, c, receipt, p.state);
    s1 := s.(calls := s.calls[k := Reading(c)]);
    s2 := s.(calls := s.calls[k := Committing(c, history, ctx, p)]);
    s3 := State(db, s2.calls[k := Answering(c, receipt)]);
    s4 := State(db, s2.calls[k := Succeeded(c, receipt, p.state)]);
    ReadsAlone(def, limit, s, k, ctx, Committing(c, history, ctx, p));
    CommitsAlone(def, limit, s2, k, ctx, c, history, p, db, receipt);
  }

  lemma VersionAfter<S>(def: Definition<S>, db: Db, db': Db, c: Command, ctx: Context, p: Prepared<S>)
    requires Prepare(def, c, Stream(db.journal, c.stream), ctx) == Ok(p)
    requires Stream(db'.journal, c.stream) == Stream(db.journal, c.stream) + p.batch.events
    ensures |Stream(db'.journal, c.stream)| == c.expectedVersion + 1
  {
    var e := PreparedBatch(def, c, Stream(db.journal, c.stream), ctx, p);
  }

  /** A command is taken up iff it meets the contracts. */
  lemma TakenUp<S>(def: Definition<S>, input: Command)
    ensures Begin(def, input) == if CommandOk(def, input) then Looking(input) else Rejected(input)
  {
    AdmitsExactly(def, input);
  }

  /** A command that comes too late, without a receipt, is refused for its version, whatever else the domain
      might say of it. */
  lemma LateIsRefused<S(!new)>(def: Definition<S>, limit: nat, s: State<S>, k: nat, ctx: Context) returns (s1: State<S>, s2: State<S>, s3: State<S>)
    requires Inv(def, s) && k in s.calls && s.calls[k].Looking? && FindDuplicate(s.db, IdentityOf(s.calls[k].c)).NoReceipt?
    requires s.calls[k].c.expectedVersion < |Stream(s.db.journal, s.calls[k].c.stream)| <= limit
    ensures Takes(def, limit, s, k, ctx, s1) && Takes(def, limit, s1, k, ctx, s2) && Takes(def, limit, s2, k, ctx, s3)
    ensures var c := s.calls[k].c;
      s3 == s.(calls := s.calls[k := Refused(c, PreparedAgainstOther, |Stream(s.db.journal, c.stream)|)])
  {
    var c := s.calls[k].c;
    var seen := |Stream(s.db.journal, c.stream)|;
    assert CallOk(def, s.db, s.calls[k]);
    LateIsPrepared(def, limit, s.db, c, ctx);
    s1 := s.(calls := s.calls[k := Reading(c)]);
    s2 := s.(calls := s.calls[k := Recovering(c, PreparedAgainstOther, seen)]);
    s3 := s.(calls := s2.calls[k := Refused(c, PreparedAgainstOther, seen)]);
    assert s3.calls == s.calls[k := Refused(c, PreparedAgainstOther, seen)];
    ReadsAlone(def, limit, s, k, ctx, Recovering(c, PreparedAgainstOther, seen));
    StepTaken(def, limit, s2, k, ctx, s.db, Refused(c, PreparedAgainstOther, seen));
  }

  lemma LateIsPrepared<S>(def: Definition<S>, limit: nat, db: Db, c: Command, ctx: Context)
    requires StoreOk(def, db) && Admit(def, c).Ok?
    requires c.expectedVersion < |Stream(db.journal, c.stream)| <= limit
    ensures WorkflowService.Prepared(def, limit, db, c, ctx) == Recovering(c, PreparedAgainstOther, |Stream(db.journal, c.stream)|)
  {
    AdmittedStream(def, c);
    ReadsStream(db, c.stream, limit);
    StreamReplays(def, db, c.stream);
    assert ReadEvents(db, c.stream, limit) == Stream(db.journal, c.stream);
    LateConflicts(def, c, Stream(db.journal, c.stream), ctx);
  }

  lemma LateConflicts<S>(def: Definition<S>, c: Command, history: seq<Event>, ctx: Context)
    requires Admit(def, c).Ok? && Replay(def, c.stream.aggregateId, history).Ok? && |history| != c.expectedVersion
    ensures Prepare(def, c, history, ctx) == Err(VersionConflict)
  {
    ReplayCounts(def, c.stream.aggregateId, history);
  }

  /** The store's answer to a batch whose stream has moved on. */
  lemma OvertakenCommit<S>(def: Definition<S>, db: Db, call: Call<S>)
    requires StoreOk(def, db) && CallOk(def, db, call) && call.Committing? && FindDuplicate(db, IdentityOf(call.c)).NoReceipt?
    requires call.c.expectedVersion < |Stream(db.journal, call.c.stream)|
    ensures Commit(db, call.prepared.batch) == (db, Err(OptimisticConcurrency))
    ensures CurrentVersion(db, call.c.stream) == |Stream(db.journal, call.c.stream)|
  {
    var Committing(c, history, ctx, p) := call;
    var e := PreparedBatch(def, c, history, ctx, p);
    StaleBatchIsRefused(def, c, history, ctx, db, p);
    ReadsStream(db, c.stream, 0);
  }

  /** A prepared command that is overtaken before it commits is refused for its version, after another look for
      its receipt. */
  lemma OvertakenIsRefused<S(!new)>(def: Definition<S>, limit: nat, s: State<S>, k: nat, ctx: Context) returns (s1: State<S>, s2: State<S>)
    requires Inv(def, s) && k in s.calls && s.calls[k].Committing? && FindDuplicate(s.db, IdentityOf(s.calls[k].c)).NoReceipt?
    requires s.calls[k].c.expectedVersion < |Stream(s.db.journal, s.calls[k].c.stream)|
    ensures Takes(def, limit, s, k, ctx, s1) && Takes(def, limit, s1, k, ctx, s2)
    ensures var c := s.calls[k].c;
      s2 == s.(calls := s.calls[k := Refused(c, CommittedAgainstOther, |Stream(s.db.journal, c.stream)|)])
  {
    var c := s.calls[k].c;
    var seen := |Stream(s.db.journal, c.stream)|;
    OvertakenCommit(def, s.db, s.calls[k]);
    hide DbOk, Commit, StoreOk, CallOk, FindDuplicate;
    s1 := s.(calls := s.calls[k := Recovering(c, CommittedAgainstOther, seen)]);
    s2 := s.(calls := s1.calls[k := Refused(c, CommittedAgainstOther, seen)]);
    StepTaken(def, limit, s, k, ctx, s.db, Recovering(c, CommittedAgainstOther, seen));
    StepTaken(def, limit, s1, k, ctx, s.db, Refused(c, CommittedAgainstOther, seen));
    assert s2.calls == s.calls[k := Refused(c, CommittedAgainstOther, seen)];
  }

  /** A call that looks again, or that is refused, because the store refused its batch, saw a later version than
      its command expects. */
  predicate SawLater<S>(call: Call<S>) {
    (call.Recovering? || call.Refused?) && call.refusal.CommittedAgainstOther? ==> call.seen > call.c.expectedVersion
  }

  lemma ConflictIsLater<S>(def: Definition<S>, db: Db, call: Call<S>)
    requires StoreOk(def, db) && CallOk(def, db, call) && call.Committing?
    requires Commit(db, call.prepared.batch).1 == Err(OptimisticConcurrency)
    ensures CurrentVersion(db, call.c.stream) > call.c.expectedVersion
  {
    var Committing(c, history, ctx, p) := call;
    var e := PreparedBatch(def, c, history, ctx, p);
    ReadsStream(db, c.stream, 0);
    if CurrentVersion(db, c.stream) == c.expectedVersion {
      assert [e][1..] == [] && InsertEvents(db.journal, [e], c.stream, c.expectedVersion) != Err(OptimisticConcurrency);
      AuditInsertsFit(db.audit, p.batch.audit);
    }
  }

  lemma StepSawLater<S>(def: Definition<S>, limit: nat, db: Db, call: Call<S>, ctx: Context)
    requires StoreOk(def, db) && CallOk(def, db, call) && Pending(call) && SawLater(call)
    ensures SawLater(Advance(def, limit, db, call, ctx))
  {
    if call.Committing? && Commit(db, call.prepared.batch).1 == Err(OptimisticConcurrency) {
      ConflictIsLater(def, db, call);
    }
  }

  /** In every run, a call whose batch the store refused for its version saw the stream past it, so that the
      refusal is final. */
  lemma {:induction false} StoreRefusesTheLate<S(!new)>(def: Definition<S>, limit: nat, states: seq<State<S>>, actions: seq<Action>,
                                                        i: nat, k: nat)
    requires Run(def, limit, states, actions) && i < |states| && k in states[i].calls
    ensures SawLater(states[i].calls[k])
    decreases i
  {
    if i > 0 {
      var s, a := states[i - 1], actions[i - 1];
      InvAlongRun(def, limit, states, actions, i - 1);
      assert Enabled(def, s, a) && states[i - 1 + 1] == Next(def, limit, s, a);
      if k in s.calls {
        StoreRefusesTheLate(def, limit, states, actions, i - 1, k);
        if a.Proceed? && a.k == k {
          assert CallOk(def, s.db, s.calls[k]);
          StepSawLater(def, limit, s.db, s.calls[k], a.ctx);
        }
      }
    }
  }

  // ---------------------------------------------------------------- what the streams hold

  /** The event at a position is what the domain decided on some command, after exactly the events before it. */
  ghost predicate IsDecided<S(!new)>(def: Definition<S>, events: seq<Event>, k: nat)
    requires k < |events|
  {
    exists c, ctx, d, state ::
      CommandOk(def, c) && Records(def, events[k], c, d, ctx) && Transition(def, c, events[..k], d, events[k], state)
  }

  ghost predicate AllDecided<S(!new)>(def: Definition<S>, journal: seq<Event>) {
    forall key: StreamKey, k: nat :: key.aggregateType == def.aggregateType && k < |Stream(journal, key)| ==>
      IsDecided(def, Stream(journal, key), k)
  }

  lemma DecidedStays<S(!new)>(def: Definition<S>, a: seq<Event>, b: seq<Event>, k: nat)
    requires a <= b && k < |a| && IsDecided(def, a, k)
    ensures IsDecided(def, b, k)
  {
    assert b[..k] == a[..k];
  }

  lemma PreparedIsDecided<S(!new)>(def: Definition<S>, c: Command, history: seq<Event>, ctx: Context, p: Prepared<S>)
    requires Prepare(def, c, history, ctx) == Ok(p)
    ensures p.batch.stream == c.stream && IsDecided(def, history + p.batch.events, |history|)
    ensures |p.batch.events| == 1 && p.batch.expectedVersion == |history|
  {
    var d, e := PrepareMeans(def, c, history, ctx, p);
    var events := history + p.batch.events;
    assert events[|history|] == e && events[..|history|] == history;
  }

  lemma CommitsAtEnd<S>(def: Definition<S>, db: Db, batch: Batch, history: seq<Event>, key: StreamKey)
    requires DbOk(db) && Accepted(db, batch, Commit(db, batch).0) && history <= Stream(db.journal, batch.stream)
    requires batch.expectedVersion == |history| && |batch.events| == 1
    requires |Stream(Commit(db, batch).0.journal, key)| > |Stream(db.journal, key)|
    ensures key == batch.stream && Stream(db.journal, key) == history
    ensures Stream(Commit(db, batch).0.journal, key) == history + batch.events
  {
    StreamsKept(db, batch, Commit(db, batch).0, key);
    ReadsStream(db, batch.stream, 0);
  }

  /** What a step appends to a stream of the service is decided. */
  lemma AppendsDecided<S(!new)>(def: Definition<S>, s: State<S>, a: Action, key: StreamKey, k: nat)
    requires Inv(def, s) && Enabled(def, s, a) && key.aggregateType == def.aggregateType
    requires |Stream(s.db.journal, key)| <= k < |Stream(NextDb(s, a).journal, key)|
    ensures IsDecided(def, Stream(NextDb(s, a).journal, key), k)
  {
    var batch := Batches(s, a).value;
    CommitCases(s.db, batch);
    if a.Foreign? {
      StreamsKept(s.db, batch, NextDb(s, a), key);
    } else {
      assert CallOk(def, s.db, s.calls[a.k]);
      CommitterAppends(def, s.db, s.calls[a.k], key, k);
    }
  }

  lemma CommitsInOrder<S>(def: Definition<S>, db: Db, c: Command, history: seq<Event>, ctx: Context, p: Prepared<S>, key: StreamKey)
    requires DbOk(db) && Prepare(def, c, history, ctx) == Ok(p) && history <= Stream(db.journal, c.stream)
    requires Accepted(db, p.batch, Commit(db, p.batch).0)
    requires |Stream(Commit(db, p.batch).0.journal, key)| > |Stream(db.journal, key)|
    ensures Stream(db.journal, key) == history && |p.batch.events| == 1
    ensures Stream(Commit(db, p.batch).0.journal, key) == history + p.batch.events
  {
    var e := PreparedBatch(def, c, history, ctx, p);
    CommitsAtEnd(def, db, p.batch, history, key);
  }

  lemma CommitterAppends<S(!new)>(def: Definition<S>, db: Db, call: Call<S>, key: StreamKey, k: nat)
    requires DbOk(db) && call.Committing? && CallOk(def, db, call) && Accepted(db, call.prepared.batch, Commit(db, call.prepared.batch).0)
    requires |Stream(db.journal, key)| <= k < |Stream(Commit(db, call.prepared.batch).0.journal, key)|
    ensures IsDecided(def, Stream(Commit(db, call.prepared.batch).0.journal, key), k)
  {
    hide DbOk, IsDecided;
    CommitsInOrder(def, db, call.c, call.history, call.ctx, call.prepared, key);
    PreparedIsDecided(def, call.c, call.history, call.ctx, call.prepared);
  }

  /** In every run, whatever else is committed to the store: each event of each of the service's streams
      records what the domain decided on an admissible command in the state that the events before it lead
      to, and meets the contracts. */
  lemma {:induction false} EveryEventIsDecided<S(!new)>(def: Definition<S>, limit: nat, states: seq<State<S>>, actions: seq<Action>, i: nat)
    requires Run(def, limit, states, actions) && i < |states|
    ensures AllDecided(def, states[i].db.journal)
    decreases i
  {
    if i > 0 {
      var s, a := states[i - 1], actions[i - 1];
      EveryEventIsDecided(def, limit, states, actions, i - 1);
      InvAlongRun(def, limit, states, actions, i - 1);
      assert Enabled(def, s, a) && states[i - 1 + 1] == Next(def, limit, s, a);
      StoreKept(def, s, a);
      forall key: StreamKey, k: nat | key.aggregateType == def.aggregateType && k < |Stream(NextDb(s, a).journal, key)|
        ensures IsDecided(def, Stream(NextDb(s, a).journal, key), k)
      {
        StreamGrows(s.db.journal, NextDb(s, a).journal, key);
        if k < |Stream(s.db.journal, key)| {
          DecidedStays(def, Stream(s.db.journal, key), Stream(NextDb(s, a).journal, key), k);
        } else {
          AppendsDecided(def, s, a, key, k);
        }
      }
    }
  }

  // ---------------------------------------------------------------- tampering is noticed

  /** Whatever the store holds: a receipt is passed on to the reading of its events iff its command, its
      stream and its own hash agree. */
  lemma ForgedReceiptIsNoticed<S>(def: Definition<S>, limit: nat, db: Db, c: Command, ctx: Context, receipt: Receipt)
    requires HasReceipt(db, c, receipt)
    ensures Advance<S>(def, limit, db, Looking(c), ctx) ==
      if receipt.base.commandId == c.commandId && receipt.base.stream.aggregateType == c.stream.aggregateType
         && receipt.base.stream.aggregateId == c.stream.aggregateId && receipt.receiptHash == OfReceipt(receipt.base)
      then Answering(c, receipt) else Inconsistent(c, receipt)
  {
  }

  /** The events of the rows read whose version is in a range, in the order read. */
  lemma {:induction false} BetweenHolds(events: seq<Event>, lo: int, hi: int, e: Event)
    ensures e in Between(events, lo, hi) <==> e in events && lo < e.version <= hi
  {
    if events != [] {
      BetweenHolds(events[1..], lo, hi, e);
      assert events == [events[0]] + events[1..];
    }
  }

  /** Whatever rows are read: `#result` answers only if the events between the expected and the committed
      version are the receipt's and caused by the command, and those up to it replay to the committed version
      and the state returned. */
  lemma AnswerIsChecked<S>(def: Definition<S>, c: Command, receipt: Receipt, events: seq<Event>, state: S)
    requires Conclude(def, c, receipt, events) == Some(state)
    ensures forall e :: e in events && c.expectedVersion < e.version <= receipt.base.committedVersion ==>
      e.causationId == c.commandId && e.eventId in receipt.base.eventIds
    ensures forall id :: id in receipt.base.eventIds ==>
      exists e :: e in events && c.expectedVersion < e.version <= receipt.base.committedVersion && e.eventId == id
    ensures ReplaysTo(def, c.stream.aggregateId, Between(events, 0, receipt.base.committedVersion), state, receipt.base.committedVersion)
  {
    var committed := Between(events, c.expectedVersion, receipt.base.committedVersion);
    forall e | e in events && c.expectedVersion < e.version <= receipt.base.committedVersion
      ensures e.causationId == c.commandId && e.eventId in receipt.base.eventIds
    {
      BetweenHolds(events, c.expectedVersion, receipt.base.committedVersion, e);
      var i :| 0 <= i < |committed| && committed[i] == e;
      assert EventIds(committed)[i] == e.eventId;
    }
    forall id | id in receipt.base.eventIds
      ensures exists e :: e in events && c.expectedVersion < e.version <= receipt.base.committedVersion && e.eventId == id
    {
      var i :| 0 <= i < |EventIds(committed)| && EventIds(committed)[i] == id;
      BetweenHolds(events, c.expectedVersion, receipt.base.committedVersion, committed[i]);
    }
  }
}

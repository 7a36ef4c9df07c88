# Verified models of the ASEOS control runtime

This project models the parts of the repository that hold the most state and the most arithmetic, and
proves what they promise:

- the **runtime election** in the claims directory (`Election.dfy`): a bakery protocol whose scans are
  not atomic, with crashes, reused process ids, reclamation of dead claims and losers that give up;
- **canonical JSON** (`CodeUnits.dfy`, `Strings.dfy`, `Numerals.dfy`, `CanonicalJson.dfy`,
  `CanonicalMeaning.dfy`, `Spelling.dfy`, `JsonGrammar.dfy`, `ObjectGraph.dfy`): the printer every
  identity and hash rests on (RFC 8785, property sorting of section 3.2.3), a reader that undoes it, how
  it spells, and the ancestor-set walk over shared and cyclic objects;
- the **event-sourced command protocol** (`Envelopes.dfy`, `Store.dfy`, `AuthorityStore.dfy`,
  `StoreHistory.dfy`, `Kernel.dfy`, `KernelLaws.dfy`, `WorkflowService.dfy`, `ServiceLaws.dfy`,
  `Workflow.dfy`, `WorkflowLaws.dfy`): the store as a class with transactions, the deterministic kernel,
  and any number of `execute` calls cut at their awaits;
- the **policy engine** (`TextOrder.dfy`, `Policy.dfy`, `PolicyCompiler.dfy`, `PolicyNormalForm.dfy`,
  `PolicySnapshots.dfy`, `PolicyBounds.dfy`, `PolicyEvaluator.dfy`, `PolicyDecisions.dfy`,
  `PolicyLanguage.dfy`, `PolicyMeaning.dfy`): compiler, snapshots, the three-valued evaluator, the merge
  of requirements, and what a source comes to for an input, read off their JSON;
- the **restricted YAML parser** (`RestrictedYaml.dfy`, `YamlLayout.dfy`, `YamlGrammar.dfy`,
  `YamlParser.dfy`, `YamlText.dfy`, `YamlAcceptance.dfy`), from the text of a policy to its compiled form;
- the **event stream** (`Utf8.dfy`, `EventStream.dfy`, `EventDelivery.dfy`, `StreamLaws.dfy`,
  `EventHub.dfy`, `EventRuns.dfy`): the server's retained history and bounded writers, the client's
  incremental decoder and framer (section 3 of RFC 3629), and the two put together;
- three loop algorithms: the **idempotency cache** (`Idempotency.dfy`), **Kahn's algorithm**
  (`Dag.dfy`) and the **JSON Pointer** writer and reader (`JsonPointer.dfy`, sections 3 and 4 of RFC
  6901).

`dafny verify dfyconfig.toml` checks everything. Code that changes state is a class or a loop with
invariants, proved equal to a specification function; the results are lemmas about those functions and
about runs. Where a function only computes, some result says what it computes without naming it: an exact
condition, a grammar, the inverse, or the words and fields of the wire as they are spelled.

How the outside world enters: SHA-256 is an injective constructor (`Envelopes.Digest`) or an abstract
function (`Policy.Patterns`); schema validity, regular expressions and date-time checks are abstract
predicates; clocks, fresh ids and directory snapshots are parameters or nondeterministic steps. Strings
are sequences of UTF-16 code units, compared as JavaScript compares them. A number is a safe integer or
the numeral that `JSON.stringify` prints for it (section 3.2.2.3 of RFC 8785), so numbers are told apart
as `===` tells them and 0 and -0 are one; comparisons use the exact value a numeral denotes. `event_id`
uniqueness and
append-only storage are taken from the table constraints.

Conditions the proofs brought to light, each stated exactly by a lemma below: the consistency checks of
`#result` pass iff the receipt's version is within the row limit of `readEvents`, which a `WorkflowRun`
stream never exceeds; an unknown `last-event-id` is answered with a gap iff something has been published
before, so only before the startup publication is it passed over; adding an ALLOW rule can turn an
allowed input into an indeterminate one, and does so iff the rule is undecided or brings a conflicting
isolation level, but it never loosens what is required; a laid-out policy text is refused iff some line
has an apostrophe, an opening bracket or brace, or a colon before `|` or `>` (inside a quoted string
too), starts like a marker, directive, tag, anchor, alias or merge key, or some string has a lone
surrogate.

## Model

| member | source | states |
|---|---|---|
| Election.InvKept | packages/platform/src/filesystem.ts:113-260 | every call of every contender, every crash and every new process keeps the inductive invariant: whoever has passed another contender is in front of its ticket, or of any ticket it can still choose |
| Election.MutualExclusion | packages/platform/src/filesystem.ts:172-250 | in every state of every run, with any number of contenders, non-atomic scans, crashes and reclamation, at most one live contender has won the election and not yet removed its claim directory, holders that are releasing and winners that failed included |
| Election.ElectedAlone | packages/platform/src/filesystem.ts:191-214 | two live contenders whose scans have passed each other would each be in front of the other, which the order of (ticket, name) excludes |
| Election.HolderOwnsLock | packages/platform/src/filesystem.ts:236-247 | from its lock-file write until its release deletes it, a live holder's own record is the lock file's content, and it wrote that file last |
| Election.ReleaseRemovesOwnRecord | packages/platform/src/filesystem.ts:238-250 | a release deletes only the record its own contender wrote last, while no other live contender is past the election |
| Election.ReclaimsOnlyTheDead | packages/platform/src/filesystem.ts:121-126 | a live contender's claim or ticket disappears only by its own removal, never by a scanner's reclamation, even when process ids are reused |
| Election.LiveRecordIsSafe | packages/platform/src/filesystem.ts:215-236 | in every run: while the lock file holds a record whose process exists, from a contender's election on, that contender never writes the lock file, whoever wrote the record and however it got there |
| Election.MalformedStays | packages/platform/src/filesystem.ts:217-226 | in every run a malformed lock file is never replaced or removed by anybody |
| Election.RoundDecides | packages/platform/src/filesystem.ts:190-213 | an undisturbed round of a waiting contender gives up iff a claim of an existing process has a smaller ticket, or the same and a smaller name; it waits iff none has but one is still choosing; otherwise it is elected; and it has removed exactly the claims of processes that are gone |
| Election.ChoosesNext | packages/platform/src/filesystem.ts:183-189 | an undisturbed choosing scan publishes the ticket after the greatest one of the claims of existing processes |
| Election.TicketsHaveNoGaps | packages/platform/src/filesystem.ts:185-188 | in every run, with scans that are not atomic, crashes and reclamation, the tickets issued are exactly 1, 2, ... up to some number |
| Election.SomebodyWins | packages/platform/src/filesystem.ts:172-260 | in a run without crash, fault or timeout that starts with no claims and no lock file, once all contenders are gone at least one has held the lock |
| Election.UncontendedAcquires | packages/platform/src/filesystem.ts:183-236 | with no claims and no live lock, a contender's calls lead to the lock with ticket 1 and its record in the lock file |
| Election.ReleaseUndoesAcquire | packages/platform/src/filesystem.ts:238-250 | a release without fault removes the record, the ticket and the claim and leaves everything else as it was |
| Election.ClaimsDirectory.ReadRuntimeClaims | packages/platform/src/filesystem.ts:113-148 | an undisturbed scan reports exactly the claims of live processes with their tickets, deletes exactly the others, and fails iff a name is malformed or a live claim's ticket is unusable |
| CanonicalJson.StringReads | packages/contracts/src/canonical-json.ts:4-6 | reading a quoted string gives back every code unit, lone surrogates, controls and quotes included, and leaves what follows |
| CanonicalJson.FloatReads | packages/contracts/src/canonical-json.ts:4-6 | the numeral of a number that is not a safe integer is read whole, sign, fraction and exponent included, and leaves what follows unless that continues it |
| CanonicalJson.ReadsBack | packages/contracts/src/canonical-json.ts:3-60 | parsing the print of any tree, every finite number included, followed by any text that does not continue a numeral gives back the tree and that text |
| CanonicalJson.CanonicalPrintsNormal | packages/contracts/src/canonical-json.ts:41-54 | the canonical text is the plain print of the tree with the members of every object sorted by code units |
| CodeUnits.LessAtFirstDifference | packages/contracts/src/canonical-json.ts:42-43 | one key is before another iff at the first code unit where they differ it has the smaller one, or ends |
| Spelling.UnitIsSpelled | packages/contracts/src/canonical-json.ts:4-6 | every unit that may stand as it is does; any other is written with a backslash and one unit if some such pair reads back as it, and as `\u` with four lower-case hexadecimal digits if none does |
| Spelling.ShortestSpelling | packages/contracts/src/canonical-json.ts:4-6 | no text that reads as a string without lone surrogates is shorter than the one printed |
| Spelling.MembersInOrder | packages/contracts/src/canonical-json.ts:41-54 | the members of a printed object come in ascending order of their names: at the first code unit where two names differ the smaller one is first |
| Spelling.IntegersAreSpelled | packages/contracts/src/canonical-json.ts:4-6 | a safe integer is printed in decimal digits that amount to it, without plus sign or leading zeros |
| JsonGrammar.NumbersAreNumerals | packages/contracts/src/canonical-json.ts:3-6 | what is read whole as a number is exactly a numeral of section 6 of RFC 8259 that some number prints |
| JsonGrammar.NumeralsDenote | packages/contracts/src/canonical-json.ts:9-14 | a numeral denotes the digits before and after its point by their places, times or divided by the power of ten its exponent gives, negated after a minus |
| JsonGrammar.SafeIntegersExactly | packages/contracts/src/canonical-json.ts:9-14 | a numeral is read as a safe integer iff it has neither fraction nor exponent and its digits make less than `2 ** 53`, and then as what they make |
| JsonGrammar.FloatsExactly | packages/contracts/src/canonical-json.ts:9-14 | any other finite number is written as a JSON numeral that is no safe integer and lies strictly between the two infinities |
| JsonGrammar.InfiniteIs | packages/contracts/src/canonical-json.ts:9-13 | numerals stop being finite at `2 ** 1024 - 2 ** 970` |
| JsonGrammar.StringsExactly | packages/contracts/src/canonical-json.ts:3-6 | what is read as a string is exactly what is written in the pieces of section 7 of RFC 8259, up to the closing quote |
| CanonicalMeaning.CanonicalReadsBack | packages/contracts/src/canonical-json.ts:62-64 | parsing the canonical text, whatever follows, gives the tree with sorted members, which means the same as the tree printed |
| CanonicalMeaning.PrintsAlike | packages/contracts/src/canonical-json.ts:62-68 | two trees print (and so hash) alike iff they are equal up to the order of members |
| CanonicalMeaning.SameMeaningSameNormal | packages/contracts/src/canonical-json.ts:42-50 | trees that are equal up to member order have one sorted form |
| CanonicalMeaning.CanonicalIsPaired | packages/contracts/src/canonical-json.ts:66-68 | canonical text holds no lone surrogate, so encoding it as UTF-8 before hashing loses nothing |
| CanonicalMeaning.SnapshotIsFixed | packages/kernel/src/index.ts:87-93 | a snapshot always exists, means what its input means, prints and so hashes as it does (leaving the command identity unchanged), and is its own snapshot |
| ObjectGraph.Canonicalizer.Canonicalize | packages/contracts/src/canonical-json.ts:13-57 | the ancestor-set walk terminates on every finite graph, restores `ancestors` on every exit, and answers what the specification answers below those ancestors, the first of several errors included |
| ObjectGraph.Canonicalizer.Items | packages/contracts/src/canonical-json.ts:27-35 | the index loop over an array answers the joined texts of all items, or the first failure |
| ObjectGraph.Canonicalizer.Members | packages/contracts/src/canonical-json.ts:42-54 | the walk over sorted properties answers the joined pairs of all members, or the first failure |
| ObjectGraph.PrintsTheCopy | packages/contracts/src/canonical-json.ts:13-57 | a value in a graph is printed iff it can be unfolded into a tree, and is printed as that tree: shared objects print as if they were copied |
| ObjectGraph.FailsIffCyclic | packages/contracts/src/canonical-json.ts:14-16 | on plain objects and dense arrays the walk fails for a cycle iff one is reachable, and otherwise prints |
| ObjectGraph.FirstFaultIsReported | packages/contracts/src/canonical-json.ts:14-58 | an error is reported iff some path of items and sorted keys leads to its fault - a cycle, an unsupported value, an irregular object, or an object with other properties all of whose enumerable ones are in order - while everything visited earlier unfolds |
| ObjectGraph.CyclicPath | packages/contracts/src/canonical-json.ts:14-16 | a verdict of "cyclic" comes with a path of links from the value that repeats an object |
| ObjectGraph.UnfoldedHasNoCycle | packages/contracts/src/canonical-json.ts:14-16 | what unfolds into a finite tree reaches no cycle |
| AuthorityStore.Worker.FindCommandDuplicate | packages/persistence/src/persistence-worker.ts:527-551 | one row that matches on all four columns is found; any other clash on command id, or on idempotency key and scope, is a conflict |
| AuthorityStore.Worker.VerifyOutboxIdentities | packages/persistence/src/persistence-worker.ts:553-579 | the two growing sets and the queries accept a batch iff no two of its tasks, and no task and stored task, share an id or a (key, scope) pair |
| AuthorityStore.Worker.AppendEvents | packages/persistence/src/persistence-worker.ts:607-622 | the insert loop appends all events, or stops at the first that is refused, for the reason the specification gives |
| AuthorityStore.Worker.AppendTasks | packages/persistence/src/persistence-worker.ts:626-636 | fresh tasks are all appended, in order, and no insertion can meet a UNIQUE constraint |
| AuthorityStore.Worker.AppendAudit | packages/persistence/src/persistence-worker.ts:640-642 | the audit loop appends all facts, or fails iff an audit id repeats |
| AuthorityStore.Worker.WriteBatch | packages/persistence/src/persistence-worker.ts:587-673 | the transaction body either leaves exactly the specified new tables and returns the receipt, or reports the specified error |
| AuthorityStore.Worker.CommitBatch | packages/persistence/src/persistence-worker.ts:581-674 | store and answer are exactly what the specification `Commit` says; a refused transaction is rolled back without trace |
| StoreHistory.LookupSays | packages/persistence/src/persistence-worker.ts:527-551 | on a good store, on the columns: nothing is found iff no row shares the command id, or both idempotency key and scope; a conflict iff some row that does differs in a column; a receipt iff its row equals the identity in all four |
| StoreHistory.ReusedIdentityIsRefused | packages/persistence/src/persistence-worker.ts:536-550 | a command that shares its id, or its idempotency key and scope, with a stored row that differs in some column is refused with a conflict, and nothing changes |
| StoreHistory.ReceiptsAreApart | packages/persistence/src/persistence-worker.ts:527-551 | after any history no two receipts share a command id, and no two share both idempotency key and effect scope |
| StoreHistory.CommitRefuses | packages/persistence/src/persistence-worker.ts:581-674 | a command without a receipt is refused, without trace, for the first reason of six that applies, the first event that does not fit deciding which, and committed when none applies |
| StoreHistory.ReceiptTells | packages/persistence/src/persistence-worker.ts:643-672 | a receipt names the transaction, command, stream and time of its batch and the version the stream then has, and the tables have grown by exactly the batch |
| StoreHistory.TablesAreAccounted | packages/persistence/src/persistence-worker.ts:604-672 | over any history the receipts list the ids of every row of journal, outbox and audit, in order and without rest, and every stored hash is the hash of what is stored with it |
| StoreHistory.InsertsFit | packages/persistence/src/persistence-worker.ts:473-501 | events are inserted iff they continue the stream one by one, hash their payloads and repeat no event id, and then they are appended unchanged |
| StoreHistory.CommitKeeps | packages/persistence/src/persistence-worker.ts:581-674 | every commit keeps: unique ids in all tables, streams numbered 1..n, receipts that list the ids of their own slice of the stream, and table sizes equal to the sums over receipts |
| StoreHistory.CommitCases | packages/persistence/src/persistence-worker.ts:581-674 | a commit changes nothing, or it found no receipt, met all checks and appended exactly its batch and one receipt |
| StoreHistory.HistoryKeeps | packages/persistence/src/persistence-worker.ts:219-238 | over any sequence of requests the invariant holds and no table ever loses or reorders a row |
| StoreHistory.StreamsAreNumbered | packages/persistence/src/persistence-worker.ts:515-525 | after any history from an empty store each stream's versions are exactly 1..n, the current version is n, and `readEvents` returns the first rows of the stream in insertion order |
| StoreHistory.ReadsStream | packages/persistence/src/persistence-worker.ts:792-808 | on a good store, ordering by version and limiting gives the prefix of the stream of that length |
| StoreHistory.RecoverCountsReceipts | packages/persistence/src/persistence-worker.ts:875-886 | after any history, the counts of events, outbox tasks and audit facts equal the sums over the receipts |
| StoreHistory.RepeatsGetTheFirstReceipt | packages/persistence/src/persistence-worker.ts:588-594 | once a command succeeded, however the history goes on, sending it again (even with other events) changes nothing and gets the first receipt |
| StoreHistory.KeptGivesTheSameStore | packages/persistence/src/persistence-worker.ts:581-674 | dropping every repeat and every rejected request from a history gives the same store |
| StoreHistory.KeptIsFirstSuccess | packages/persistence/src/persistence-worker.ts:527-551 | a request that succeeds is kept iff no earlier request with its identity succeeded |
| StoreHistory.EarlyCheckIsSafe | packages/persistence/src/persistence-worker.ts:582-585 | an answer from the check before BEGIN is the answer a commit on any later store gives |
| StoreHistory.FoundForever | packages/persistence/src/persistence-worker.ts:527-551 | a receipt that is found stays the one found while the store grows |
| StoreHistory.SuccessIsFound | packages/persistence/src/persistence-worker.ts:643-672 | a successful commit's receipt is what the next lookup finds |
| Kernel.ReplayEvents | packages/kernel/src/index.ts:152-190 | the replay loop, with its running state, version and id set, computes the fold over the history and fails on the same event for the same reason |
| Kernel.ReplaySplits | packages/kernel/src/index.ts:160-189 | replaying a concatenation is replaying the first part and going on through the second |
| Kernel.ReplayCounts | packages/kernel/src/index.ts:171-183 | a replay that succeeds saw versions 1..n of one stream with distinct ids, ends at version n, and has a state iff n > 0 |
| Kernel.PreparedBatch | packages/kernel/src/index.ts:192-258 | an accepted command's batch carries its identity and one event, next in its stream and caused by it, and history plus event replays to the prepared state |
| Kernel.PreparedCommits | packages/kernel/src/index.ts:192-258 | with fresh ids and an unused identity, the prepared batch is committed on a store still at that history, and replaying `readEvents` afterwards gives exactly the prepared state and version |
| Kernel.StaleBatchIsRefused | packages/persistence/src/persistence-worker.ts:596-603 | on a store whose stream has moved on, the prepared batch is refused with a version conflict and the store is unchanged |
| KernelLaws.AdmitsExactly | packages/kernel/src/index.ts:126-150 | a command is admitted, unchanged, iff it meets the contracts; it is unsupported iff its envelope does and the aggregate has no such command |
| KernelLaws.ReplaysExactly | packages/kernel/src/index.ts:152-190 | a history replays to a state and a version iff it is a valid history of that length and the domain's steps lead along it to that state |
| KernelLaws.PrepareAccepts | packages/kernel/src/index.ts:192-258 | whenever an admissible command is at the version of a valid history with fresh ids, and the domain decides and applies, the preparation yields exactly the event that records the decision and the batch that submits it |
| KernelLaws.PrepareMeans | packages/kernel/src/index.ts:192-258 | whatever is prepared is all that |
| KernelLaws.KeysAreScoped | packages/kernel/src/index.ts:68-77 | within one aggregate type, two commands with one idempotency key conflict iff they are for the same aggregate |
| KernelLaws.IdentityBinds | packages/kernel/src/index.ts:68-77 | the identity binds the whole command: two different commands have different identities |
| WorkflowService.InvKept | packages/platform/src/workflow-service.ts:54-86 | every step of every interleaved call, every store call that fails (its commit applied or not), and every commit of anybody for another aggregate type keeps the invariant linking receipts, streams and the calls in flight |
| WorkflowService.SameAnswer | packages/platform/src/workflow-service.ts:54-131 | in every run, all successful calls for a command return the same receipt and the same state, however far the stream has grown |
| WorkflowService.CommittedOnce | packages/platform/src/workflow-service.ts:71-84 | in every run, no two events of the service's streams have the same causation: a command is committed at most once |
| WorkflowService.RefusalIsFinal | packages/platform/src/workflow-service.ts:74-85 | a version refusal that saw the stream past `expectedVersion` and found no receipt is final: no receipt ever appears and no call for the command ever succeeds |
| WorkflowService.NoLateReceipt | packages/persistence/src/persistence-worker.ts:588-603 | while the stream is past a command's expected version, no step of anybody can give it a receipt |
| WorkflowService.ReceiptBinds | packages/platform/src/workflow-service.ts:93-104 | a receipt found for a command names it and hashes itself, and covers exactly the journal slice after `expectedVersion` up to `committedVersion`, caused by that command |
| WorkflowService.ConcludesIffWithinLimit | packages/platform/src/workflow-service.ts:105-131 | the slice and replay checks pass iff the receipt's version is within the row limit, and the state is then that of the stream at that version |
| WorkflowService.AnswersIffWithinLimit | packages/platform/src/workflow-service.ts:89-131 | in every run the header check of `#result` never fails, and the later checks fail iff the receipt's version exceeds the row limit |
| ServiceLaws.TakenUp | packages/platform/src/workflow-service.ts:54-57 | a call goes on to its first lookup iff its command meets the contracts |
| ServiceLaws.Recovers | packages/platform/src/workflow-service.ts:58-86 | in every run, once a command has a receipt within the row limit, a pending call for it whose store calls do not fail succeeds with that receipt after at most three more awaits, in whatever step it is and however calls interleave |
| ServiceLaws.SucceedsAlone | packages/platform/src/workflow-service.ts:54-86 | a command without a receipt, at the version of its stream, that can be prepared with fresh ids is committed and answered with the prepared state by the four steps of its own call |
| ServiceLaws.LateIsRefused | packages/platform/src/workflow-service.ts:61-85 | a command without a receipt whose stream is past its expected version is refused for its version, after another look for a receipt |
| ServiceLaws.OvertakenIsRefused | packages/platform/src/workflow-service.ts:71-85 | so is a prepared command that is overtaken before its batch is committed |
| ServiceLaws.StoreRefusesTheLate | packages/platform/src/workflow-service.ts:74-85 | in every run, a call whose batch the store refused for its version saw the stream past that version |
| ServiceLaws.EveryEventIsDecided | packages/platform/src/workflow-service.ts:54-86 | in every run, each event of each of the service's streams records what the domain decided on an admissible command in the state that exactly the events before it lead to |
| ServiceLaws.ForgedReceiptIsNoticed | packages/platform/src/workflow-service.ts:89-104 | whatever the store holds, a receipt that is found is passed on iff its command, its stream and its own hash agree |
| ServiceLaws.AnswerIsChecked | packages/platform/src/workflow-service.ts:105-131 | whatever rows are read, an answer means that the events between the expected and the committed version are exactly the receipt's, were caused by the command, and replay to the state returned |
| Workflow.DecisionApplies | packages/workflow/src/index.ts:20-58 | the event decided for a creation command is accepted by `apply` and yields the run the command describes |
| Workflow.ReplaysAtMostOne | packages/workflow/src/index.ts:39-48 | no history of two or more events replays, and one event replays to what `apply` makes of it |
| Workflow.StreamAtMostOne | packages/workflow/src/index.ts:39-48 | on every store the service keeps, a run's stream has at most one event |
| Workflow.NeverInconsistent | packages/platform/src/workflow-service.ts:89-131 | in every run over `WorkflowRun`, with any row limit of at least one, the three consistency failures of `#result` are unreachable |
| Workflow.SuccessCreated | packages/platform/src/workflow-service.ts:54-87 | a successful call returns version 1 of the run its command names, created by that command, and the stream has exactly that event |
| Workflow.OneCreator | packages/workflow/src/index.ts:20-27 | of all commands ever executed for a run, at most one succeeds |
| WorkflowLaws.FirstCreates | packages/workflow/src/index.ts:20-58 | the first command to create a run, with fresh ids and valid envelopes, can be committed, and creates the run with the definition its payload names |
| WorkflowLaws.DecidesOnlyCreations | packages/workflow/src/index.ts:20-27 | a decision is made iff the run does not exist, the command is `CreateWorkflowRun` and expects version 0; otherwise the domain rejects |
| WorkflowLaws.AppliesOnlyCreations | packages/workflow/src/index.ts:39-48 | an event applies iff the run does not exist, the event is `WorkflowRunCreated` at version 1 and its payload names the command that caused it; otherwise replay is invalid |
| WorkflowLaws.NoSecondCreates | packages/workflow/src/index.ts:20-27 | on a run that exists no command is ever prepared |
| PolicyNormalForm.CompileIgnoresOrder | packages/policy/src/index.ts:608-708 | two sources equal up to the order of rules, selector lists, permission scopes and constants are both refused, or compile to the same set |
| PolicyNormalForm.ReorderedTexts | packages/policy/src/index.ts:362-367 | a list of strings is valid iff its permutations are, and sorts to the same list |
| PolicyNormalForm.SortedTextsContent | packages/policy/src/index.ts:362-367 | the compiled list is strictly ascending by code units and has exactly the strings of the source |
| PolicySnapshots.ConditionsPassThrough | packages/policy/src/index.ts:448-531 | a condition that compiles is passed through unchanged at every depth |
| PolicySnapshots.CompiledIsNormal | packages/policy/src/index.ts:649-681 | a compiled set has exactly the source's rules, strictly ascending by distinct ids, with strictly ascending lists in every rule |
| PolicySnapshots.CompileIsIdempotent | packages/policy/src/index.ts:608-708 | compiling a compiled set gives the set itself, I-JSON check included |
| PolicySnapshots.SnapshotsPass | packages/policy/src/index.ts:1188-1227 | a snapshot made of a compiled set with valid metadata passes the recompile-and-hash check for an input naming it, and for no other input |
| PolicySnapshots.ExchangedPolicyFails | packages/policy/src/index.ts:1372-1387 | when the hash is injective, a snapshot whose policy is exchanged for one that compiles differently does not pass |
| PolicyBounds.SourceIsSpelled | packages/policy/src/index.ts:533-640 | a source that compiles, its `source` and each of its rules have exactly the properties named here, with `schemaVersion` 1.0.0 and `defaultOutcome` DENY |
| PolicyBounds.CompiledIffBounded | packages/policy/src/index.ts:608-708 | a policy set is what some source compiles to iff it is I-JSON and within bounds: lengths, at most 4096 rules in the order of their ids, lists in order, conditions of 1 to 32 parts and at most four levels, legal references, and operands exactly where operators take them |
| PolicyBounds.ConditionBounded | packages/policy/src/index.ts:448-531 | the JSON of any condition compiles, at any depth left, iff the condition is within bounds, and then to that condition |
| PolicyBounds.RuleBounded | packages/policy/src/index.ts:533-606 | the JSON of any rule with lists in order compiles iff the rule is within bounds, and then to that rule |
| PolicyBounds.PassesIffBound | packages/policy/src/index.ts:1188-1227 | the recompile-and-hash check passes for a policy iff the snapshot has its eight fields, names the input's snapshot, and names the policy its embedded set compiles to by id, version and hash |
| PolicyBounds.InputsAreBounded | packages/policy/src/index.ts:1137-1186 | a value is read as an input iff it has exactly the input's fields, in their forms and within their bounds |
| PolicyBounds.JsonIsAcceptable | packages/policy/src/index.ts:269-316 | a value is I-JSON iff no name or string in it, at any depth, has a lone surrogate and no name is one of the three that objects inherit |
| PolicyEvaluator.LeafVerdict | packages/policy/src/index.ts:1055-1132 | for each of the twelve operators: a leaf is decided iff its values have the operator's types, and then matches iff the relation (order of the numbers denoted, membership, substring, prefix, subset, intersection) holds |
| PolicyEvaluator.EvaluateIsThreeValued | packages/policy/src/index.ts:1033-1056 | a condition is decided iff all its leaves are, and then has its classical Boolean value |
| PolicyLanguage.ReferenceReads | packages/policy/src/index.ts:988-1015 | a reference to each of the eleven input fields is that field of the input as it was given |
| PolicyLanguage.ConstantReads | packages/policy/src/index.ts:1055-1057 | a reference to a constant is the constant of that name, and nothing if there is none |
| PolicyLanguage.OperatorsAreSpelled | packages/policy/src/index.ts:156-169 | the twelve operators by the names policies use |
| PolicyLanguage.TypesAreTold | packages/policy/src/index.ts:1019-1128 | the JSON types each operator is about: what it is given of others leaves the condition undecided |
| PolicyLanguage.ConditionIsSaid | packages/policy/src/index.ts:1033-1132 | compiling a condition and evaluating it says of an input what the condition says as it is written: nothing while a part says nothing, else the Boolean value |
| PolicyDecisions.MergeRequirements | packages/policy/src/index.ts:1243-1296 | the loop returns the least common strengthening of all requirements, and fails iff two different levels above PROCESS_RESTRICTED meet |
| PolicyDecisions.ConflictMeansNoBound | packages/policy/src/index.ts:1255-1262 | requirements conflict iff nothing strengthens them all |
| PolicyDecisions.MergesOnce | packages/policy/src/index.ts:1277-1295 | the least common strengthening is unique, absent fields included |
| PolicyDecisions.HardInvariantViolations | packages/policy/src/index.ts:1229-1241 | the violations are listed sorted, and are exactly those the input has |
| PolicyDecisions.EvaluateRules | packages/policy/src/index.ts:1392-1478 | the early-exit loop over the sorted rules meets an order-free specification of the decision, matched ids and reason codes included, and allows iff the input violates no hard invariant, no rule is undecided, no DENY rule matches, some ALLOW rule does, and their requirements do not conflict |
| PolicyDecisions.DecidesOnce | packages/policy/src/index.ts:1298-1332 | the specification determines the decision completely |
| PolicyDecisions.EvaluatePolicy | packages/policy/src/index.ts:1334-1479 | what is not I-JSON, not a valid input or not a valid snapshot is indeterminate for its own reason; anything else is decided on the rules of the recompiled policy; the result names the input, its hash and its time, and for a valid snapshot the snapshot and the hash of the recompiled policy, and falls back to fixed values otherwise |
| PolicyDecisions.EvaluateInput | packages/policy/src/index.ts:1372-1478 | a valid input is allowed iff its snapshot passes the recompile-and-hash check and the recompiled rules allow it |
| PolicyDecisions.AddingDeny | packages/policy/src/index.ts:1430-1442 | adding a DENY rule never turns an outcome that does not allow into one that does, and an allow that survives is the same decision |
| PolicyDecisions.AddingAllow | packages/policy/src/index.ts:1443-1478 | adding an ALLOW rule to an allowed input never loosens the merged requirements; the input stays allowed iff the rule is not undecided and brings no conflicting level, and is indeterminate otherwise |
| PolicyDecisions.SourceIsDecided | packages/policy/src/index.ts:1372-1392 | snapshots of two reordered sources of one policy get the same decision, the one the rules of the source determine |
| PolicyMeaning.SourceConcludes | packages/policy/src/index.ts:1372-1479 | from source to decision: on a snapshot of a compiled source, the decision is the one read off the JSON of source and input, by the names of their fields: hard invariants, rules about the input, their conditions, effects, ids, reason codes and demands |
| PolicyMeaning.MergeCombines | packages/policy/src/index.ts:1243-1296 | the merged requirements, part by part: the union of all scopes, the smallest limits, the one level above the lowest, and verification iff somebody asks for it |
| PolicyMeaning.RefusalsAreTold | packages/policy/src/index.ts:1334-1387 | what is not I-JSON, not an input, or asked for a snapshot that does not pass is indeterminate, for the reason of its own |
| PolicyMeaning.HeadersAreTold | packages/policy/src/index.ts:1298-1332 | what a decision says it is about: ids, hash and time of the arguments where they have their forms, and the fixed values where they do not |
| RestrictedYaml.CompactIsExpanded | packages/policy/src/index.ts:807-839 | a compact `- key: ...` item parses as its expanded form does, with one line and one node less, in any sequence and before any lines; when the expanded text is invalid for another reason than a limit, so is the compact one |
| RestrictedYaml.NodeAhead | packages/policy/src/index.ts:794-797 | starting with the node counter one further on, the parser goes the same way with a counter one further on, unless it meets the node limit |
| YamlLayout.LayoutParses | packages/policy/src/index.ts:767-878 | laying out any non-empty mapping or sequence of scalars and sub-blocks at two spaces per level and parsing it, wherever it stands, returns its value, uses exactly its lines and raises the counter by exactly that number |
| YamlLayout.DocumentParses | packages/policy/src/index.ts:928-936 | a whole laid-out text is accepted as what it says |
| YamlLayout.FieldsAreEntries | packages/policy/src/index.ts:848-877 | a laid-out mapping means exactly its keys, each with the value of its own subtree |
| YamlLayout.ValuesAreItems | packages/policy/src/index.ts:783-845 | a laid-out sequence means the values of its items, in order |
| YamlParser.ParseYamlNode | packages/policy/src/index.ts:767-878 | the parser over line indices and a shared mutable counter returns the value, next line and counter, or the failure, that the recursive specification gives on the remaining lines |
| YamlParser.ParseSequence | packages/policy/src/index.ts:782-846 | the same of the sequence loop |
| YamlParser.ParseMapping | packages/policy/src/index.ts:848-877 | the same of the mapping loop, repeated keys refused |
| YamlParser.ParseItem | packages/policy/src/index.ts:790-843 | the same of one round of the sequence loop, over its three kinds of item |
| YamlParser.ParseCompact | packages/policy/src/index.ts:807-839 | the same of a compact item: its first entry on the marker line, its other entries on the lines after it |
| YamlParser.ParseDocument | packages/policy/src/index.ts:928-936 | a text is accepted iff its root block starts unindented and uses all lines |
| YamlText.ReadLines | packages/policy/src/index.ts:903-927 | the loop over the rows collects the lines that count, or fails on a tab, odd indentation or an unsupported feature, as the recursive specification does |
| YamlText.ParseText | packages/policy/src/index.ts:880-937 | the whole parser, byte and line limits, line ends and the final I-JSON check included, computes the specification |
| YamlText.LineEndsDoNotMatter | packages/policy/src/index.ts:894-899 | within the byte limit, a text with `\r\n` throughout is parsed as the one with `\n` throughout, errors included |
| YamlText.SkippedRowsDoNotMatter | packages/policy/src/index.ts:906 | comments and blank lines may stand anywhere |
| YamlText.TextParses | packages/policy/src/index.ts:880-937 | a text that lays a tree out, with comments and blank lines anywhere and either line end, is accepted as exactly what the tree says; it is refused iff a line looks like an unsupported feature or a string has a lone surrogate |
| YamlText.TextCompiles | packages/policy/src/index.ts:939-965 | such a text compiles to what its value compiles to, or to nothing when a line looks like an unsupported feature |
| YamlGrammar.AcceptedIffWritten | packages/policy/src/index.ts:767-878 | lines are accepted as a value iff they are the writing of a block, compact items and any space after colons included, that fits the limits and means that value |
| YamlAcceptance.CutIntoRows | packages/policy/src/index.ts:894-899 | a text can be cut into rows iff its line breaks are all `\n` or all `\r\n`, and in one way only |
| YamlAcceptance.AcceptedTexts | packages/policy/src/index.ts:880-937 | exactly which texts are accepted, and as what: short enough, one kind of line break, rows that are evenly indented lines without refused features, lines that write a block within the limits, and a value that is I-JSON |
| Utf8.DecodePieces | packages/platform/src/client.ts:606-622 | decoding in two pieces, with the held bytes carried over, is decoding at once, errors included |
| Utf8.DecodeKeepsAll | packages/platform/src/client.ts:622 | the text decoded encodes to the bytes fed less those held back, which are at most three |
| Utf8.DecodesMended | packages/contracts/src/canonical-json.ts:65-67 | any text is encoded and decoded back as itself with U+FFFD for every surrogate that is in no pair |
| Utf8.DecodesBack | packages/platform/src/client.ts:606-614 | well-formed text decodes from its own encoding whole, with nothing held back |
| StreamLaws.DecodesExactly | packages/platform/src/client.ts:606-622 | the decoder accepts exactly the encoding of well-formed text followed by at most a proper beginning of one more character, which it holds back |
| EventStream.TakeFrames | packages/platform/src/client.ts:635-689 | the framing loop yields the items of the complete frames in order up to the first bad one, and leaves what follows the last frame pending |
| EventStream.TakeChunk | packages/platform/src/client.ts:610-689 | the body of the chunk loop is one step of the specification, the byte order mark, the byte count and the limit included |
| EventStream.StreamEvents | packages/platform/src/client.ts:605-705 | the whole loop yields and ends as the specification run does |
| EventStream.UndecodedIsHeld | packages/platform/src/client.ts:608-622 | in every state of every run `undecodedBytes` equals the number of bytes the decoder holds back, at most three |
| EventStream.StoppedIffFailed | packages/platform/src/client.ts:610-688 | the client has stopped within these chunks iff its run ends with a decoding error, the size limit or a bad frame |
| EventStream.StoppedForGood | packages/platform/src/client.ts:610-688 | once it has stopped, no later chunk changes what it yielded or how it ended |
| EventStream.ParseReadsPrinted | packages/platform/src/client.ts:669 | a parser that reads printed JSON back, as the delivery results ask for, exists: the reader of `CanonicalJson` |
| EventDelivery.ChunksDoNotMatter | packages/platform/src/client.ts:605-705 | however a valid stream is cut into chunks, the client yields the same items and ends the same way, as long as no chunk makes the pending data outgrow the limit |
| EventDelivery.RunOverflows | packages/platform/src/client.ts:628-634 | when all frames are right and some chunk outgrows the limit, the client ends with exactly that error |
| EventDelivery.FrameIsHandled | packages/platform/src/client.ts:637-687 | each frame the server writes is handled as what it is: a notification, a gap or nothing |
| EventDelivery.PendingIsBacklog | packages/platform/src/client.ts:627-628 | the size checked against the limit is the number of bytes so far less those of the frames complete before the chunk |
| EventDelivery.ServerFramesArrive | packages/platform/src/server.ts:312-332 | for every list of server frames and every cutting of its bytes into chunks, the client yields exactly the notifications and gaps in order and ends well, unless a chunk makes the waiting bytes exceed the limit, and then it ends for that reason |
| StreamLaws.CutsExactly | packages/platform/src/client.ts:635-638 | framing takes a text apart in the one way in which every frame ends at its first blank line and none is left |
| StreamLaws.FrameIsTold | packages/platform/src/client.ts:639-688 | of any frame: it is a gap iff its first `event: ` line says `gap` and its first `data: ` line reads as the gap object; a notification iff its data reads as one of the kind its event names; passed over iff it is a comment without data; and wrong otherwise |
| StreamLaws.FinishesIffComplete | packages/platform/src/client.ts:605-705 | on any chunks at all, a stream ends well with some items iff its bytes encode complete frames, after a byte order mark or none, that tell exactly those items, and no chunk makes the pending data outgrow the limit |
| StreamLaws.TruncationIsNoticed | packages/platform/src/client.ts:690-705 | a server's stream cut off anywhere yields exactly the items of the frames complete so far and ends well iff the cut is between two frames |
| StreamLaws.NotificationsAreSpelled | packages/platform/src/server.ts:322-332 | the text the server writes for a notification |
| EventHub.EventConnection.WriteFrame | packages/platform/src/server.ts:312-320 | a frame is handed to the response iff it fits the buffer bound, and `bufferedBytes` never exceeds the bound |
| EventHub.Hub.Retain | packages/platform/src/server.ts:1002-1003 | push and shift keep exactly the newest notifications, as many as the retention capacity |
| EventHub.Hub.Send | packages/platform/src/server.ts:312-320 | one frame to one open connection, which is closed iff its buffer has no room |
| EventHub.Hub.SendToAll | packages/platform/src/server.ts:1004-1007 | the loop sends the frame to every open connection that has room, closes exactly the others, and writes nothing to those |
| EventHub.Hub.Flush | packages/platform/src/server.ts:316-318 | the callback of a write lowers `bufferedBytes`, never below zero, and keeps the hub valid |
| EventHub.Hub.Broadcast | packages/platform/src/server.ts:1004-1007 | every open connection either gets exactly the newest notification or is closed, iff its buffer has no room; a closed one has been written a contiguous run of the history up to some earlier point |
| EventHub.Hub.Publish | packages/platform/src/server.ts:967-1009 | publishing keeps the hub valid: every open connection has been written one contiguous run of the whole published history, from its start to the newest, and every connection it closes a contiguous run from its start |
| EventHub.Hub.WriteBacklog | packages/platform/src/server.ts:375-397 | a new connection's backlog is written completely iff it fits the bound, and otherwise a proper prefix of it |
| EventHub.Hub.WriteAll | packages/platform/src/server.ts:390-395 | the loop over the retained notifications writes all of them in order iff together they fit, and otherwise a proper prefix of them |
| EventHub.Hub.Start | packages/platform/src/server.ts:375-397 | after its backlog a new connection follows the history from its start point; one that is closed for lack of room holds a contiguous run from there |
| EventHub.Hub.Serve | packages/platform/src/server.ts:340-403 | a connection is refused iff the capacity is used up, closed at once iff its backlog does not fit, and otherwise opened with exactly its backlog written; all other connections go on as they were |
| EventHub.Hub.Heartbeat | packages/platform/src/server.ts:369-373 | a heartbeat keeps every run, that of its own connection also when it is closed, and closes it iff its buffer has no room |
| EventHub.Hub.Close | packages/platform/src/server.ts:334-338 | closing removes that connection and keeps the hub valid |
| EventHub.StartsInHistory | packages/platform/src/server.ts:375-397 | the notifications of a backlog are exactly the published history from the start point on |
| EventHub.ReconnectResumes | packages/platform/src/server.ts:376-396 | a reconnect after any published notification resumes right after it, or gets a gap; it gets the gap iff that notification is no longer retained |
| EventHub.ReconnectIsSeamless | packages/platform/src/server.ts:376-396 | two connections in a row write one contiguous run of the history, without hole or repeat, unless the second starts with a gap |
| EventHub.UnknownIdIsGap | packages/platform/src/server.ts:376-388 | an id never published is answered with a gap iff anything has been published |
| EventHub.RetainedGrows | packages/platform/src/server.ts:1002-1003 | the newest notifications of a history with one more are the old ones with it, less the oldest when there is no room |
| EventRuns.NotesAreReceived | packages/platform/src/client.ts:665-681 | the notifications among what a client yields of some frames are those written, in order |
| EventRuns.ClientReceivesTheRun | packages/platform/src/server.ts:1004-1007 | the client of an open connection receives, however its bytes are chunked within the limit, exactly the published history from the connection's start to the newest |
| EventRuns.SessionsJoin | packages/platform/src/client.ts:557-562 | a client that reconnects with the last id it saw, while that is retained, receives over both connections the whole run, each notification once |
| Idempotency.Registry.Lookup | packages/platform/src/idempotency.ts:35-41 | a lookup answers what the unbounded log of accepted records answers through the window of the last `capacity` records not yet expired |
| Idempotency.Registry.Record | packages/platform/src/idempotency.ts:43-61 | a record is accepted iff the window has none for its key, refused iff it has one with another hash, and the map is the window of the log again |
| Idempotency.Registry.Prune | packages/platform/src/idempotency.ts:63-67 | the loop that deletes while iterating leaves exactly the unexpired entries, in order |
| Idempotency.Registry.Evict | packages/platform/src/idempotency.ts:55-59 | the eviction loop removes exactly the oldest entry when the map is full, and nothing otherwise |
| Idempotency.Registry.Insert | packages/platform/src/idempotency.ts:55-60 | eviction and insertion give the window of the log with one more record |
| Idempotency.Registry.Size | packages/platform/src/idempotency.ts:30-33 | the size is the size of the window, at most `capacity` |
| Idempotency.WindowGrows | packages/platform/src/idempotency.ts:55-60 | evicting by number and expiring by age agree: when the map is full nothing in it has expired, and when it is not, the record leaving the last `capacity` had expired |
| Idempotency.RememberedWhileInWindow | packages/platform/src/idempotency.ts:35-41 | a record among the last `capacity` that has not expired answers REPLAY for its hash and CONFLICT for any other |
| Idempotency.ForgottenOutsideWindow | packages/platform/src/idempotency.ts:35-41 | a key is a MISS iff none of the last `capacity` unexpired records has it |
| Dag.CheckDag | scripts/governance/verify_m0.py:157-177 | unknown dependencies and unlisted items are reported exactly; otherwise a cycle is reported iff the dependency relation has one, repeated dependencies and self-loops included, and on acceptance every id is listed once after all it depends on |
| Dag.Count | scripts/governance/verify_m0.py:161-166 | counters and edges count every dependency as often as it is listed; the loop fails iff an item with dependencies is not an id |
| Dag.Relax | scripts/governance/verify_m0.py:172-175 | after an item's edges, every counter is the number of outstanding dependencies, and exactly the items at zero are seen or queued |
| Dag.OrderMeansNoCycle | scripts/governance/verify_m0.py:168-177 | an order in which every item follows its dependencies excludes cycles |
| Dag.StuckMeansCycle | scripts/governance/verify_m0.py:176-177 | items that all depend on one another among themselves contain a cycle |
| Dag.SortingEnds | scripts/governance/verify_m0.py:176-177 | when the queue is empty, all ids were seen iff there is no cycle |
| JsonPointer.Pointer | scripts/governance/verify_m0.py:74-79 | the token loop writes the escaped steps, each after a slash, and nothing for the empty path |
| JsonPointer.ResolvePointer | scripts/governance/verify_m0.py:105-115 | the token loop reaches the value, or fails with the error, of the recursive descent, whatever texts `int` accepts |
| JsonPointer.UnescapeEscape | scripts/governance/verify_m0.py:113 | for every text, the two replacements of the reader undo those of the writer, and escaped text has no slash |
| JsonPointer.SplitJoin | scripts/governance/verify_m0.py:112 | splitting undoes joining for tokens without slashes, empty ones included |
| JsonPointer.FollowsExactly | scripts/governance/verify_m0.py:112-114 | a path leads to a value iff its steps go there one after the other, under their keys and at their indices |
| JsonPointer.PointerResolves | scripts/governance/verify_m0.py:105-115 | for every document and every path of keys and indices it has, and every integer reader that reads decimal text, the pointer written for the path resolves to the value at the path, with or without a leading `#` |
| JsonPointer.PlainReaderReads | scripts/governance/verify_m0.py:114 | a reader of plain decimal text is such an integer reader |
| JsonPointer.PointersDiffer | scripts/governance/verify_m0.py:74-79 | two paths are written alike iff their steps read alike |
| JsonPointer.UnescapeIs | scripts/governance/verify_m0.py:113 | in any token, `~1` stands for a slash, `~0` for a tilde and every other unit for itself, from the left |
| JsonPointer.ResolutionIsLed | scripts/governance/verify_m0.py:105-115 | any pointer on any document: the empty one gives the document, one without a leading slash a KeyError, and any other the value its tokens lead to (negative indices from the end), or the error of the first token that leads nowhere, by its kind |

## Left out

- Election, Windows: the rescan after a sharing violation is a nondeterministic step; ACL and SID code is not modelled, and both wall-clock deadlines are a nondeterministic give-up.
- Election, file system: `readdir` is one atomic snapshot, renaming a temporary file over its target is one step, and foreign entries of the claims directory appear only in `ReadRuntimeClaims`.
- CanonicalJson.ReadsBack: the reader takes text without white space, as the printer writes it; a numeral not in printed form is kept as it is written instead of being rounded, and one too large for a double is refused.
- Canonical JSON: a JavaScript object enumerates integer-like keys first, the model keeps the order of the text; no result depends on it, because the printer sorts and meanings are maps.
- ObjectGraph: accessors, symbol keys, hidden properties, holes and foreign prototypes are kinds of a rejection that all fail alike.
- SHA-256: hashes are injective by construction, or abstract functions with injectivity as a premise where it is needed.
- Store: SQLite pragmas, authorizer, migrations, backup, corruption and busy errors, inbox, projection checkpoints and health are not modelled; qualification commands that leave transactions open are excluded from runs.
- StoreHistory.RecoverCountsReceipts: counts all outbox rows, because every row is inserted as PENDING and no modelled operation changes its status.
- Kernel: freezing of snapshots, the contract registry and JSON Schema validation; validity is an abstract predicate on envelopes, payloads and batches.
- Workflow: a payload property that is missing reads as null, which schema-valid payloads rule out.
- PersistenceWorker's message queue and shutdown: a request is one atomic step of the store between two awaits.
- Policy compiler: diagnostics (code, path, message) are reduced to acceptance or refusal.
- PolicyDecisions.EvaluatePolicy: the constant fields of a decision (schema version, evaluator version, empty risk references) are left out.
- YAML: the codes of failures are kept, their line numbers and messages are left out.
- EventStream: `JSON.parse` and the notification contract are abstract, and `JSON.parse` is assumed to read back printed text. HTTP status, content type and abort signals are not modelled.
- EventHub: validation of a published input, `stopRequested` and timers are not modelled; open connections are a set, so the order in which one notification reaches different connections is not fixed; a write callback is the method `Flush`.
- Idempotency: the clock does not go backwards; the constructor's range error is its precondition.
- Dag.CheckDag: an unknown-dependency report is a set, not its sorted text; strings are compared by UTF-16 code units where Python compares code points, which changes only the order within the queue.
- HTTP parsing, authentication, CORS, problem documents, route dispatch, command-line and worker entry points, generated types and the other repository checks: plumbing around the above.

# Durable agent runs, verified

A Run of this system is an append-only log of checkpoints driven by a controller
loop. Attempts crash, lose their lease, linger as zombies and are retried; commits
are sent and not acknowledged. This project models that protocol and what is
built on its log, and proves what the design promises of it, for every schedule.

`dafny verify dfyconfig.toml` checks everything.

## How the model is laid out

- **What is stored.** `Json`, `Identities`, `Checkpoints`: payloads as value trees
  (field order and white space are gone, number literals stay text), key texts, the
  constructors, and the way through the jsonb column. SHA-256 is a function that
  never maps two payloads to one digest. `CheckpointPrefixes` is the validating
  decoder, `CheckpointGrammar` says the same without it, `PendingActions` is about
  open actions, `StoredLogs` joins the table to the decoded log.
- **The transactions.** `RunStore` gives each transaction as a function of the
  database state. `PostgresRuntime` carries them out on fields and rows, with the
  two-try loops and every fate of a commit, and `ControllerWrites` has the
  controller's loops over appends.
- **The controller.** `Controller` has budgets, validation, the retry loop and the
  selection of results. `RunProtocol` is the transition system: one controller loop
  per attempt, split at every durable write, between claims, expiring leases,
  requeues, cancellations, deadlines, membership changes, charges by other Runs and
  closings of finished Runs. A transaction whose commit was not acknowledged stays in
  doubt, holds its row locks, and is settled later, one way or the other.
- **What every schedule keeps.** `RunInvariants` (the log and whatever the lease
  holder is about to write fit together), `Provenance` (every row was built from the
  log before it), and from these `AtMostOnce`, `Publication`, `Budgets`,
  `Transparency`, `ToolChoice` (what runs beside what) and `Progress` (each part of the
  loop does get done, whatever the commits come to). `LogAccounting` has the sums over
  logs.
- **The model's context.** `ContextProjection` with `ProjectionOrder`,
  `ProjectionMessages`, `ProjectionContents`, `ProjectionKeys` and `LaneGrowth` (over all
  schedules of a chat's Runs); `Compaction` and `CompactionChain`.
- **Fast forms of simple things.** `Utf8` (section 3 of RFC 3629) and `Paging`,
  `ChunkedRange`, `Decimals`, `SourceCoverage`, `ResearchCompletion`,
  `ResearchSaturation`, `ClaimIds` and `ClaimTrees`. `Basics` and `Sorting` are shared.

## What was found false, and exactly when

- A checkpoint that holds a number the server prints differently (`1e2` comes back
  as `100`) is appended and then makes every later load of its Run fail: the digest
  no longer fits. `Checkpoints.ReadBackExactlyWhenNumbersAsShown` gives the condition,
  `Checkpoints.ExponentIsRefusedOnReload` an input. "The lease holder's append is never
  invalid" holds up to exactly this case.
- `reconcileCheckpoint` asks for the member's chat only, `lockCheckpointAuthority` also
  for a studio output. A studio Run whose append was not carried out is therefore told
  that it lost its lease (`RunStore.StudioAppendsAreNotRetried`).
- Tree charges stop at their limits instead of failing, as the code says, and closing a
  finished Run's actions is not charged, nor is a Run that is not configured;
  `Budgets.ChargesFollowTheLog` states all three.
- A claim card's id does not always stay: ids are named by a subagent's place in the
  order of `created_at`, which is the start of the spawning transaction, and the parent
  is locked only afterwards. `read_url` calls of one batch run in parallel
  (`internal/agent/executor_registry.go:170`) and spawn their readers in transactions of
  their own, so a reader that commits second may be listed first. The reader already
  there then moves from namespace a to b: its card a1 becomes b1, and the newcomer's
  first card is a1 again (`ClaimTrees.AReaderThatCommitsLateTakesTheIds`). An id stays
  if and only if no subagent added later is listed before its Run
  (`ClaimTrees.ClaimIdIsKeptUnlessOvertaken`); over a whole history ids are stable, and
  never given twice, if and only if the spawning transactions committed in the order in
  which they began (`ClaimTrees.IdsAreStableExactlyInSpawnOrder`).
- Claim ids are distinct exactly up to 650 subagents (`ClaimIds.DistinctExactlyUpTo650`).
  This bounds the naming scheme, not a run: the insert trigger and
  `internal/agent/runtime_subagent.go:26-27` allow 16 subagents, for which
  `ClaimTrees.IdsAreDistinctInEveryTree` holds without condition.
- Card conservation needs the root in the tree (`ResearchSaturation.RootMustBeInTheTree`).
  This is a condition on the measuring function only: its caller returns before
  measuring when the root is missing (`internal/agent/research_completion.go:416-420`).

## Assumptions

- A claim takes a lease token that was never used, adds one to the attempt number, and
  happens only to a queued Run or to a running one whose lease has expired, as
  `internal/jobs/queue.go` has it. Requeueing and giving up may come at any time.
- A transaction is one step. The rows it locks stay locked while its commit is in doubt.
- What tools and model may answer are relations (`gives`, `decides` of `Env`). Tools are
  advertised by registries that offer business tools only while some may be used.
- Number printing by the server is a function (`shown`); encoded sizes, token estimates,
  decoders of stored outputs and the ids a report cites are parameters.
- A chat's Runs come one after another: one is created only when those before it have
  ended (`internal/app/db.go:1957-1970`). That the lane then grows only at its end is
  `LaneGrowth.ChatLanesGrowAtTheirEnd`. Member messages have different ids; compactions
  are stored in the order of their creation times.
- Metadata of stored results are not forged; bodies may vanish or change in any way.

## Model

| member | source | states |
|---|---|---|
| Checkpoints.NewProposalCheckpoint | internal/agent/checkpoint.go:49-89 | the constructor succeeds exactly for a decision number from 1 and a non-empty batch of well-named actions with object inputs, and stores the actions in order |
| Checkpoints.SealsExactlyWellFormed | internal/agent/checkpoint.go:49-182 | each of the four constructors succeeds exactly on well-formed outcomes |
| Checkpoints.DecodeExactlySealed | internal/agent/checkpoint_prefix.go:53-170 | a stored row decodes to an outcome if and only if it is what the constructor makes of that outcome |
| Identities.RenderInjective | internal/agent/checkpoint.go:49-182 | distinct decisions, actions, Finals and steering messages have distinct key texts |
| Checkpoints.StoredKeysNameOutcomes | internal/agent/checkpoint.go:49-182 | two outcomes share a stored key text exactly when they are the same decision, action, Final or message |
| Json.JsonbKeepsExactly | internal/agent/postgres_checkpoint_store.go:322-374 | a payload survives the jsonb column exactly when the server would write each of its numbers the same way |
| Checkpoints.ReadBackExactlyWhenNumbersAsShown | internal/agent/postgres_checkpoint_store.go:291-374 | a stored outcome is accepted on reload if and only if the server shows all its numbers as they were written; otherwise the digest no longer fits and the row is refused |
| Checkpoints.ExponentIsRefusedOnReload | internal/agent/postgres_checkpoint_store.go:291-374 | counterexample: an input holding 1e2 is accepted when appended and refused by every later load |
| CheckpointPrefixes.LoadCheckpointPrefix | internal/agent/checkpoint_prefix.go:53-170 | the loop accepts and decodes a stored log exactly when it is numbered from 1, every row decodes, and each outcome may follow those before it |
| CheckpointPrefixes.AcceptCheckpoint | internal/agent/checkpoint_prefix.go:70-165 | one step of that loop, with the next decision number and the Final flag kept beside the prefix |
| CheckpointPrefixes.FirstMissingResult | internal/agent/checkpoint_prefix.go:172-186 | the first action without a result, or -1 exactly when the batch is complete |
| CheckpointPrefixes.AcceptedLogsArePrefixClosed | internal/agent/checkpoint_prefix.go:53-170 | every beginning of an accepted log is accepted |
| CheckpointPrefixes.LoadHasShape | internal/agent/checkpoint_prefix.go:53-170 | decoded logs number decisions contiguously, index actions in order, complete every batch but the last, and never deliver a steering message twice |
| CheckpointPrefixes.LoadRecordsTheLog | internal/agent/checkpoint_prefix.go:53-170 | the decoded prefix records an outcome if and only if the log has a row with it |
| CheckpointPrefixes.IdentityKeysAreDistinct | internal/agent/checkpoint_prefix.go:53-170 | no two rows of an accepted log share an identity key or its text |
| CheckpointGrammar.AcceptedExactlyInOrder | internal/agent/checkpoint_prefix.go:53-170 | the accepted logs are exactly (steering* proposal all-its-results)* with an unfinished last batch or steering* Final at the end, said without the decoder |
| CheckpointGrammar.ResultOrderIsForgotten | internal/agent/checkpoint_prefix.go:96-128 | permuting results inside a batch changes neither acceptance nor the decoded value |
| PendingActions.IncompleteActions | internal/agent/controller.go:1100-1115 | the open actions of the last batch, present exactly when that batch is incomplete |
| PendingActions.PendingInIndexOrder | internal/agent/controller.go:1095-1115 | open actions come in index order, none twice |
| PendingActions.ClosingFinishesTheBatch | internal/agent/postgres_context_projection.go:131-172 | closing all open actions as interrupted gives an accepted log with no open action |
| StoredLogs.LoadingTheTable | internal/agent/postgres_checkpoint_store.go:411-440 | loading the table gives the decoded outcomes that were appended, or fails because a number was rewritten |
| StoredLogs.MatchesExactly | internal/agent/checkpoint_prefix.go:188-208 | a row read back matches a pending checkpoint exactly when it is that outcome and its numbers survived |
| PostgresRuntime.Runtime.LockCheckpointAuthority | internal/agent/postgres_checkpoint_store.go:178-224 | held exactly by the attempt with the live lease of a running Run without a message, before the deadline and with membership of its chat or studio output; a lost lease is reported before a passed deadline, and that before missing membership (Publication.WritesNeedTheLease says what this protects) |
| PostgresRuntime.Runtime.AppendCheckpointOnce | internal/agent/postgres_checkpoint_store.go:96-176 | one append transaction on the stored rows does what the abstract transaction says, for every fate of its commit |
| PostgresRuntime.Runtime.ChargeConfiguredTree | internal/agent/tree_budget.go:18-53 | both counters rise by the charge and stop at their limits; an empty charge and a Run that is not configured change nothing |
| PostgresRuntime.Runtime.ReconcileCheckpoint | internal/agent/postgres_checkpoint_store.go:226-285 | the look after a failed append finds the same outcome, a conflict, a passed deadline, or that another try is worth it: exactly if the identity is absent and the attempt holds the live lease in time in a chat the member belongs to |
| PostgresRuntime.Runtime.AppendOnceAndLook | internal/agent/postgres_checkpoint_store.go:30-53 | one try with the look after it: another try is worth making exactly if this one had authority for a row that may come next, was not carried out, the store can be read and the member belongs to the chat; every other outcome is determined by state and commit |
| PostgresRuntime.Runtime.AppendCheckpoint | internal/agent/postgres_checkpoint_store.go:28-56 | what an append comes to is determined, on fields and log, by the state and the fate of two commits: a row that may come next is written once and charged once by the first commit carried out; the second try is made exactly if the first was not carried out, the store can be read and the member belongs to the Run's chat; a lost lease, a passed deadline, a missing membership, a conflict and an unreadable log have each their own outcome; success means the log holds the row exactly once |
| PostgresRuntime.Runtime.PublishOnce | internal/agent/postgres_runtime.go:388-527 | one publication transaction: message, Run and job change together or not at all, and only for the Final of the log |
| PostgresRuntime.Runtime.PublishResult | internal/agent/postgres_runtime.go:356-386 | what a publication comes to is determined in the same way: with authority and the Final at the end of a readable log the first commit carried out completes the Run with one message, the second try is made exactly if the first was not carried out and the state can be read; lease lost, deadline passed and invalid are reported exactly when they hold |
| PostgresRuntime.Runtime.ReconcilePublicationState | internal/agent/postgres_runtime.go:629-666 | after a publication whose commit was not acknowledged: published exactly if Run and job are completed with a message, late exactly if the Run is under way past its deadline, and worth another try exactly if this attempt holds the lease in time (Publication.ReportedSuccessIsPublished builds on it) |
| PostgresRuntime.Runtime.Fail | internal/agent/postgres_runtime.go:668-731 | Run and job end together exactly if the commit is carried out and the lease is live, whatever deadline and membership; success is an answered commit |
| PostgresRuntime.Runtime.ReconcileTerminalRunActions | internal/agent/postgres_context_projection.go:131-172 | a finished Run's open actions are closed with consecutive sequence numbers and no charge, and none stays open |
| PostgresRuntime.Runtime.InsertClosings | internal/agent/postgres_context_projection.go:153-170 | the inserting loop adds exactly one interrupted result for each open action |
| RunStore.NextRowHasNewKey | internal/agent/postgres_checkpoint_store.go:125-136 | an outcome that may come next has an identity no earlier row has |
| RunStore.StudioAppendsAreNotRetried | internal/agent/postgres_checkpoint_store.go:248-285 | the reconciling look knows only chat membership: a studio Run that holds its lease is told it lost it |
| ControllerWrites.CommitResults | internal/agent/controller.go:970-974 | the committing loop leaves the old log followed by a beginning of the queue; with authority it stops exactly at the first append that does not go through, whose own row may be written all the same, and succeeds exactly if there is none; without authority nothing is written |
| ControllerWrites.CloseUnknownRecoveredActions | internal/agent/controller.go:597-622 | success appends exactly the closings of the open actions that may not be run again; with authority it comes about exactly if each of these appends goes through |
| Controller.ProposalBudgetUse | internal/agent/controller.go:527-540 | every action is either a business action or a plan mutation |
| Controller.AcceptedBusinessActions | internal/agent/controller.go:542-552 | the nested loops count the business actions of all proposals |
| Controller.AcceptedBusinessDecisions | internal/agent/controller.go:554-565 | the loop counts the proposals with at least one business action |
| Controller.BusinessCounts | internal/agent/controller.go:527-540 | business actions are those other than the two that change the plan |
| Controller.BusinessDecisionsCount | internal/agent/controller.go:554-565 | business decisions are the proposals with at least one business action, by number |
| Controller.EncodedActionResultBytes | internal/agent/controller.go:1117-1132 | the loop sums the encoded sizes of all recorded results |
| Controller.ValidateDecisionForRequest | internal/agent/controller.go:465-506 | a decision passes exactly when it is within the batch limit, names offered tools, repeats no completed plan, changes the plan at most once and stays within the business budget |
| Controller.CompletedActionHasInput | internal/agent/controller.go:508-525 | true exactly when an earlier action with the same name and input succeeded |
| Controller.DecideWithRetries | internal/agent/controller.go:301-413 | each request but the last was retried for cause, within its limit; an accepted decision is the last reply and allowed, or a cut-off Final with its notice after the last retry; giving up as invalid, as overflow or for another error happens exactly on such a last reply |
| Controller.SelectCommits | internal/agent/controller.go:937-969 | the loop over outcomes selects rows, first failure and the over-budget mark in index order; what they are is said over outcomes and sizes by Controller.SelectedUpToTheFirstOverrun and Controller.FirstTroubleIsReported |
| Controller.SelectedUpToTheFirstOverrun | internal/agent/controller.go:937-974 | the rows are exactly the valid outcomes before the first one that is too large or does not fit beside the valid ones before it, in order; the over-budget mark says exactly that there is one |
| Controller.OverBudgetExactlyWhenSomeOverruns | internal/agent/controller.go:955-966 | the mark is set if and only if some valid outcome overruns; a broken tool or an invalid result never sets it |
| Controller.FirstTroubleIsReported | internal/agent/controller.go:937-985 | the failure is that of the first outcome that has any, and there is none if none has |
| Controller.SelectedWithinLimits | internal/agent/controller.go:927-969 | each selected row is the valid outcome of an action of the batch within its own limit, and together with earlier results within the total |
| Controller.SelectedUnlessOverBudget | internal/agent/controller.go:874-886 | short of the byte limit a failing action keeps no sibling from being committed |
| Controller.SelectedWithoutTrouble | internal/agent/controller.go:937-985 | with no failure and no overrun the rows are the outcomes of all actions, in order |
| Controller.SelectedIndicesDiffer | internal/agent/controller.go:937-969 | no action is committed twice |
| RunProtocol.AfterOneAction | internal/agent/controller.go:821-872 | the one-at-a-time path decides like a batch of one |
| RunInvariants.ClosingsMayFollow | internal/agent/controller.go:597-622 | interrupted results for any open actions fit the log |
| RunInvariants.EveryRunKeepsInvariant | internal/agent/controller.go:145-463 | after every schedule the log is acceptable, Run and job move together and hold a lease exactly while running, and everything queued by the lease holder fits the log |
| RunInvariants.HolderIsNeverRefused | internal/agent/postgres_checkpoint_store.go:113-136 | the exact verdict on the lease holder's append: invalid only if a number was rewritten, already there, or committed |
| ToolChoice.EveryAttemptRunsRight | internal/agent/controller.go:186-212 | in every reachable state an attempt at its tools has all open actions of the batch to run, in order, if there are several and all are parallel, and otherwise exactly the open action with the lowest index |
| ToolChoice.SeveralToRunAreParallel | internal/agent/controller.go:198-212 | an attempt that may run more than one action has only parallel tools to run |
| ToolChoice.StartsBesideEachOtherAreParallel | internal/agent/controller.go:198-212 | over every history two starts of one attempt with no row written between them are of two open actions of one batch, both parallel |
| Progress.OneRowIsDelivered | internal/agent/postgres_checkpoint_store.go:28-56 | a row the holder sends is written once and the attempt goes on behind it, whether the commit is acknowledged, not carried out and sent again, carried out unheard and found, or left in doubt and dissolved |
| Progress.AllRowsAreDelivered | internal/agent/controller.go:970-974 | so is every row of a queue, in order, before the attempt goes where it was to go |
| Progress.LoadingLeadsOn | internal/agent/controller.go:177-230 | loading leads to publishing the Final of the log; at the start of a later attempt to closing exactly the open actions that may not be run again; to the right tools; or, with nothing open, to reading messages |
| Progress.ARoundIsRecorded | internal/agent/controller.go:887-985 | one round starts each tool once and writes the valid outcomes before the first overrun, in order; the attempt is back at the top exactly if every outcome was valid and none overran, and stops instead of failing exactly if the first trouble was a tool that broke for now |
| Progress.MessagesAreDelivered | internal/agent/controller.go:214-236 | messages found between two decisions are written in order, each once, up to the first malformed one; then the attempt looks again, or fails at that one |
| Progress.AskedOnlyWithNothingUndelivered | internal/agent/controller.go:214-236 | the model is asked only after a look that found no message |
| Progress.AnAnswerIsRecorded | internal/agent/controller.go:301-463 | an accepted answer, tool batch or Final, becomes the next row of the log |
| Progress.ASearchIsRecorded | internal/agent/controller.go:637-734 | so does the contextualized search |
| Progress.AFinalIsPublished | internal/agent/postgres_runtime.go:356-386 | from the state before a publication the Run is completed with the Final of its log, whatever the commits come to |
| Progress.AFailureIsRecorded | internal/agent/postgres_runtime.go:668-731 | giving up with a live lease ends Run and job together, acknowledged or not |
| Progress.WithoutAuthorityItStops | internal/agent/controller.go:177-185 | an attempt without authority stops where it notices and writes nothing; only a member who left is looked after first |
| Progress.AnUnreadableLogFails | internal/agent/postgres_checkpoint_store.go:103-124 | a log with a number the server rewrote fails the Run when it is loaded and when it is to be written to |
| Progress.AskingFailsExactly | internal/agent/controller.go:237-463 | asking the model fails the Run exactly with no tool on offer and no Final in reserve, after giving up on invalid replies or overflow, for tools proposed though none is on offer, or for a decision that makes no row; an outage only stops the attempt |
| RunInvariants.PassedAppendsAreInTheLog | internal/agent/postgres_checkpoint_store.go:28-56 | whenever any attempt takes an append for done, acknowledged, found again or already there, the row is in the log; for the lease holder the log is the earlier one plus exactly that row, the last row before a failure or a stop included |
| Publication.InvalidExactlyWhenANumberWasRewritten | internal/agent/controller.go:218-235 | in every reachable state a checkpoint the lease holder built is refused as invalid if and only if the server rewrote a number in the log |
| Publication.PublishedExactlyOnce | internal/agent/postgres_runtime.go:356-527 | in every reachable state a Run is completed exactly when it has one message, never has two, and the message is the Final of its log |
| Publication.CompletedForEver | internal/agent/postgres_runtime.go:388-527 | after completion no schedule changes log, message or status |
| Publication.ReportedSuccessIsPublished | internal/agent/postgres_runtime.go:356-386 | an attempt that reports a publication is right, also after a lost acknowledgement |
| Publication.ZombiesChangeNothing | internal/agent/postgres_checkpoint_store.go:178-224 | no step of an attempt that is not the lease holder changes the database |
| Publication.WritesNeedTheLease | internal/agent/postgres_checkpoint_store.go:178-224 | every change an attempt makes happens under its own live lease with nothing in doubt; appends and publications also need deadline and membership |
| Publication.AFinalCanBePublished | internal/agent/postgres_runtime.go:356-386 | from every reachable state with a Final in the log and an unfinished Run, a given schedule publishes it: no crash or doubtful commit leaves it stuck |
| Publication.AnAnswerSurvivesALostAcknowledgement | internal/agent/postgres_checkpoint_store.go:28-56 | an example schedule reaches a Final through a lost acknowledgement and a crash |
| Provenance.EveryRowIsBuilt | internal/agent/controller.go:177-463 | every row of a reachable log was built by an attempt from exactly the log before it, or closes an action of a finished Run |
| Provenance.AllowedIsWithinBudget | internal/agent/controller.go:465-506 | a validated batch is within batch limit and remaining budgets |
| Provenance.SearchIsWithinBudget | internal/agent/controller.go:637-734 | the contextualized search skips that validation but is within the budgets all the same, except for the batch limit |
| Provenance.AllowedExactlyWithinBudgets | internal/agent/controller.go:237-277 | with tools on offer a batch is allowed if and only if it is not empty, within the batch limit, names only what is offered, repeats no completed plan, changes the plan at most once and asks for no more than is left of actions, decisions and tokens |
| Budgets.NoCompletedPlanIsRepeated | internal/agent/controller.go:484-525 | in every reachable log no batch sets a plan again that an earlier result says was set |
| Budgets.BudgetsHold | internal/agent/controller.go:237-277 | in every reachable log business actions, business decisions and the bytes of all results but interrupted ones are within their limits, and the controller's byte count is the sum over the log |
| Budgets.EveryRowIsWithinItsLimit | internal/agent/controller.go:465-506 | each batch is within the batch limit or the single contextualized search and changes the plan at most once; each result is within its limit or interrupted |
| Budgets.ChargesFollowTheLog | internal/agent/postgres_checkpoint_store.go:157-166 | the tree counters are, up to their limits, what others charged plus, for a configured Run, one for each proposal and Final and one for each result appended by an attempt; any other Run charges nothing |
| Budgets.ChargesAreNumbersOfRows | internal/agent/postgres_checkpoint_store.go:155-161 | what is charged is the number of proposals and Finals, and of results appended by an attempt |
| Budgets.MoveWritesOneRow | internal/agent/postgres_checkpoint_store.go:96-176 | the only change a step can make to log and counters is to insert the head of its own queue |
| AtMostOnce.StartedAtMostOnce | internal/agent/controller.go:177-212 | over every schedule two starts for one action imply that its tool is replay-safe |
| AtMostOnce.StartedByItsProposer | internal/agent/controller.go:177-212 | every start is for an accepted action, and one that may not be run again is started by the attempt that proposed it |
| AtMostOnce.RecordedMeansRunExactlyOnce | internal/agent/controller.go:597-622 | a recorded result other than interrupted of such a tool means it was started exactly once, by the proposing attempt, which recorded it |
| AtMostOnce.EveryRunKeepsOnce | internal/agent/controller.go:177-212 | the invariant behind these results holds after every schedule |
| Transparency.CrashesLeaveNoTrace | internal/agent/controller.go:177-463 | with replay-safe deterministic tools and a model that is a function of the decoded log, all schedules that reach a Final reach the same decoded log |
| Transparency.FinishedBatchesAgree | internal/agent/controller.go:887-985 | two such logs agree on every batch finished in both |
| Transparency.EveryRunClosesOnlyAtTheEnd | internal/agent/postgres_context_projection.go:131-172 | only a Run that ended without a Final has rows no attempt wrote |
| ContextProjection.ProjectChatLane | internal/agent/context_projection.go:55-154 | the loops give the lane's units, and fail exactly for blank or repeated ids or a Run that cannot be shown; what the units say is ProjectionContents.EveryQuestionIsShown, EveryRunIsShown and EveryRowIsShown |
| ContextProjection.ProjectPrefix | internal/agent/context_projection.go:92-151 | one Run: steering flushed before each step, steps, remaining steering, Final or legacy Final |
| ContextProjection.FlushSteering | internal/agent/context_projection.go:92-100 | the steering index moves past exactly the messages delivered through a decision |
| ContextProjection.ProjectStep | internal/agent/context_projection.go:101-132 | calls in index order followed by one answer for each, whose contents are ProjectionContents.EveryResultIsShown |
| ContextProjection.TurnsShownExactlyWhenRunsAre | internal/agent/context_projection.go:55-91 | a lane in order is shown exactly if each of its Runs can be shown |
| ProjectionContents.EveryQuestionIsShown | internal/agent/context_projection.go:55-80 | each turn begins with the member's own message and goes on with its Runs, and ends where the next begins |
| ProjectionContents.EveryRunIsShown | internal/agent/context_projection.go:81-91 | the Runs of a turn stand one after another, each whole |
| ProjectionContents.EveryRowIsShown | internal/agent/context_projection.go:92-151 | every steering message, proposal and Final of a log stands word for word at the place that counts the rows before it, a proposal with each call's name and input |
| ProjectionContents.EveryResultIsShown | internal/agent/context_projection.go:101-132 | every result of a log is answered in the unit of its proposal at its index, and the answer's payload read back is what the projector gives for that result |
| ProjectionContents.StoredPayloadsAreShown | internal/agent/context_projection.go:123-129 | with results shown as stored the answer carries the very payload stored for the row |
| ProjectionOrder.MergeRecoversTheLog | internal/agent/context_projection.go:92-151 | merging the two decoded lists gives back exactly the log's subsequence of steering, proposal and Final rows |
| ProjectionOrder.ProjectionFollowsTheLog | internal/agent/context_projection.go:55-154 | the units of a Run show those rows one by one in log order |
| ProjectionOrder.LaneGrowsAtItsEnd | internal/agent/context_projection.go:81-151 | from one decision boundary to a later one the units of a Run only grow at their end |
| ProjectionOrder.ProjectsExactlyWhenNothingIsOpen | internal/agent/context_projection.go:101-132 | a log projects if and only if no action in it is open |
| ProjectionOrder.ProjectsExactlyWhenAnswered | internal/agent/context_projection.go:101-132 | whatever projector is used, a log projects if and only if every action in it has a result for which the projector gives a valid one |
| ProjectionOrder.TerminalRunsProject | internal/agent/postgres_context_projection.go:114-172 | after its closing every terminal Run's log projects, with results shown as stored |
| LaneGrowth.EndedLogsGetClosingsOnly | internal/agent/postgres_context_projection.go:131-172 | once a Run is completed, failed or cancelled, no schedule changes its status or message, and all its log ever gets are the closings of its open actions, once |
| LaneGrowth.LogsOnlyGrow | internal/agent/postgres_checkpoint_store.go:96-176 | no schedule ever removes or rewrites a row |
| LaneGrowth.EndedRunsLookTheSame | internal/agent/postgres_context_projection.go:95-125 | what was shown of a Run that had ended is shown unchanged at any later time |
| LaneGrowth.ChatLanesGrowAtTheirEnd | internal/agent/postgres_context_projection.go:25-126 | with the Runs of a chat one after another, what one worker is given of the chat is the front of what any later worker is given, whatever crashes, closings and publications happened in between |
| LaneGrowth.ClosedTablesProject | internal/agent/postgres_context_projection.go:114-172 | the stored, closed table of an ended Run projects if and only if the server shows all its numbers as written, and then decodes to the appended outcomes |
| ProjectionMessages.FlattenContextUnits | internal/agent/context_projection.go:156-173 | the messages of all units in order |
| ProjectionMessages.EveryUnitIsFlattened | internal/agent/context_projection.go:156-173 | the messages of each unit stand together, right after those of the units before it |
| ProjectionMessages.EveryCallIsAnsweredOnce | internal/agent/context_projection.go:101-132 | in what the model is given every tool call is answered exactly once, right after its proposal and in index order |
| ProjectionKeys.StepKeyInjective | internal/agent/compaction.go:33-42 | a step's key text names its Run and decision whatever the run id contains |
| ProjectionKeys.LaneKeysAreDistinct | internal/agent/compaction.go:33-42 | no two units of a projected lane share a key, given that no member message appears twice |
| Compaction.SelectCompactionCut | internal/agent/compaction.go:46-70 | the cut keeps the longest suffix within the target or the last unit alone, and fails exactly for a short lane, no target or a lane that fits whole |
| Compaction.CutIsUnique | internal/agent/compaction.go:44-70 | that description leaves one cut |
| Compaction.ApplyContextCompaction | internal/agent/compaction.go:72-98 | the loop finds both boundaries and gives the summary and the exact suffix; a blank summary, an empty or missing boundary, or boundaries that are not neighbours are errors |
| Compaction.ContextUnitIndex | internal/agent/postgres_compaction.go:363-370 | the first unit with a key; with distinct keys the only one |
| Compaction.PrepareCandidate | internal/agent/postgres_compaction.go:129-182 | there is a candidate if and only if the latest compaction applies, more than one unit and more than the target is left past its cut, and at the one possible cut the summary is not blank and makes the request smaller and fit; it then summarizes the units between the two cuts together with the summary before |
| Compaction.CutProgresses | internal/agent/postgres_compaction.go:129-137 | the cut lies past the latest one exactly when more than one unit and more than the target is left from there |
| Compaction.CompactionTable.AppendContextCompaction | internal/agent/postgres_compaction.go:235-301 | a candidate whose predecessor is no longer the latest loses and gets the latest; otherwise it is appended, or found under its id |
| CompactionChain.OneChainWithAdvancingCuts | internal/agent/postgres_compaction.go:129-199 | over every interleaving of workers the stored compactions form one chain with strictly advancing cuts, each summarizing exactly the units between two cuts |
| CompactionChain.EveryUnitIsAccountedFor | internal/agent/postgres_compaction.go:129-199 | summary and exact suffix together tell every unit of the lane exactly once, in order |
| Compaction.CandidateApplies | internal/agent/postgres_compaction.go:158-166 | a candidate whose summary is not blank always applies to the lane it was built from, and shows that summary and the exact suffix |
| CompactionChain.LatestAppliesExactlyPastItsCut | internal/agent/compaction.go:72-98 | the latest compaction applies to a worker's lane if and only if that lane reaches past its cut |
| CompactionChain.AppendedFollowsTheLatest | internal/agent/postgres_compaction.go:235-301 | a candidate that is appended was built on the compaction it now follows, and its id is new |
| CompactionChain.AppendedExactlyBehindTheLatest | internal/agent/postgres_compaction.go:235-301 | a candidate built on the latest compaction is appended behind it; built on any other it is not, and its worker gets the latest |
| Utf8.ValidInTwoParts | internal/agent/compacted_tool_result.go:105-132 | cut at a character, a text is valid exactly when the rest is |
| Utf8.ReadableFrom | internal/agent/tool_result_cache.go:163-201 | no character starts inside another: where a piece of a valid text can be read, the whole rest can |
| Paging.PageCompactedToolResult | internal/agent/compacted_tool_result.go:105-132 | a page is the longest whole characters within the limit; it fails exactly for a limit below 4 or an offset not at a character; the empty-page error never occurs |
| Paging.PageFromRange | internal/agent/tool_result_cache.go:163-201 | the page cut from a fetched range is the page cut from the whole body, and is refused only where no character starts |
| Paging.ReadExternalizedPage | internal/agent/tool_result_cache.go:115-202 | a read through the verified range gives the page of the body that was put, only to its owner and before it expires, whatever the store holds by now; in a valid body only offsets at a character are served, and an untouched body is never refused there |
| Paging.MarshalBoundedToolResultPage | internal/agent/read_tool_result_action.go:83-125 | the binary search gives a page within the output limit that could not have one character more, with nothing assumed about how sizes grow; it fails only if not even one character fits or a size cannot be told |
| Paging.ReadPage | internal/agent/read_tool_result_action.go:48-81 | a whole read gives a true page of the body within both limits, and fails only for a limit below 4, an offset not at a character, or a page of which nothing can be shown |
| Paging.ReadExternalizedResult | internal/agent/read_tool_result_action.go:48-81 | a whole read of an externalized result gives a page of the body that was put, within both limits, only to its owner and in time |
| Paging.PagingLosesNothing | internal/agent/read_tool_result_action.go:83-125 | any chain of pages that reaches complete concatenates to exactly the stored bytes |
| Paging.ChainHoldsTheFront | internal/agent/read_tool_result_action.go:83-125 | a chain holds the bytes up to its next offset and every page makes progress |
| Paging.ChainGoesOn | internal/agent/compacted_tool_result.go:105-132 | the next offset of a chain over a valid text always stands at a character, whichever of the two reads gave the pages |
| ChunkedRange.MetadataFromEnvelope | internal/agent/redis_tool_result_store.go:340-358 | the loop hashes every chunk of the body |
| ChunkedRange.StoredMetadataValidates | internal/agent/redis_tool_result_store.go:368-440 | an envelope is valid if and only if its metadata passes the check of later reads and its length and hash are those of its body |
| ChunkedRange.VerifyChunks | internal/agent/redis_tool_result_store.go:403-420 | chunks verify if and only if they are the bytes that were stored |
| ChunkedRange.AlignmentCovers | internal/agent/redis_tool_result_store.go:204-216 | the aligned range covers the asked one and ends where its last chunk ends |
| ChunkedRange.ToolResultStore.Put | internal/agent/redis_tool_result_store.go:89-113 | a valid envelope within the size limit and with a lifetime is stored, metadata and body together; anything else is refused and changes nothing |
| ChunkedRange.ToolResultStore.ReadRange | internal/agent/redis_tool_result_store.go:163-246 | bytes that come back are those of the envelope that was put whatever the store holds by now, an untouched body is never refused, an offset is invalid exactly if it is outside the body, corrupt is said only of a body that changed, and expired only of what is gone |
| Decimals.CanonicalRat | internal/agent/calculate_action.go:113-159 | the printed text is canonical and never minus zero; read back it is exact if, and in lowest terms only if, the denominator has no factor but 2 and 5, and otherwise within half a unit of the 18th place |
| Decimals.DivideOut | internal/agent/calculate_action.go:128-147 | dividing out a factor ends with what the factor no longer divides |
| Decimals.CleanedReadsBack | internal/agent/calculate_action.go:148-158 | trimming zeros, dot and minus zero keeps the printed value |
| Decimals.ExactOnlyIfTerminates | internal/agent/calculate_action.go:124-159 | a fraction in lowest terms equals some decimal only if its denominator has no factor but 2 and 5 |
| Decimals.FactorsAreUnique | internal/agent/calculate_action.go:128-150 | the two loops find every factor 2 and 5, so the exact case is recognised |
| SourceCoverage.MergeInspectionRanges | internal/agent/inspect_source_action.go:384-409 | merged ranges are ascending, disjoint and not adjacent, and cover exactly the pages of the valid ranges |
| SourceCoverage.ComplementInspectionRanges | internal/agent/inspect_source_action.go:411-426 | the complement covers exactly the other pages of 1..n, again ascending, disjoint and not adjacent |
| SourceCoverage.SeparateRangesAreUnique | internal/agent/inspect_source_action.go:384-426 | such ranges are determined by the pages they cover |
| SourceCoverage.RefreshInspectionCoverage | internal/agent/inspect_source_action.go:365-382 | represented and uncovered pages partition 1..n, and the omission counts are those of the entries left |
| SourceCoverage.FitSourceInspectionResult | internal/agent/inspect_source_action.go:317-363 | the loop ends with a result within the limit whose coverage fits its entries, or fails because not even a bare one fits; the longest text is cut first, the abstract dropped only when no preview is left, an entry only when the abstract is gone too and with it the result was too large, and nothing at all is given up of a result that fits |
| ResearchCompletion.CheckResearchCompletion | internal/agent/research_completion.go:231-324 | a declaration is accepted if and only if no subagent runs, the plan is declared, all named cards are usable and cited, and no question owes a round; the retry list is exactly what owes one, the problems listed are exactly those there are, and the stop reason says whether the budget was spent or all was answered |
| ResearchCompletion.ResearchCompletionRetriedQuestions | internal/agent/research_completion.go:340-366 | exactly the questions sent back before a later decision that searched or read |
| ResearchCompletion.NoSecondRound | internal/agent/research_completion.go:337-366 | after that round no later declaration sends the question back |
| ResearchCompletion.AcceptedResearchCompletion | internal/agent/research_completion.go:379-396 | the loops give the declaration that stands |
| ResearchCompletion.StandsExactlyAfterAssembly | internal/agent/research_completion.go:379-396 | one stands if and only if it was accepted after the last successful assembly |
| ResearchCompletion.TheLastAcceptedStands | internal/agent/research_completion.go:379-396 | what stands is the last accepted declaration, unless an assembly came after it |
| ResearchSaturation.CountUsableResearchCards | internal/agent/research_completion.go:510-525 | the nested loops count the usable cards of the proposals |
| ResearchSaturation.CollectAgents | internal/agent/research_completion.go:481-500 | exactly the subagents of the tree that one result reports completed are collected, each counted with its cards the first time and never again |
| ResearchSaturation.MeasureRound | internal/agent/research_completion.go:468-500 | one decision collects exactly the subagents its successful wait_agent results report completed |
| ResearchSaturation.CardsOfCounts | internal/agent/research_completion.go:510-525 | the cards of a decision are the number of its actions that recorded a usable one |
| ResearchSaturation.ReadsOfCounts | internal/agent/research_completion.go:475-480 | the reads of a decision are the number of its successful reading actions |
| ResearchSaturation.MeasureResearchSaturation | internal/agent/research_completion.go:455-508 | each round counts a decision's own cards and reads and the subagents first reported completed in it, with their cards; uncollected are the cards of exactly the subagents never reported so; together they are the usable cards of the whole tree if the root is in it, and without the root nothing is counted |
| ResearchSaturation.RootMustBeInTheTree | internal/agent/research_completion.go:457-460 | counterexample: a tree without its root reports nothing although it has a card |
| ClaimIds.CardIdsAreDistinct | internal/agent/research_claims.go:253-276 | with up to 650 subagents no two cards of a tree share an id |
| ClaimIds.DistinctExactlyUpTo650 | internal/agent/research_claims.go:265-276 | ids are distinct over a tree if and only if it has at most 650 subagents |
| ClaimIds.NamespacesAscend | internal/agent/research_claims.go:253-276 | namespaces are single letters without c in alphabetical order, then pairs in order |
| ClaimIds.TooManySubagentsCollide | internal/agent/research_claims.go:265-276 | counterexample: the 651st subagent's cards are named like the root's |
| ClaimIds.ResearchClaimId | internal/agent/research_claims.go:237-251 | the loop gives the number of the claim in decision order, or the next number |
| ClaimIds.OrdinalCountsTheClaimsBefore | internal/agent/research_claims.go:234-251 | a claim's number is one more than the number of claims before it in decision order, whatever their results |
| ClaimIds.ClaimIdIsStable | internal/agent/research_claims.go:234-251 | within the namespace its Run has, an assigned id is the same when computed over any later log of the Run; whether the namespace stays is ClaimTrees.ClaimIdIsKeptUnlessOvertaken |
| ClaimIds.OrdinalIsForeseen | internal/agent/research_claims.go:234-251 | the number foreseen for a claim is the one it has once proposed |
| ClaimIds.OrdinalsDiffer | internal/agent/research_claims.go:237-251 | different claims of a Run have different numbers |
| ClaimTrees.LoadResearchClaimTree | internal/agent/research_claims.go:888-932 | the root comes first without a namespace, then every subagent at its place in the order of creation time and id, named by that place; loading fails exactly if some log does not decode |
| ClaimTrees.PrecedesMeans | internal/agent/research_claims.go:898-905 | listed first is what was created earlier, or at the same time with the smaller id |
| ClaimTrees.TreeIdsAreDistinct | internal/agent/research_claims.go:237-276 | in every tree of up to 650 subagents any two different claims, of one Run or of two, have different ids |
| ClaimTrees.IdsAreDistinctInEveryTree | internal/agent/research_claims.go:237-276 | the same for every tree that can come about, which has at most 16 subagents |
| ClaimTrees.ClaimIdIsKeptUnlessOvertaken | internal/agent/research_claims.go:888-932 | when logs grow and subagents are added, a claim keeps its id if and only if no added subagent is listed before its Run |
| ClaimTrees.PlaceIsKeptUnlessOvertaken | internal/agent/research_claims.go:898-930 | a present Run keeps its place exactly if nobody was listed before it, and otherwise only moves back |
| ClaimTrees.IdsOfTwoMoments | internal/agent/research_claims.go:237-276 | claims recorded at two moments share an id exactly if one Run stands where the other stood and the numbers agree; a Run that was not overtaken shares no id with a later claim |
| ClaimTrees.OldPlaceIsReusedExactlyWhenOvertaken | internal/agent/research_claims.go:898-930 | the old place of a Run goes to another Run exactly if it was overtaken |
| ClaimTrees.IdsAreStableExactlyInSpawnOrder | internal/agent/research_claims.go:888-932 | over a whole history no Run is ever overtaken if and only if the spawning transactions committed in the order in which they began |
| ClaimTrees.AReaderThatCommitsLateTakesTheIds | internal/agent/runtime_subagent.go:213-300 | counterexample: a reader whose transaction began first but commits second turns the card a1 of the reader already there into b1, and its own first card is a1 |

## Left out

- Exclusive delegation (`executeDelegationAction`, the delegation kernel) and the other waits (planning input, import of sources): a wait and its end depend on state of other Runs; the results about starts of tools are about all other tools. With them the job status `waiting` is left out. A Run has no such status: `internal/app/db.go:2372-2374` allows just the five of the model, and while its job waits it is running or queued, so the closing of finished Runs never reaches it.
- Byte-level JSON: escaping, key order and size of encodings; payloads are value trees and sizes are a parameter.
- The wording of interrupted results and steering notices is shortened; error codes are kept where they decide a branch, not as a catalogue.
- The controller's loop is a transition system with one step per durable write instead of one method, because other attempts and the queue move between its writes; its inner loops are methods.
- Controller.ValidateDecisionForRequest: the tools' own input schemas, which can only refuse more, are not modelled.
- RunProtocol.AfterOneAction: requests, trace spans and externalizing of long results around a tool call are part of what the tool gives back.
- Cancellation of a context inside a step is a crash after or before that step.
- Attempt limits and back-off of the queue: giving up is an event that may come at any time.
- PostgresRuntime.Runtime.AppendCheckpoint: nothing else moves between its two tries; RunProtocol interleaves the same tries with everything, and Progress.OneRowIsDelivered carries them through. The same holds for PostgresRuntime.Runtime.PublishResult.
- PostgresRuntime.Runtime.PublishOnce: grounding checks and citations of a publication, and the stored result of a configured Run, are not modelled: they can only make the transaction fail, which a commit that is not carried out covers.
- CompactionChain.EveryUnitIsAccountedFor: says which units a summary was made from, not that its text tells them.
- Compaction.PrepareCandidate: the trigger before it, the authority checks around the summarizer and the second measuring of the accepted compaction are not modelled.
- Compaction.ApplyContextCompaction: escaping of a closing tag inside the summary's text is not modelled.
- ProjectionOrder.TerminalRunsProject: results are shown as stored; with another projector ProjectionOrder.ProjectsExactlyWhenAnswered gives the exact condition.
- Paging.ReadExternalizedPage: the mode without ranges, which pages like a compacted result, is left out.
- ChunkedRange.ToolResultStore.ReadRange: failing storage calls are left out, as is a sum of offset and size beyond the integer range.
- ChunkedRange.ToolResultStore.Put: a storage call that fails after storing is left out, and the pattern of references is a parameter.
- ChunkedRange.StoredMetadataValidates: version, media type and encoding, which are the same in every envelope, and the text form of hashes are left out.
- ClaimTrees.LoadResearchClaimTree: creation times are whole numbers and texts are compared by code units; a collation only changes which order is meant.
- Decimals.CanonicalRat: `FloatString` of the standard library is modelled by its documentation; arithmetic on fractions before printing is not part of this model.
- ResearchCompletion.CheckResearchCompletion: the problem texts are values, and decoding of the declaration happens before it.
- Loading of executions, prompts, token budgets, tracing, metrics, replay staging, encryption, and all of `cmd/` and `web/`.

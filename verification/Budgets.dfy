/** Budgets over whole runs, and what the Agent Tree is charged. */
module Budgets {
  import opened Basics
  import opened Identities
  import opened Checkpoints
  import opened CheckpointPrefixes
  import opened PendingActions
  import opened Controller
  import opened RunStore
  import opened RunProtocol
  import opened RunInvariants
  import opened LogAccounting
  import opened Provenance

  // ----- The Run's own limits -----

  /** Bytes of the results in a log, with or without the interrupted ones. */
  function LoggedBytes(size: Row -> nat, rows: seq<Row>, interruptedToo: bool): nat {
    if rows == [] then 0
    else
      var last := rows[|rows| - 1];
      LoggedBytes(size, rows[..|rows| - 1], interruptedToo) +
      (if last.ResultRow? && (interruptedToo || last.result != INTERRUPTED) then size(last) else 0)
  }

  ghost predicate BudgetsKept(env: Env, rows: seq<Row>) {
    && Load(rows).Some?
    && BusinessActions(Load(rows).value.proposals) <= Max(0, env.limits.actionLimit)
    && BusinessDecisions(Load(rows).value.proposals) <= Max(0, env.limits.actionDecisionLimit)
    && LoggedBytes(env.size, rows, false) <= Max(0, env.limits.actionResultsBytes)
    && LoggedBytes(env.size, rows, false) <= LoggedBytes(env.size, rows, true) ==
      ResultBytes(env.size, Load(rows).value.proposals)
  }

  lemma OneMoreRowKeepsBudgets(env: Env, rows: seq<Row>, row: Row, author: nat, execs: seq<Exec>)
    requires BudgetsKept(env, rows) && Load(rows + [row]).Some? && Built(env, rows, row, author, execs)
    ensures BudgetsKept(env, rows + [row])
  {
    hide Load, Accept, INTERRUPTED, ResultBytes, BusinessActions, BusinessDecisions;
    var p := Load(rows).value;
    LoadOneMore(rows, row);
    LoadHasShape(rows);
    assert (rows + [row])[..|rows|] == rows;
    match row
    case ProposalRow(_, _) => ProposalCounts(env.size, p, row);
    case ResultRow(_, _, _) => AnswerKeepsBudgets(p, row); AnswerAddsItsBytes(env.size, p, row);
    case FinalRow(_, _) => BoundariesKeepProposals(p, row);
    case SteeringRow(_, _, _) => BoundariesKeepProposals(p, row);
  }

  lemma BoundariesKeepProposals(p: Prefix, row: Row)
    requires Accept(p, row).Some? && (row.FinalRow? || row.SteeringRow?)
    ensures Accept(p, row).value.proposals == p.proposals
  {
  }

  lemma {:induction false} BuiltLogsKeepBudgets(env: Env, rows: seq<Row>, authors: seq<nat>, execs: seq<Exec>)
    requires Load(rows).Some? && LogBuilt(env, rows, authors, execs)
    ensures BudgetsKept(env, rows)
    decreases |rows|
  {
    hide Built, BudgetsKept, Load;
    if rows == [] {
      EmptyLogKeepsBudgets(env);
    } else {
      var n := |rows| - 1;
      AcceptedLogsArePrefixClosed(rows, n);
      assert rows == rows[..n] + [rows[n]];
      forall k | 0 <= k < n ensures Built(env, rows[..n][..k], rows[..n][k], authors[..n][k], execs) {
        assert rows[..n][..k] == rows[..k];
      }
      BuiltLogsKeepBudgets(env, rows[..n], authors[..n], execs);
      OneMoreRowKeepsBudgets(env, rows[..n], rows[n], authors[n], execs);
    }
  }

  lemma EmptyLogKeepsBudgets(env: Env)
    ensures BudgetsKept(env, [])
  {
  }

  /** In every reachable state the log is within its budgets: business actions,
      decisions with a business action, and the bytes of all results other than
      interrupted ones. */
  lemma BudgetsHold(env: Env, events: seq<Event>)
    ensures BudgetsKept(env, Run(env, events).db.rows)
  {
    hide Run, BudgetsKept, LogBuilt, LocalBuilds, LocalOk;
    EveryRunKeepsInvariant(env, events);
    EveryRowIsBuilt(env, events);
    var sys := Run(env, events);
    BuiltLogsKeepBudgets(env, sys.db.rows, sys.db.authors, sys.execs);
  }

  /** Each batch is within the batch limit, or is the one contextualized search,
      and changes the plan at most once; each result is within its own limit,
      or is an interrupted one. */
  lemma EveryRowIsWithinItsLimit(env: Env, events: seq<Event>, k: nat)
    requires k < |Run(env, events).db.rows|
    ensures var row := Run(env, events).db.rows[k];
      (row.ProposalRow? ==>
         (|row.actions| <= env.limits.actionBatchLimit ||
           (|row.actions| == 1 && row.actions[0].name == "search_evidence")) &&
         |row.actions| - BusinessOf(row.actions) <= 1) &&
      (row.ResultRow? ==> env.size(row) <= env.limits.actionResultBytes || row.result == INTERRUPTED)
  {
    hide Run, Load, LocalBuilds, INTERRUPTED, BusinessOf;
    EveryRowIsBuilt(env, events);
    var db := Run(env, events).db;
    assert Built(env, db.rows[..k], db.rows[k], db.authors[k], Run(env, events).execs);
  }

  /** No batch sets the plan again that an earlier result in the log says was set: a
      completed rewrite of the plan is never proposed a second time. */
  lemma NoCompletedPlanIsRepeated(env: Env, events: seq<Event>, k: nat, i: nat, b: nat, r: nat)
    requires k < |Run(env, events).db.rows| && b < k && r < k
    requires var rows := Run(env, events).db.rows;
      rows[k].ProposalRow? && i < |rows[k].actions| && rows[k].actions[i].name == "rewrite_todo_list" &&
      rows[b].ProposalRow? && rows[r].ResultRow? && rows[r].no == rows[b].no &&
      0 <= rows[r].index < |rows[b].actions| &&
      rows[r].result.status.Succeeded?
    ensures var rows := Run(env, events).db.rows; rows[b].actions[rows[r].index] != rows[k].actions[i]
  {
    hide Run, Load, LocalBuilds, INTERRUPTED, BusinessOf, BusinessActions, BusinessDecisions;
    EveryRunKeepsInvariant(env, events);
    EveryRowIsBuilt(env, events);
    var db := Run(env, events).db;
    assert Built(env, db.rows[..k], db.rows[k], db.authors[k], Run(env, events).execs);
    var before := db.rows[..k];
    assert before[b] == db.rows[b] && before[r] == db.rows[r];
    LoadRecordsTheLog(before, db.rows[b]);
    LoadRecordsTheLog(before, db.rows[r]);
    var p, no, index := Load(before).value, db.rows[r].no, db.rows[r].index;
    assert !RepeatsCompletedPlan(p, db.rows[k].actions[i]);
    assert Repeats(p.proposals[no - 1].actions[index], db.rows[b].actions[index]);
  }

  // ----- Charges -----

  /** Rows charged as model calls. Only attempts append those. */
  function ModelCalls(rows: seq<Row>): nat {
    if rows == [] then 0
    else ModelCalls(rows[..|rows| - 1]) + CallCharge(rows[|rows| - 1])
  }

  /** Results appended by attempts; those that close a finished Run (author 0)
      are not charged. */
  function Actions(rows: seq<Row>, authors: seq<nat>): nat
    requires |authors| == |rows|
  {
    if rows == [] then 0
    else
      var n := |rows| - 1;
      Actions(rows[..n], authors[..n]) + (if authors[n] != 0 then ActionCharge(rows[n]) else 0)
  }

  /** The tree was charged for what other Runs did, and for the rows of this Run if it
      is configured. */
  ghost predicate Charges(tree: Tree, sys: System) {
    |sys.db.authors| == |sys.db.rows| && ChargedFor(tree, sys.db, sys.otherCalls, sys.otherActions)
  }

  ghost predicate ChargedFor(tree: Tree, db: Db, otherCalls: nat, otherActions: nat)
    requires |db.authors| == |db.rows|
  {
    var calls := if tree.configured then ModelCalls(db.rows) else 0;
    var actions := if tree.configured then Actions(db.rows, db.authors) else 0;
    db.modelCalls == Min(otherCalls + calls, tree.modelCallLimit) &&
    db.actions == Min(otherActions + actions, tree.actionLimit)
  }

  /** What is charged, as numbers of rows. */
  lemma ChargesAreNumbersOfRows(rows: seq<Row>, authors: seq<nat>)
    requires |authors| == |rows|
    ensures ModelCalls(rows) == |set i | 0 <= i < |rows| && IsDecision(rows[i])|
    ensures Actions(rows, authors) == |set i | 0 <= i < |rows| && IsAppendedResult(rows[i], authors[i])|
  {
    ModelCallsCount(rows);
    ActionsCount(rows, authors);
  }

  predicate IsDecision(row: Row) {
    row.ProposalRow? || row.FinalRow?
  }

  predicate IsAppendedResult(row: Row, author: nat) {
    row.ResultRow? && author != 0
  }

  lemma {:induction false} ModelCallsCount(rows: seq<Row>)
    ensures ModelCalls(rows) == |set i | 0 <= i < |rows| && IsDecision(rows[i])|
    decreases |rows|
  {
    if rows != [] {
      var n := |rows| - 1;
      ModelCallsCount(rows[..n]);
      DecisionIsCharged(rows[n]);
      hide IsDecision, CallCharge;
      var before := set i | 0 <= i < n && IsDecision(rows[..n][i]);
      var all := set i | 0 <= i < |rows| && IsDecision(rows[i]);
      assert all == if IsDecision(rows[n]) then before + {n} else before;
    }
  }

  lemma DecisionIsCharged(row: Row)
    ensures CallCharge(row) == if IsDecision(row) then 1 else 0
    ensures forall author: nat ::
      (if author != 0 then ActionCharge(row) else 0) == if IsAppendedResult(row, author) then 1 else 0
  {
  }

  lemma {:induction false} ActionsCount(rows: seq<Row>, authors: seq<nat>)
    requires |authors| == |rows|
    ensures Actions(rows, authors) == |set i | 0 <= i < |rows| && IsAppendedResult(rows[i], authors[i])|
    decreases |rows|
  {
    if rows != [] {
      var n := |rows| - 1;
      ActionsCount(rows[..n], authors[..n]);
      DecisionIsCharged(rows[n]);
      assert IsAppendedResult(rows[n], authors[n]) <==> authors[n] != 0 && ActionCharge(rows[n]) == 1;
      hide IsAppendedResult, ActionCharge;
      var before := set i | 0 <= i < n && IsAppendedResult(rows[..n][i], authors[..n][i]);
      var all := set i | 0 <= i < |rows| && IsAppendedResult(rows[i], authors[i]);
      assert all == if IsAppendedResult(rows[n], authors[n]) then before + {n} else before;
    }
  }

  lemma CountOneMore(rows: seq<Row>, authors: seq<nat>, row: Row, author: nat)
    requires |authors| == |rows|
    ensures ModelCalls(rows + [row]) == ModelCalls(rows) + CallCharge(row)
    ensures Actions(rows + [row], authors + [author]) ==
      Actions(rows, authors) + (if author != 0 then ActionCharge(row) else 0)
  {
    assert (rows + [row])[..|rows|] == rows && (authors + [author])[..|rows|] == authors;
  }

  lemma {:induction false} ClosingsAreFree(rows: seq<Row>, authors: seq<nat>, closings: seq<Row>)
    requires |authors| == |rows| && forall i | 0 <= i < |closings| :: closings[i].ResultRow?
    ensures ModelCalls(rows + closings) == ModelCalls(rows)
    ensures Actions(rows + closings, authors + Zeros(|closings|)) == Actions(rows, authors)
    decreases |closings|
  {
    if closings == [] {
      assert rows + closings == rows && authors + Zeros(0) == authors;
    } else {
      var n := |closings| - 1;
      ClosingsAreFree(rows, authors, closings[..n]);
      CountOneMore(rows + closings[..n], authors + Zeros(n), closings[n], 0);
      assert rows + closings[..n] + [closings[n]] == rows + closings;
      assert authors + Zeros(n) + [0] == authors + Zeros(n + 1);
    }
  }

  ghost predicate SameLog(db: Db, after: Db) {
    after.rows == db.rows && after.authors == db.authors && after.modelCalls == db.modelCalls &&
    after.actions == db.actions
  }

  /** The only change an attempt can make to the log and the counters is the
      insertion of the row at the head of its queue. */
  ghost predicate WritesOneRow(tree: Tree, db: Db, l: Local, after: Db) {
    SameLog(db, after) ||
    (l.pc.Appending? && l.pc.queue != [] && after == Inserted(tree, db, l.pc.queue[0], l.attempt.no))
  }

  lemma MoveWritesOneRow(env: Env, db: Db, l: Local, step: Step)
    ensures WritesOneRow(env.tree, db, l, Move(env, db, l, step).db)
  {
    hide Loaded, Steered, Decided, Contextualized, Starts, Finished, SentAppend, CheckedAppend, SentFail, SentPublish;
    hide CheckedPublish, Inserted;
    match step
    case Crash =>
    case LoadLog => OpenBatchLeavesTheLog(env, db, l);
    case ReadSteering(_) => ToolsLeaveTheLog(env, db, l, step);
    case Decide(_, _, _, _, _) => DecisionsLeaveTheLog(env, db, l, step);
    case Contextualize(_, _, _, _) => DecisionsLeaveTheLog(env, db, l, step);
    case StartTool(_) => ToolsLeaveTheLog(env, db, l, step);
    case FinishTools(_) => ToolsLeaveTheLog(env, db, l, step);
    case SendAppend(commit) => if l.pc.Appending? && l.pc.queue != [] { AppendWritesOneRow(env, db, l, commit); }
    case CheckAppend(_) => ChecksLeaveTheLog(env, db, l, step);
    case SendFail(commit) => FailLeavesTheLog(db, l, commit);
    case SendPublish(commit) => if l.pc.Publishing? { PublishLeavesTheLog(env, db, l, commit); }
    case CheckPublish(_) => ChecksLeaveTheLog(env, db, l, step);
  }

  lemma AppendWritesOneRow(env: Env, db: Db, l: Local, commit: Commit)
    requires l.pc.Appending? && l.pc.queue != []
    ensures WritesOneRow(env.tree, db, l, SentAppend(env, db, l, commit).db)
  {
    hide Load, ReadLog, CheckAuthority, HasKey;
  }

  lemma ToolsLeaveTheLog(env: Env, db: Db, l: Local, step: Step)
    requires step.ReadSteering? || step.StartTool? || step.FinishTools?
    ensures Move(env, db, l, step).db == db
  {
    hide Load, Possible, Select, ResultBytes, SteeringQueue, Undelivered;
    hide Loaded, Decided, Contextualized, SentAppend, CheckedAppend, SentFail, SentPublish, CheckedPublish;
  }

  lemma ChecksLeaveTheLog(env: Env, db: Db, l: Local, step: Step)
    requires step.CheckAppend? || step.CheckPublish?
    ensures Move(env, db, l, step).db == db
  {
    hide Reconcile, ReconcilePublication, Loaded, Steered, Decided, Contextualized, Starts, Finished, SentAppend;
    hide SentFail, SentPublish;
  }

  lemma FailLeavesTheLog(db: Db, l: Local, commit: Commit)
    ensures SameLog(db, SentFail(db, l, commit).db)
  {
  }

  lemma PublishLeavesTheLog(env: Env, db: Db, l: Local, commit: Commit)
    requires l.pc.Publishing?
    ensures SameLog(db, SentPublish(env, db, l, commit).db)
  {
    hide ReadLog, CheckAuthority, WellFormed;
  }

  lemma OpenBatchLeavesTheLog(env: Env, db: Db, l: Local)
    ensures Loaded(env, db, l).db == db
  {
    hide Load, ReadLog, CheckAuthority, Closings, Unsafe, Chosen, OpenActions;
  }

  lemma DecisionsLeaveTheLog(env: Env, db: Db, l: Local, step: Step)
    requires step.Decide? || step.Contextualize?
    ensures Move(env, db, l, step).db == db
  {
    hide Load, CheckAuthority, DecisionAllowed, OfferFor, Advertisable, WellFormed;
    hide Loaded, Steered, Starts, Finished, SentAppend, CheckedAppend, SentFail, SentPublish, CheckedPublish;
  }

  lemma InsertionIsCharged(tree: Tree, db: Db, row: Row, author: nat, calls: nat, actions: nat)
    requires |db.authors| == |db.rows| && author != 0 && ChargedFor(tree, db, calls, actions)
    ensures var after := Inserted(tree, db, row, author);
      |after.authors| == |after.rows| && ChargedFor(tree, after, calls, actions)
  {
    hide ModelCalls, Actions;
    CountOneMore(db.rows, db.authors, row, author);
  }

  lemma MoveKeepsCharges(env: Env, sys: System, no: nat, step: Step)
    requires Invariant(sys) && Charges(env.tree, sys) && 1 <= no <= |sys.locals|
    ensures Charges(env.tree, Next(env, sys, ByAttempt(no, step)))
  {
    hide Move, DbOk, LocalOk, ModelCalls, Actions, Inserted;
    var l := sys.locals[no - 1];
    MoveWritesOneRow(env, sys.db, l, step);
    if l.pc.Appending? && l.pc.queue != [] {
      InsertionIsCharged(env.tree, sys.db, l.pc.queue[0], no, sys.otherCalls, sys.otherActions);
    }
  }

  lemma DoubtfulAppendIsSigned(sys: System)
    requires Invariant(sys) && sys.db.inDoubt.Some? && sys.db.inDoubt.value.DoubtfulAppend?
    ensures sys.db.inDoubt.value.author != 0
  {
    hide Load, LocalOk;
  }

  lemma SameLogSameCharges(tree: Tree, db: Db, after: Db, calls: nat, actions: nat)
    requires |db.authors| == |db.rows| && SameLog(db, after) && ChargedFor(tree, db, calls, actions)
    ensures ChargedFor(tree, after, calls, actions)
  {
    hide ModelCalls, Actions;
  }

  lemma SettleKeepsCharges(env: Env, sys: System, commits: bool)
    requires Invariant(sys) && Charges(env.tree, sys)
    ensures Charges(env.tree, sys.(db := Settled(env.tree, sys.db, commits)))
  {
    hide LocalOk, DbOk, ChargedFor, Inserted;
    var inDoubt := sys.db.inDoubt;
    var settled := sys.db.(inDoubt := None);
    var after := Settled(env.tree, sys.db, commits);
    SameLogSameCharges(env.tree, sys.db, settled, sys.otherCalls, sys.otherActions);
    if commits && inDoubt.Some? && inDoubt.value.DoubtfulAppend? {
      DoubtfulAppendIsSigned(sys);
      InsertionIsCharged(env.tree, settled, inDoubt.value.row, inDoubt.value.author, sys.otherCalls, sys.otherActions);
    } else {
      SameLogSameCharges(env.tree, settled, after, sys.otherCalls, sys.otherActions);
    }
  }

  lemma ClosingKeepsCharges(env: Env, sys: System)
    requires Charges(env.tree, sys)
    ensures Charges(env.tree, sys.(db := ClosedTerminal(env.tree, sys.db)))
  {
    hide ModelCalls, Actions, Load, Closings;
    var db := sys.db;
    if ClosedTerminal(env.tree, db) != db {
      var p := ReadLog(env.tree.shown, db.rows).value;
      ClosingsAreFree(db.rows, db.authors, Closings(|p.proposals|, OpenActions(p).value));
    }
  }

  lemma OutsideKeepsCharges(env: Env, sys: System, event: Event)
    requires Charges(env.tree, sys)
    requires !event.Claim? && !event.Settle? && !event.CloseTerminal? && !event.ByAttempt?
    ensures Charges(env.tree, Next(env, sys, event))
  {
    hide ModelCalls, Actions;
  }

  lemma NextKeepsCharges(env: Env, sys: System, event: Event)
    requires Invariant(sys) && Charges(env.tree, sys)
    ensures Charges(env.tree, Next(env, sys, event))
  {
    hide Outside, Settled, ClosedTerminal, Move, DbOk, LocalOk, ModelCalls, Actions;
    match event
    case Claim(_) =>
    case Settle(commits) => SettleKeepsCharges(env, sys, commits);
    case CloseTerminal => ClosingKeepsCharges(env, sys);
    case ByAttempt(no, step) => if 1 <= no <= |sys.locals| { MoveKeepsCharges(env, sys, no, step); }
    case OthersCharge(_, _) => OutsideKeepsCharges(env, sys, event);
    case LeaseExpires => OutsideKeepsCharges(env, sys, event);
    case DeadlinePasses => OutsideKeepsCharges(env, sys, event);
    case Membership(_, _) => OutsideKeepsCharges(env, sys, event);
    case Requeue => OutsideKeepsCharges(env, sys, event);
    case Abandon => OutsideKeepsCharges(env, sys, event);
    case Cancel => OutsideKeepsCharges(env, sys, event);
  }

  /** Over every schedule, lost acknowledgements and repeated appends included, the
      tree of a configured Run is charged once for each proposal and Final in the log
      and once for each result an attempt appended, up to the limits; for any other
      Run it is not charged. */
  lemma {:induction false} ChargesFollowTheLog(env: Env, events: seq<Event>)
    ensures Charges(env.tree, Run(env, events))
    decreases |events|
  {
    hide Next;
    if events != [] {
      ChargesFollowTheLog(env, events[..|events| - 1]);
      EveryRunKeepsInvariant(env, events[..|events| - 1]);
      NextKeepsCharges(env, Run(env, events[..|events| - 1]), events[|events| - 1]);
    }
  }
}

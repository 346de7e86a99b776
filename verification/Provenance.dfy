/** Where every row of a log comes from: the controller built it from exactly the
    log before it, or a closing ended the Run. */
module Provenance {
  import opened Basics
  import opened Identities
  import opened Checkpoints
  import opened CheckpointPrefixes
  import opened CheckpointGrammar
  import opened PendingActions
  import opened Controller
  import opened RunStore
  import opened RunProtocol
  import opened RunInvariants
  import opened LogAccounting

  /** What a batch may ask for after the decisions in `p`. The first search of a
      grounded Run is taken whatever the batch limit. */
  predicate WithinBudget(limits: Limits, p: Prefix, actions: seq<Proposed>) {
    && (|actions| <= limits.actionBatchLimit || (|actions| == 1 && actions[0].name == "search_evidence"))
    && |actions| - BusinessOf(actions) <= 1
    && (forall i | 0 <= i < |actions| :: !RepeatsCompletedPlan(p, actions[i]))
    && (BusinessOf(actions) > 0 ==>
          BusinessActions(p.proposals) + BusinessOf(actions) <= limits.actionLimit &&
          BusinessDecisions(p.proposals) < limits.actionDecisionLimit)
  }

  /** What is advertised to the model: once the token budget is spent while other budget is
      left, only the tools kept for wrapping up, if the Run keeps any. */
  predicate OfferedFor(
    limits: Limits, p: Prefix, spent: bool, wrapUp: Option<set<string>>, advertised: set<string>, name: string) {
    name in advertised &&
    var left := BusinessActions(p.proposals) < limits.actionLimit &&
      BusinessDecisions(p.proposals) < limits.actionDecisionLimit;
    (left && spent && wrapUp.Some? ==> name in wrapUp.value)
  }

  /** With tools on offer a batch is allowed if and only if it is not empty, within the batch
      limit, names only what is offered, repeats no plan that was completed, changes
      the plan at most once, and what it asks for is left of actions, decisions and
      tokens. Nothing else is refused. */
  lemma AllowedExactlyWithinBudgets(
    limits: Limits, p: Prefix, spent: bool, wrapUp: Option<set<string>>, advertised: set<string>,
    actions: seq<Proposed>)
    requires OfferFor(limits, p, spent, wrapUp, advertised).definitions != {}
    ensures DecisionAllowed(limits, p, OfferFor(limits, p, spent, wrapUp, advertised), ProposalDecision(actions)) <==>
      0 < |actions| <= limits.actionBatchLimit &&
      (forall i | 0 <= i < |actions| :: OfferedFor(limits, p, spent, wrapUp, advertised, actions[i].name)) &&
      (forall i | 0 <= i < |actions| :: !RepeatsCompletedPlan(p, actions[i])) &&
      |actions| - BusinessOf(actions) <= 1 &&
      BusinessActions(p.proposals) + BusinessOf(actions) <= limits.actionLimit &&
      (BusinessOf(actions) > 0 ==>
        BusinessDecisions(p.proposals) < limits.actionDecisionLimit && (!spent || wrapUp.Some?))
  {
    hide RepeatsCompletedPlan, BusinessOf, BusinessActions, BusinessDecisions;
  }

  predicate Answers(p: Prefix, row: Row) {
    row.ResultRow? && |p.proposals| > 0 && row.no == |p.proposals| && 0 <= row.index < |Last(p).actions|
  }

  function Answered(p: Prefix, row: Row): Proposed
    requires Answers(p, row)
  {
    AsProposed(Last(p))[row.index]
  }

  /** An action closed without knowing its outcome: by a later attempt, if it may
      not be run again, or when the Run was over. */
  predicate Closed(env: Env, p: Prefix, row: Row, author: nat) {
    Answers(p, row) && row.result == INTERRUPTED && (author == 0 || Answered(p, row).name !in env.safe)
  }

  /** What a tool gave, recorded by the attempt that started it, within the byte
      limits as they stood. */
  predicate Executed(env: Env, p: Prefix, row: Row, author: nat, execs: seq<Exec>) {
    Answers(p, row) && author >= 1 && Exec(row.no, row.index, author) in execs &&
    env.gives(Answered(p, row), row.result) &&
    env.size(row) <= env.limits.actionResultBytes &&
    ResultBytes(env.size, p.proposals) + env.size(row) <= env.limits.actionResultsBytes
  }

  predicate Built(env: Env, before: seq<Row>, row: Row, author: nat, execs: seq<Exec>) {
    Load(before).Some? &&
    var p := Load(before).value;
    match row
    case ProposalRow(_, actions) =>
      author >= 1 && env.decides(p, ProposalDecision(actions)) && WithinBudget(env.limits, p, actions)
    case ResultRow(_, _, _) => Closed(env, p, row, author) || Executed(env, p, row, author, execs)
    case FinalRow(_, text) => author >= 1 && env.decides(p, FinalDecision(text))
    case SteeringRow(_, _, _) => author >= 1 && env.steers
  }

  ghost predicate LogBuilt(env: Env, rows: seq<Row>, authors: seq<nat>, execs: seq<Exec>) {
    |authors| == |rows| && forall k | 0 <= k < |rows| :: Built(env, rows[..k], rows[k], authors[k], execs)
  }

  ghost predicate QueueBuilt(env: Env, view: seq<Row>, queue: seq<Row>, no: nat, execs: seq<Exec>) {
    forall j | 0 <= j < |queue| :: Built(env, view + queue[..j], queue[j], no, execs)
  }

  ghost predicate StartedAreRecorded(l: Local, execs: seq<Exec>) {
    l.pc.Running? && Load(l.pc.seen).Some? ==>
      forall i :: i in l.pc.started ==> Exec(|Load(l.pc.seen).value.proposals|, i, l.attempt.no) in execs
  }

  ghost predicate LocalBuilds(env: Env, db: Db, l: Local, execs: seq<Exec>) {
    StartedAreRecorded(l, execs) &&
    (l.pc.Appending? && Owns(db, l) ==> QueueBuilt(env, l.pc.view, l.pc.queue, l.attempt.no, execs))
  }

  ghost predicate DbBuilt(env: Env, db: Db, execs: seq<Exec>) {
    LogBuilt(env, db.rows, db.authors, execs) &&
    (db.inDoubt.Some? && db.inDoubt.value.DoubtfulAppend? ==>
       Built(env, db.rows, db.inDoubt.value.row, db.inDoubt.value.author, execs))
  }

  ghost predicate Provenant(env: Env, sys: System) {
    DbBuilt(env, sys.db, sys.execs) && forall i | 0 <= i < |sys.locals| ::
      LocalBuilds(env, sys.db, sys.locals[i], sys.execs)
  }

  // ----- More starts of tools take nothing back -----

  lemma BuiltWithMore(env: Env, before: seq<Row>, row: Row, author: nat, execs: seq<Exec>, more: seq<Exec>)
    requires Built(env, before, row, author, execs)
    ensures Built(env, before, row, author, execs + more)
  {
    hide Load, WithinBudget, ResultBytes, Answered, Closed;
    assert forall e :: e in execs ==> e in execs + more;
  }

  lemma AllBuiltWithMore(env: Env, db: Db, l: Local, execs: seq<Exec>, more: seq<Exec>)
    ensures DbBuilt(env, db, execs) ==> DbBuilt(env, db, execs + more)
    ensures LocalBuilds(env, db, l, execs) ==> LocalBuilds(env, db, l, execs + more)
  {
    hide Built, Load;
    forall before, row, author | Built(env, before, row, author, execs)
      ensures Built(env, before, row, author, execs + more) {
      BuiltWithMore(env, before, row, author, execs, more);
    }
  }

  // ----- What is queued -----

  lemma OneRowBuilt(env: Env, view: seq<Row>, row: Row, no: nat, execs: seq<Exec>)
    requires Built(env, view, row, no, execs)
    ensures QueueBuilt(env, view, [row], no, execs)
  {
    hide Built;
    assert view + [row][..0] == view;
  }

  lemma QueueAdvances(env: Env, view: seq<Row>, queue: seq<Row>, no: nat, execs: seq<Exec>)
    requires queue != [] && QueueBuilt(env, view, queue, no, execs)
    ensures Built(env, view, queue[0], no, execs)
    ensures QueueBuilt(env, view + [queue[0]], queue[1..], no, execs)
  {
    hide Built;
    assert view + queue[..0] == view;
    forall j | 0 <= j < |queue[1..]| ensures Built(env, view + [queue[0]] + queue[1..][..j], queue[1..][j], no, execs) {
      assert view + queue[..j + 1] == view + [queue[0]] + queue[1..][..j];
    }
  }

  /** Part of a queue that fits leaves an open batch with the same actions. */
  lemma BatchBehindAnswers(env: Env, view: seq<Row>, queue: seq<Row>, j: nat)
    requires AllResults(queue) && Load(view + queue).Some? && Load(view).Some? && |Load(view).value.proposals| > 0
    requires j < |queue|
    ensures Load(view + queue[..j]).Some?
    ensures var p, q := Load(view).value, Load(view + queue[..j]).value;
      |q.proposals| == |p.proposals| && AsProposed(Last(q)) == AsProposed(Last(p)) &&
      ResultBytes(env.size, q.proposals) == ResultBytes(env.size, p.proposals) + RowBytes(env.size, queue[..j])
  {
    hide Load, ResultBytes, RowBytes, AsProposed;
    assert (view + queue)[..|view| + j] == view + queue[..j];
    AcceptedLogsArePrefixClosed(view + queue, |view| + j);
    AnswersOnlyAddBytes(env.size, view, queue[..j]);
  }

  lemma ClosingIsBuilt(env: Env, view: seq<Row>, queue: seq<Row>, j: nat, a: AcceptedAction, no: nat, execs: seq<Exec>)
    requires AllResults(queue) && Load(view + queue).Some? && Load(view).Some? && j < |queue|
    requires |Load(view).value.proposals| > 0 && a.index in Missing(Load(view).value)
    requires Last(Load(view).value).actions[a.index] == a
    requires queue[j] == PendingActions.Answer(|Load(view).value.proposals|, a, INTERRUPTED)
    requires no == 0 || a.name !in env.safe
    ensures Built(env, view + queue[..j], queue[j], no, execs)
  {
    hide Load, INTERRUPTED, ResultBytes, RowBytes, Executed;
    BatchBehindAnswers(env, view, queue, j);
    var p, q := Load(view).value, Load(view + queue[..j]).value;
    assert Answers(q, queue[j]) && Answered(q, queue[j]) == AsProposed(Last(p))[a.index];
  }

  /** Interrupted results for open actions count as built: by a later attempt for
      tools that may not be run again, by nobody (0) once the Run is over. */
  lemma ClosingsAreBuilt(env: Env, view: seq<Row>, actions: seq<AcceptedAction>, no: nat, execs: seq<Exec>)
    requires Load(view).Some? && OpenActions(Load(view).value).Some?
    requires forall a :: a in actions ==> a in OpenActions(Load(view).value).value && (no == 0 || a.name !in env.safe)
    requires Load(view + Closings(|Load(view).value.proposals|, actions)).Some?
    ensures QueueBuilt(env, view, Closings(|Load(view).value.proposals|, actions), no, execs)
  {
    hide Load, INTERRUPTED, Built, Missing;
    var p := Load(view).value;
    LoadHasShape(view);
    PendingIsMissing(p);
    var queue := Closings(|p.proposals|, actions);
    forall j | 0 <= j < |queue| ensures Built(env, view + queue[..j], queue[j], no, execs) {
      assert actions[j] in actions;
      ClosingIsBuilt(env, view, queue, j, actions[j], no, execs);
    }
  }

  lemma SelectedAreBuilt(env: Env, l: Local, outcomes: seq<ToolOutcome>, execs: seq<Exec>)
    requires l.pc.Running? && Load(l.pc.seen).Some? && Todo(Load(l.pc.seen).value, l.pc.todo) && l.attempt.no >= 1
    requires Possible(env, Load(l.pc.seen).value, l.pc.todo, l.pc.started, outcomes) && StartedAreRecorded(l, execs)
    ensures var p := Load(l.pc.seen).value;
      var s := Select(env.limits, env.size, ResultBytes(env.size, p.proposals), |p.proposals|, l.pc.todo, outcomes);
      QueueBuilt(env, l.pc.seen, s.rows, l.attempt.no, execs)
  {
    hide Load, INTERRUPTED, ResultBytes, RowBytes, Closed, WellFormed, Missing, Select;
    var p := Load(l.pc.seen).value;
    var used := ResultBytes(env.size, p.proposals);
    var rows := Select(env.limits, env.size, used, |p.proposals|, l.pc.todo, outcomes).rows;
    SelectionFits(env, l.pc.seen, l.pc.todo, outcomes);
    SelectedWithinLimits(env.limits, env.size, used, |p.proposals|, l.pc.todo, outcomes);
    forall j | 0 <= j < |rows| ensures rows[j].ResultRow? {
      assert rows[j] in rows;
    }
    forall j | 0 <= j < |rows| ensures Built(env, l.pc.seen + rows[..j], rows[j], l.attempt.no, execs) {
      BatchBehindAnswers(env, l.pc.seen, rows, j);
      RowBytesGrow(env.size, rows, j);
      assert rows[j] in rows;
      assert FromOutcome(|p.proposals|, l.pc.todo, outcomes, rows[j]);
    }
  }

  lemma SteeringIsBuilt(env: Env, view: seq<Row>, messages: seq<Message>, no: nat, execs: seq<Exec>)
    requires Load(view).Some? && Load(view + SteeringQueue(Load(view).value.decisions + 1, messages)).Some?
    requires env.steers && no >= 1
    ensures QueueBuilt(env, view, SteeringQueue(Load(view).value.decisions + 1, messages), no, execs)
  {
    hide Load, WellFormed, SteeringQueue, INTERRUPTED;
    var queue := SteeringQueue(Load(view).value.decisions + 1, messages);
    forall j | 0 <= j < |queue| ensures Built(env, view + queue[..j], queue[j], no, execs) {
      assert (view + queue)[..|view| + j] == view + queue[..j];
      AcceptedLogsArePrefixClosed(view + queue, |view| + j);
    }
  }

  // ----- Steps of an attempt -----

  ghost predicate MoveBuilds(env: Env, l: Local, m: Moved, execs: seq<Exec>) {
    DbBuilt(env, m.db, execs + m.execs) &&
    LocalBuilds(env, m.db, l.(boundary := m.boundary, pc := m.pc), execs + m.execs)
  }

  lemma LoadedBuilds(env: Env, db: Db, l: Local, execs: seq<Exec>)
    requires DbOk(db) && l.pc.Top? && db.inDoubt.None? && DbBuilt(env, db, execs) && l.attempt.no >= 1
    ensures MoveBuilds(env, l, Loaded(env, db, l), execs)
  {
    hide Load, DbBuilt, Missing, Closings, Unsafe, Chosen;
    assert execs + [] == execs;
    if CheckAuthority(db, l.attempt) == Held && ReadLog(env.tree.shown, db.rows).Some? {
      var p := Load(db.rows).value;
      LoadHasShape(db.rows);
      if p.final.None? && OpenActions(p).Some? {
        var pending := OpenActions(p).value;
        PendingIncreases(p);
        UnsafeKeepOrder(env.safe, pending);
        ClosingsMayFollow(db.rows, Unsafe(env.safe, pending));
        ClosingsAreBuilt(env, db.rows, Unsafe(env.safe, pending), l.attempt.no, execs);
      }
    }
  }

  lemma SteeredBuilds(env: Env, db: Db, l: Local, messages: seq<Message>, execs: seq<Exec>)
    requires DbOk(db) && LocalOk(db, l) && l.pc.Steerable? && DbBuilt(env, db, execs) && LocalBuilds(env, db, l, execs)
    requires l.attempt.no >= 1
    ensures MoveBuilds(env, l, Steered(env, db, l, messages), execs)
  {
    hide Load, DbBuilt, SteeringQueue, HasIncompleteProposal, Undelivered;
    assert execs + [] == execs;
    var m := Steered(env, db, l, messages);
    if Owns(db, l) && m.pc.Appending? {
      SteeredIsOk(env, db, l, messages);
      SteeringIsBuilt(env, l.pc.seen, messages, l.attempt.no, execs);
    }
  }

  /** A decision that passed validation keeps the budgets. */
  lemma AllowedIsWithinBudget(
    env: Env, p: Prefix, offer: Offer, spent: bool, wrapUp: Option<set<string>>, advertised: set<string>,
    actions: seq<Proposed>)
    requires offer == OfferFor(env.limits, p, spent, wrapUp, advertised) && offer.definitions != {}
    requires DecisionAllowed(env.limits, p, offer, ProposalDecision(actions))
    ensures WithinBudget(env.limits, p, actions)
  {
  }

  /** The contextualized search skips validation, but tools are advertised only
      while business actions are left. */
  lemma SearchIsWithinBudget(
    env: Env, p: Prefix, offer: Offer, spent: bool, wrapUp: Option<set<string>>, advertised: set<string>,
    search: Proposed)
    requires offer == OfferFor(env.limits, p, spent, wrapUp, advertised) && Advertisable(offer, advertised)
    requires "search_evidence" in offer.definitions && search.name == "search_evidence"
    ensures WithinBudget(env.limits, p, [search])
  {
    assert !IsPlanMutationName("search_evidence");
    assert "search_evidence" in advertised;
    assert [search][..0] == [];
    assert BusinessOf([search]) == 1;
  }

  lemma ProposesBuilds(env: Env, db: Db, l: Local, row: Row, execs: seq<Exec>)
    requires l.pc.Deciding? && DbBuilt(env, db, execs) && Built(env, l.pc.seen, row, l.attempt.no, execs)
    ensures MoveBuilds(env, l, Proposes(db, l, row), execs)
  {
    hide DbBuilt, Built, WellFormed;
    assert execs + [] == execs;
    OneRowBuilt(env, l.pc.seen, row, l.attempt.no, execs);
    assert [row][1..] == [];
  }

  lemma NotQueuedBuilds(env: Env, db: Db, l: Local, m: Moved, execs: seq<Exec>)
    requires DbBuilt(env, db, execs) && m.db == db && m.execs == [] && !m.pc.Running? && !m.pc.Appending?
    ensures MoveBuilds(env, l, m, execs)
  {
    hide DbBuilt;
    assert execs + [] == execs;
  }

  lemma DecidedBuilds(env: Env, db: Db, l: Local, step: Step, execs: seq<Exec>)
    requires l.pc.Deciding? && step.Decide? && DbBuilt(env, db, execs) && l.attempt.no >= 1
    ensures MoveBuilds(env, l, Decided(env, db, l, step), execs)
  {
    hide Load, DbBuilt, MoveBuilds, DecisionAllowed, WithinBudget, OfferFor, Advertisable, CheckAuthority, Proposes;
    var m := Decided(env, db, l, step);
    if Load(l.pc.seen).Some? && step.answer.Accepted? {
      var p := Load(l.pc.seen).value;
      var offer := OfferFor(env.limits, p, step.spent, step.wrapUp, step.advertised);
      var decision := step.answer.decision;
      if decision.FinalDecision? {
        if env.decides(p, FinalDecision(step.prepared)) {
          ProposesBuilds(env, db, l, FinalRow(p.decisions + 1, step.prepared), execs);
        }
      } else if env.decides(p, decision) && offer.definitions != {} && DecisionAllowed(env.limits, p, offer, decision) {
        AllowedIsWithinBudget(env, p, offer, step.spent, step.wrapUp, step.advertised, decision.actions);
        ProposesBuilds(env, db, l, ProposalRow(p.decisions + 1, decision.actions), execs);
      }
    }
    if m.db == db && m.execs == [] && !m.pc.Running? && !m.pc.Appending? {
      NotQueuedBuilds(env, db, l, m, execs);
    }
  }

  lemma ContextualizedBuilds(env: Env, db: Db, l: Local, step: Step, execs: seq<Exec>)
    requires l.pc.Deciding? && step.Contextualize? && DbBuilt(env, db, execs) && l.attempt.no >= 1
    ensures MoveBuilds(env, l, Contextualized(env, db, l, step), execs)
  {
    hide Load, DbBuilt, MoveBuilds, WithinBudget, OfferFor, Advertisable, CheckAuthority, Proposes;
    var m := Contextualized(env, db, l, step);
    if Load(l.pc.seen).Some? {
      var p := Load(l.pc.seen).value;
      var offer := OfferFor(env.limits, p, step.spent, step.wrapUp, step.advertised);
      if env.decides(p, ProposalDecision([step.search])) && Advertisable(offer, step.advertised) &&
         "search_evidence" in offer.definitions && step.search.name == "search_evidence" {
        SearchIsWithinBudget(env, p, offer, step.spent, step.wrapUp, step.advertised, step.search);
        ProposesBuilds(env, db, l, ProposalRow(p.decisions + 1, [step.search]), execs);
      }
    }
    if m.db == db && m.execs == [] && !m.pc.Running? && !m.pc.Appending? {
      NotQueuedBuilds(env, db, l, m, execs);
    }
  }

  lemma StartsBuilds(env: Env, db: Db, l: Local, index: int, execs: seq<Exec>)
    requires l.pc.Running? && DbBuilt(env, db, execs) && LocalBuilds(env, db, l, execs)
    ensures MoveBuilds(env, l, Starts(db, l, index), execs)
  {
    hide Load, DbBuilt;
    var m := Starts(db, l, index);
    AllBuiltWithMore(env, db, l, execs, m.execs);
  }

  lemma FinishedBuilds(env: Env, db: Db, l: Local, outcomes: seq<ToolOutcome>, execs: seq<Exec>)
    requires l.pc.Running? && LocalOk(db, l) && DbBuilt(env, db, execs) && LocalBuilds(env, db, l, execs)
    requires l.attempt.no >= 1
    ensures MoveBuilds(env, l, Finished(env, db, l, outcomes), execs)
  {
    hide Load, DbBuilt, Possible, Select, ResultBytes, Todo, QueueBuilt;
    assert execs + [] == execs;
    if Load(l.pc.seen).Some? && Possible(env, Load(l.pc.seen).value, l.pc.todo, l.pc.started, outcomes) {
      SelectedAreBuilt(env, l, outcomes, execs);
    }
  }

  lemma LogGrowsBuilt(env: Env, rows: seq<Row>, authors: seq<nat>, row: Row, author: nat, execs: seq<Exec>)
    requires LogBuilt(env, rows, authors, execs) && Built(env, rows, row, author, execs)
    ensures LogBuilt(env, rows + [row], authors + [author], execs)
  {
    hide Built;
    forall k | 0 <= k < |rows + [row]|
      ensures Built(env, (rows + [row])[..k], (rows + [row])[k], (authors + [author])[k], execs) {
      assert (rows + [row])[..k] == rows[..k];
      assert k == |rows| ==> rows[..k] == rows;
    }
  }

  lemma {:induction false} LogGrowsByQueue(
    env: Env, rows: seq<Row>, authors: seq<nat>, queue: seq<Row>, no: nat, execs: seq<Exec>)
    requires LogBuilt(env, rows, authors, execs) && QueueBuilt(env, rows, queue, no, execs)
    ensures LogBuilt(env, rows + queue, authors + seq(|queue|, i => no), execs)
    decreases |queue|
  {
    hide Built, LogBuilt, QueueBuilt;
    if queue == [] {
      assert rows + queue == rows && authors + seq(|queue|, i => no) == authors;
    } else {
      QueueAdvances(env, rows, queue, no, execs);
      LogGrowsBuilt(env, rows, authors, queue[0], no, execs);
      LogGrowsByQueue(env, rows + [queue[0]], authors + [no], queue[1..], no, execs);
      assert rows + [queue[0]] + queue[1..] == rows + queue;
      assert authors + [no] + seq(|queue[1..]|, i => no) == authors + seq(|queue|, i => no);
    }
  }

  lemma AdvancedBuilds(env: Env, db: Db, l: Local, execs: seq<Exec>)
    requires l.pc.Appending? && l.pc.queue != [] && DbBuilt(env, db, execs)
    requires Owns(db, l) ==> QueueBuilt(env, l.pc.view, l.pc.queue, l.attempt.no, execs)
    ensures MoveBuilds(env, l, Advanced(db, l), execs)
  {
    hide DbBuilt, QueueBuilt;
    assert execs + [] == execs;
    if Owns(db, l) {
      QueueAdvances(env, l.pc.view, l.pc.queue, l.attempt.no, execs);
    }
  }

  lemma SentAppendBuilds(env: Env, db: Db, l: Local, commit: Commit, execs: seq<Exec>)
    requires DbOk(db) && LocalOk(db, l) && l.pc.Appending? && DbBuilt(env, db, execs) && LocalBuilds(env, db, l, execs)
    ensures MoveBuilds(env, l, SentAppend(env, db, l, commit), execs)
  {
    hide Load, AppendTx, Advanced, Built, LogBuilt, QueueBuilt;
    assert execs + [] == execs;
    if db.inDoubt.None? && !l.pc.checking {
      AdvancedBuilds(env, db, l, execs);
      if CheckAuthority(db, l.attempt) == Held {
        HolderIsNeverRefused(env.tree, db, l);
        var row := l.pc.queue[0];
        if row !in db.rows {
          QueueAdvances(env, l.pc.view, l.pc.queue, l.attempt.no, execs);
          LogGrowsBuilt(env, db.rows, db.authors, row, l.attempt.no, execs);
          AdvancedBuilds(env, Inserted(env.tree, db, row, l.attempt.no), l, execs);
        }
      } else {
        RefusedWithoutAuthority(env.tree, db, l);
      }
    }
  }

  lemma CheckedAppendBuilds(env: Env, db: Db, l: Local, readable: bool, execs: seq<Exec>)
    requires l.pc.Appending? && l.pc.queue != [] && DbBuilt(env, db, execs) && LocalBuilds(env, db, l, execs)
    ensures MoveBuilds(env, l, CheckedAppend(env, db, l, readable), execs)
  {
    hide Load, Reconcile, DbBuilt, QueueBuilt, Advanced;
    assert execs + [] == execs;
    AdvancedBuilds(env, db, l, execs);
  }

  lemma OnlyStatusMoves(env: Env, l: Local, m: Moved, db: Db, execs: seq<Exec>)
    requires DbBuilt(env, db, execs) && m.db.rows == db.rows && m.db.authors == db.authors && m.execs == []
    requires m.db.inDoubt.Some? && m.db.inDoubt.value.DoubtfulAppend? ==> m.db.inDoubt == db.inDoubt
    requires !m.pc.Running? && !m.pc.Appending?
    ensures MoveBuilds(env, l, m, execs)
  {
    hide LogBuilt, Built;
    assert execs + [] == execs;
  }

  lemma FailBuilds(env: Env, db: Db, l: Local, commit: Commit, execs: seq<Exec>)
    requires DbBuilt(env, db, execs)
    ensures MoveBuilds(env, l, SentFail(db, l, commit), execs) || SentFail(db, l, commit) == Stay(db, l)
  {
    hide DbBuilt, MoveBuilds;
    var m := SentFail(db, l, commit);
    if m != Stay(db, l) {
      OnlyStatusMoves(env, l, m, db, execs);
    }
  }

  lemma PublishBuilds(env: Env, db: Db, l: Local, commit: Commit, execs: seq<Exec>)
    requires l.pc.Publishing? && DbBuilt(env, db, execs)
    ensures MoveBuilds(env, l, SentPublish(env, db, l, commit), execs)
  {
    hide DbBuilt, MoveBuilds, ReadLog, WellFormed, CheckAuthority;
    OnlyStatusMoves(env, l, SentPublish(env, db, l, commit), db, execs);
  }

  lemma CheckedPublishBuilds(env: Env, db: Db, l: Local, readable: bool, execs: seq<Exec>)
    requires l.pc.Publishing? && DbBuilt(env, db, execs)
    ensures MoveBuilds(env, l, CheckedPublish(db, l, readable), execs)
  {
    hide DbBuilt, MoveBuilds, ReconcilePublication;
    OnlyStatusMoves(env, l, CheckedPublish(db, l, readable), db, execs);
  }

  lemma MoveKeepsProvenance(env: Env, db: Db, l: Local, step: Step, execs: seq<Exec>)
    requires DbOk(db) && LocalOk(db, l) && DbBuilt(env, db, execs) && LocalBuilds(env, db, l, execs)
    requires l.attempt.no >= 1
    ensures MoveBuilds(env, l, Move(env, db, l, step), execs)
  {
    hide DbOk, LocalOk, DbBuilt, LocalBuilds, MoveBuilds, Loaded, Steered, Decided, Contextualized, Finished;
    hide Starts, SentAppend, CheckedAppend, SentFail, SentPublish, CheckedPublish;
    StayBuilds(env, db, l, execs);
    match step
    case Crash => NotQueuedBuilds(env, db, l, Move(env, db, l, step), execs);
    case LoadLog => if l.pc.Top? && db.inDoubt.None? { LoadedBuilds(env, db, l, execs); }
    case ReadSteering(messages) => if l.pc.Steerable? { SteeredBuilds(env, db, l, messages, execs); }
    case Decide(_, _, _, _, _) => if l.pc.Deciding? { DecidedBuilds(env, db, l, step, execs); }
    case Contextualize(_, _, _, _) => if l.pc.Deciding? { ContextualizedBuilds(env, db, l, step, execs); }
    case StartTool(index) => if l.pc.Running? { StartsBuilds(env, db, l, index, execs); }
    case FinishTools(outcomes) => if l.pc.Running? { FinishedBuilds(env, db, l, outcomes, execs); }
    case SendAppend(commit) => if l.pc.Appending? && l.pc.queue != [] { SentAppendBuilds(env, db, l, commit, execs); }
    case CheckAppend(readable) =>
      if l.pc.Appending? && l.pc.queue != [] { CheckedAppendBuilds(env, db, l, readable, execs); }
    case SendFail(commit) => FailBuilds(env, db, l, commit, execs);
    case SendPublish(commit) => if l.pc.Publishing? { PublishBuilds(env, db, l, commit, execs); }
    case CheckPublish(readable) => if l.pc.Publishing? { CheckedPublishBuilds(env, db, l, readable, execs); }
  }

  lemma StayBuilds(env: Env, db: Db, l: Local, execs: seq<Exec>)
    requires DbBuilt(env, db, execs) && LocalBuilds(env, db, l, execs)
    ensures MoveBuilds(env, l, Stay(db, l), execs)
  {
    hide DbBuilt, LocalBuilds;
    assert execs + [] == execs;
    assert l.(boundary := l.boundary, pc := l.pc) == l;
  }

  // ----- The whole system -----

  /** Losing the lease and the steps of others take nothing from an attempt. */
  lemma BuildsElsewhere(env: Env, db: Db, after: Db, l: Local, execs: seq<Exec>, more: seq<Exec>)
    requires LocalBuilds(env, db, l, execs) && (Owns(after, l) ==> Owns(db, l))
    ensures LocalBuilds(env, after, l, execs + more)
  {
    hide QueueBuilt, Load;
    AllBuiltWithMore(env, db, l, execs, more);
  }

  lemma ByAttemptKeepsProvenance(env: Env, sys: System, no: nat, step: Step)
    requires Invariant(sys) && Provenant(env, sys) && 1 <= no <= |sys.locals|
    ensures Provenant(env, Next(env, sys, ByAttempt(no, step)))
  {
    hide DbOk, LocalOk, Owns, Move, DbBuilt, LocalBuilds;
    var l := sys.locals[no - 1];
    var m := Move(env, sys.db, l, step);
    var after := Next(env, sys, ByAttempt(no, step));
    MoveKeepsProvenance(env, sys.db, l, step, sys.execs);
    MoveIsOk(env, sys.db, l, step);
    forall i | 0 <= i < |after.locals| ensures LocalBuilds(env, after.db, after.locals[i], after.execs) {
      if i != no - 1 {
        OwnersOnlyLeave(sys.db, l, m, sys.locals[i]);
        BuildsElsewhere(env, sys.db, after.db, sys.locals[i], sys.execs, m.execs);
      }
    }
  }

  lemma OwnersOnlyLeave(db: Db, l: Local, m: Moved, other: Local)
    requires MoveOk(db, l, m)
    ensures Owns(m.db, other) ==> Owns(db, other)
  {
  }

  lemma DbMovesKeepProvenance(env: Env, sys: System, db: Db)
    requires Provenant(env, sys) && DbBuilt(env, db, sys.execs)
    requires db.attemptNo == sys.db.attemptNo && (db.lease.Some? ==> sys.db.lease.Some?)
    ensures forall calls, actions :: Provenant(env, sys.(db := db, otherCalls := calls, otherActions := actions))
  {
    hide DbBuilt, LocalBuilds;
    forall i | 0 <= i < |sys.locals| ensures LocalBuilds(env, db, sys.locals[i], sys.execs) {
      BuildsElsewhere(env, sys.db, db, sys.locals[i], sys.execs, []);
      assert sys.execs + [] == sys.execs;
    }
  }

  lemma ClosedTerminalBuilt(env: Env, db: Db, execs: seq<Exec>)
    requires DbOk(db) && DbBuilt(env, db, execs)
    ensures DbBuilt(env, ClosedTerminal(env.tree, db), execs)
  {
    hide Load, Closings, Built, QueueBuilt;
    if ClosedTerminal(env.tree, db) != db {
      var p := Load(db.rows).value;
      var closings := Closings(|p.proposals|, OpenActions(p).value);
      TerminalClosingsMayFollow(db.rows);
      ClosingsAreBuilt(env, db.rows, OpenActions(p).value, 0, execs);
      LogGrowsByQueue(env, db.rows, db.authors, closings, 0, execs);
      assert Zeros(|closings|) == seq(|closings|, i => 0);
    }
  }

  lemma SettledBuilt(env: Env, db: Db, commits: bool, execs: seq<Exec>)
    requires DbBuilt(env, db, execs)
    ensures DbBuilt(env, Settled(env.tree, db, commits), execs)
    ensures Settled(env.tree, db, commits).attemptNo == db.attemptNo
    ensures Settled(env.tree, db, commits).lease.Some? ==> db.lease.Some?
  {
    hide LogBuilt, Built;
    if commits && db.inDoubt.Some? && db.inDoubt.value.DoubtfulAppend? {
      LogGrowsBuilt(env, db.rows, db.authors, db.inDoubt.value.row, db.inDoubt.value.author, execs);
    }
  }

  lemma ClaimKeepsProvenance(env: Env, sys: System, token: nat)
    requires Invariant(sys) && Provenant(env, sys)
    ensures Provenant(env, WithClaim(sys, token))
  {
    hide LogBuilt, Built, QueueBuilt, Load, DbOk, LocalOk;
    var after := WithClaim(sys, token);
    if after != sys {
      forall i | 0 <= i < |sys.locals| ensures LocalBuilds(env, after.db, sys.locals[i], sys.execs) {
        BuildsElsewhere(env, sys.db, after.db, sys.locals[i], sys.execs, []);
        assert sys.execs + [] == sys.execs;
      }
    }
  }

  lemma OutsideKeepsProvenance(env: Env, sys: System, event: Event)
    requires Invariant(sys) && Provenant(env, sys)
    ensures var db := Outside(env.tree, sys.db, event);
      Provenant(env, sys.(db := db)) && forall calls, actions ::
        Provenant(env, sys.(db := db, otherCalls := calls, otherActions := actions))
  {
    hide LogBuilt, Built, Outside, DbOk, LocalOk, LocalBuilds;
    var db := Outside(env.tree, sys.db, event);
    OutsideIsOk(env.tree, sys.db, event);
    DbMovesKeepProvenance(env, sys, db);
    assert sys.(db := db) == sys.(db := db, otherCalls := sys.otherCalls, otherActions := sys.otherActions);
  }

  lemma NextKeepsProvenance(env: Env, sys: System, event: Event)
    requires Invariant(sys) && Provenant(env, sys)
    ensures Provenant(env, Next(env, sys, event))
  {
    hide Provenant, DbOk, LocalOk, Outside, WithClaim, Settled, ClosedTerminal, Move;
    match event
    case Claim(token) => ClaimKeepsProvenance(env, sys, token);
    case Settle(commits) => SettleKeepsProvenance(env, sys, commits);
    case CloseTerminal => ClosingKeepsProvenance(env, sys);
    case ByAttempt(no, step) => if 1 <= no <= |sys.locals| { ByAttemptKeepsProvenance(env, sys, no, step); }
    case OthersCharge(_, _) => OutsideKeepsProvenance(env, sys, event);
    case LeaseExpires => OutsideKeepsProvenance(env, sys, event);
    case DeadlinePasses => OutsideKeepsProvenance(env, sys, event);
    case Membership(_, _) => OutsideKeepsProvenance(env, sys, event);
    case Requeue => OutsideKeepsProvenance(env, sys, event);
    case Abandon => OutsideKeepsProvenance(env, sys, event);
    case Cancel => OutsideKeepsProvenance(env, sys, event);
  }

  lemma SettleKeepsProvenance(env: Env, sys: System, commits: bool)
    requires Invariant(sys) && Provenant(env, sys)
    ensures Provenant(env, sys.(db := Settled(env.tree, sys.db, commits)))
  {
    hide DbBuilt, LocalBuilds, DbOk, LocalOk, Settled;
    var db := Settled(env.tree, sys.db, commits);
    SettledBuilt(env, sys.db, commits, sys.execs);
    DbMovesKeepProvenance(env, sys, db);
    assert sys.(db := db) == sys.(db := db, otherCalls := sys.otherCalls, otherActions := sys.otherActions);
  }

  lemma ClosingKeepsProvenance(env: Env, sys: System)
    requires Invariant(sys) && Provenant(env, sys)
    ensures Provenant(env, sys.(db := ClosedTerminal(env.tree, sys.db)))
  {
    hide DbBuilt, LocalBuilds, DbOk, LocalOk, ClosedTerminal;
    var db := ClosedTerminal(env.tree, sys.db);
    ClosedTerminalIsOk(env.tree, sys.db);
    ClosedTerminalBuilt(env, sys.db, sys.execs);
    DbMovesKeepProvenance(env, sys, db);
    assert sys.(db := db) == sys.(db := db, otherCalls := sys.otherCalls, otherActions := sys.otherActions);
  }

  /** In every reachable state each row of the log was built from the log before it. */
  lemma {:induction false} EveryRowIsBuilt(env: Env, events: seq<Event>)
    ensures Provenant(env, Run(env, events))
    decreases |events|
  {
    hide Next, Built, LocalBuilds, Invariant;
    if events != [] {
      EveryRowIsBuilt(env, events[..|events| - 1]);
      EveryRunKeepsInvariant(env, events[..|events| - 1]);
      NextKeepsProvenance(env, Run(env, events[..|events| - 1]), events[|events| - 1]);
    }
  }
}

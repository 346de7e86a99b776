/** Which open actions an attempt runs, and which it may run beside each other. */
module ToolChoice {
  import opened Basics
  import opened Checkpoints
  import opened CheckpointPrefixes
  import opened CheckpointGrammar
  import opened PendingActions
  import opened Controller
  import opened RunStore
  import opened RunProtocol
  import opened RunInvariants
  import Budgets
  import LaneGrowth

  // ----- What is to be run -----

  /** Several actions of the last batch are open and all their tools may run beside each
      other. */
  ghost predicate MayRunBeside(env: Env, p: Prefix)
    requires |p.proposals| > 0
  {
    (exists i, j :: i in Missing(p) && j in Missing(p) && i != j) &&
    forall i | i in Missing(p) :: Last(p).actions[i].name in env.parallel
  }

  /** All open actions if they may run beside each other, otherwise the first one. */
  ghost predicate RightToRun(env: Env, p: Prefix, todo: seq<int>) {
    |p.proposals| > 0 && todo != [] && (forall i | 0 <= i < |todo| :: todo[i] in Missing(p)) &&
    (forall i, j | 0 <= i < j < |todo| :: todo[i] < todo[j]) &&
    (if MayRunBeside(env, p) then forall i | i in Missing(p) :: i in todo
     else |todo| == 1 && forall i | i in Missing(p) :: todo[0] <= i)
  }

  lemma OpenIsMissing(p: Prefix, i: int)
    requires Shape(p) && |p.proposals| > 0 && i in Missing(p)
    ensures Last(p).actions[i].index == i && Last(p).actions[i] in PendingOf(Last(p).actions)
  {
    assert ProposalShape(Last(p), |p.proposals|);
  }

  lemma ChosenIsRight(env: Env, p: Prefix, pending: seq<AcceptedAction>)
    requires Shape(p) && OpenActions(p) == Some(pending)
    ensures RightToRun(env, p, Chosen(env, pending))
  {
    hide Shape, Missing, PendingOf, MayRunBeside;
    PendingIncreases(p);
    PendingIsMissing(p);
    var todo := Chosen(env, pending);
    forall i | 0 <= i < |pending|
      ensures pending[i].index in Missing(p) && Last(p).actions[pending[i].index] == pending[i] {
      assert pending[i] in pending;
    }
    forall i | i in Missing(p) ensures exists k :: 0 <= k < |pending| && pending[k].index == i {
      OpenIsMissing(p, i);
      var k :| 0 <= k < |pending| && pending[k] == Last(p).actions[i];
    }
    if |pending| > 1 {
      assert pending[0].index in Missing(p) && pending[1].index in Missing(p) && pending[0].index != pending[1].index;
      SeveralAreParallel(env, p, pending);
    } else {
      OnlyOneIsMissing(env, p, pending);
    }
  }

  lemma SeveralAreParallel(env: Env, p: Prefix, pending: seq<AcceptedAction>)
    requires |p.proposals| > 0 && |pending| > 1
    requires forall i | 0 <= i < |pending| ::
      pending[i].index in Missing(p) && Last(p).actions[pending[i].index] == pending[i]
    requires forall i | i in Missing(p) :: exists k :: 0 <= k < |pending| && pending[k].index == i
    requires Increasing(pending)
    ensures MayRunBeside(env, p) <==> forall i | 0 <= i < |pending| :: pending[i].name in env.parallel
  {
    hide Missing;
    assert pending[0].index != pending[1].index;
  }

  lemma OnlyOneIsMissing(env: Env, p: Prefix, pending: seq<AcceptedAction>)
    requires |p.proposals| > 0 && |pending| == 1
    requires forall i | i in Missing(p) :: exists k :: 0 <= k < |pending| && pending[k].index == i
    ensures !MayRunBeside(env, p) && forall i, j | i in Missing(p) && j in Missing(p) :: i == j
  {
    hide Missing;
  }

  // ----- Every attempt that stands at its tools -----

  ghost predicate RunsRight(env: Env, l: Local) {
    l.pc.Running? ==> Load(l.pc.seen).Some? && RightToRun(env, Load(l.pc.seen).value, l.pc.todo)
  }

  lemma LoadedRunsRight(env: Env, db: Db, l: Local)
    requires Loaded(env, db, l).pc.Running?
    ensures var m := Loaded(env, db, l);
      m.pc.seen == db.rows && m.pc.started == {} && RunsRight(env, l.(pc := m.pc))
  {
    hide Load, RightToRun, Chosen, Unsafe, Closings;
    LoadHasShape(db.rows);
    ChosenIsRight(env, Load(db.rows).value, OpenActions(Load(db.rows).value).value);
  }

  /** Only loading the log leads to the tools; starting one changes nothing else. */
  lemma WhoComesToTools(env: Env, db: Db, l: Local, step: Step)
    requires Move(env, db, l, step).pc.Running?
    ensures var pc := Move(env, db, l, step).pc;
      (l.pc.Running? && pc.seen == l.pc.seen && pc.todo == l.pc.todo && l.pc.started <= pc.started) ||
      (step.LoadLog? && l.pc.Top? && pc == Loaded(env, db, l).pc)
  {
    hide Load, ReadLog, CheckAuthority, OpenActions, Possible, Select, ResultBytes, Undelivered, SteeringQueue;
    hide DecisionAllowed, OfferFor, Advertisable, WellFormed, FailTx, PublishTx, ReconcilePublication, Closings, Unsafe;
    hide Chosen, AppendTx, Reconcile, Loaded;
  }

  lemma MoveRunsRight(env: Env, db: Db, l: Local, step: Step)
    requires RunsRight(env, l)
    ensures RunsRight(env, l.(pc := Move(env, db, l, step).pc))
  {
    hide Move, Load, RightToRun, Loaded;
    if Move(env, db, l, step).pc.Running? {
      WhoComesToTools(env, db, l, step);
      if !l.pc.Running? {
        LoadedRunsRight(env, db, l);
      }
    }
  }

  ghost predicate AllRunRight(env: Env, sys: System) {
    forall i | 0 <= i < |sys.locals| :: RunsRight(env, sys.locals[i])
  }

  lemma NextRunsRight(env: Env, sys: System, event: Event)
    requires AllRunRight(env, sys)
    ensures AllRunRight(env, Next(env, sys, event))
  {
    hide Move, RunsRight, Outside, Settled, ClosedTerminal;
    if event.ByAttempt? && 1 <= event.no <= |sys.locals| {
      var l := sys.locals[event.no - 1];
      MoveRunsRight(env, sys.db, l, event.step);
      RightWhateverTheBoundary(env, l.(pc := Move(env, sys.db, l, event.step).pc),
        Move(env, sys.db, l, event.step).boundary);
    }
    if event.Claim? {
      NewcomersRunNothing(env, Attempt(sys.db.attemptNo + 1, event.token));
    }
  }

  lemma RightWhateverTheBoundary(env: Env, l: Local, boundary: bool)
    requires RunsRight(env, l)
    ensures RunsRight(env, l.(boundary := boundary))
  {
    hide Load, RightToRun;
  }

  lemma NewcomersRunNothing(env: Env, a: Attempt)
    ensures RunsRight(env, Local(a, true, Top))
  {
  }

  /** In every reachable state each attempt that stands at its tools has the right ones to
      run: all open actions of the batch, in order, if there are several and all of
      them are parallel, and otherwise exactly the open action with the lowest
      index. */
  lemma {:induction false} EveryAttemptRunsRight(env: Env, events: seq<Event>)
    ensures AllRunRight(env, Run(env, events))
    decreases |events|
  {
    hide Next, RunsRight;
    if events != [] {
      EveryAttemptRunsRight(env, events[..|events| - 1]);
      NextRunsRight(env, Run(env, events[..|events| - 1]), events[|events| - 1]);
    }
  }

  /** An attempt that may run more than one action has only parallel tools to run. */
  lemma SeveralToRunAreParallel(env: Env, events: seq<Event>, no: nat, i: nat, j: nat)
    requires 1 <= no <= |Run(env, events).locals| && Run(env, events).locals[no - 1].pc.Running?
    requires i < j < |Run(env, events).locals[no - 1].pc.todo|
    ensures var pc := Run(env, events).locals[no - 1].pc;
      Load(pc.seen).Some? && |Load(pc.seen).value.proposals| > 0 && pc.todo[i] in Missing(Load(pc.seen).value) &&
      Last(Load(pc.seen).value).actions[pc.todo[i]].name in env.parallel
    ensures var pc := Run(env, events).locals[no - 1].pc;
      pc.todo[j] in Missing(Load(pc.seen).value) && Last(Load(pc.seen).value).actions[pc.todo[j]].name in env.parallel
  {
    hide Run, Load;
    EveryAttemptRunsRight(env, events);
    assert RunsRight(env, Run(env, events).locals[no - 1]);
  }

  // ----- Two starts with no row between them -----

  /** At this moment the attempt starts the action with this index. */
  ghost predicate StartsNow(sys: System, event: Event, no: nat, index: int) {
    event == ByAttempt(no, StartTool(index)) && 1 <= no <= |sys.locals| &&
    var l := sys.locals[no - 1];
    l.pc.Running? && index in l.pc.todo && index !in l.pc.started && Load(l.pc.seen).Some?
  }

  /** What became of an attempt that started an action, as long as no row was written. */
  ghost predicate StillThere(db: Db, l: Local, seen: seq<Row>, todo: seq<int>, index: int) {
    match l.pc
    case Running(s, t, started) => s == seen && t == todo && index in started
    case Appending(view, _, _, _, _) => Owns(db, l) ==> db.rows == view
    case Top => !Owns(db, l)
    case Failing => true
    case Stopped(_) => true
    case Steerable(_) => false
    case Deciding(_) => false
    case Publishing(_, _, _) => false
  }

  lemma FinishedIsStillThere(env: Env, db: Db, l: Local, outcomes: seq<ToolOutcome>, index: int)
    requires l.pc.Running? && LocalOk(db, l) && RunsRight(env, l) && StillThere(db, l, l.pc.seen, l.pc.todo, index)
    ensures var m := Finished(env, db, l, outcomes);
      StillThere(db, l.(boundary := m.boundary, pc := m.pc), l.pc.seen, l.pc.todo, index)
  {
    hide Load, Missing, Select, ResultBytes, Todo;
    if |outcomes| == |l.pc.todo| {
      var p := Load(l.pc.seen).value;
      var used := ResultBytes(env.size, p.proposals);
      var s := Select(env.limits, env.size, used, |p.proposals|, l.pc.todo, outcomes);
      if !s.overBudget && s.failure.None? {
        SelectedWithoutTrouble(env.limits, env.size, used, |p.proposals|, l.pc.todo, outcomes);
      }
    }
  }

  /** An append that is not taken for done leaves the attempt waiting, failing or gone. */
  lemma NotPassedStays(env: Env, db: Db, l: Local, step: Step)
    requires l.pc.Appending? && l.pc.queue != [] && Move(env, db, l, step).passed.None?
    ensures var pc := Move(env, db, l, step).pc;
      (pc.Appending? && pc.view == l.pc.view) || pc.Failing? || pc.Stopped?
  {
    hide AppendTx, Reconcile;
  }

  lemma PassedGoesOn(env: Env, db: Db, l: Local, step: Step)
    requires Move(env, db, l, step).passed.Some?
    ensures var pc := Move(env, db, l, step).pc; pc.Appending? || pc.Top? || pc.Failing? || pc.Stopped?
  {
    hide AppendTx, Reconcile;
    OnlyAppendsPass(env, db, l, step);
  }

  lemma AppendingIsStillThere(env: Env, db: Db, l: Local, step: Step, seen: seq<Row>, todo: seq<int>, index: int)
    requires DbOk(db) && LocalOk(db, l) && l.pc.Appending? && StillThere(db, l, seen, todo, index)
    requires db.lease == Some(l.attempt.token) ==> db.attemptNo == l.attempt.no
    requires l.attempt.no >= 1 && Move(env, db, l, step).db.rows == db.rows
    ensures var m := Move(env, db, l, step);
      StillThere(m.db, l.(boundary := m.boundary, pc := m.pc), seen, todo, index)
  {
    hide Move, Load, DbOk;
    MoveIsOk(env, db, l, step);
    if Move(env, db, l, step).passed.Some? {
      PassedGoesOn(env, db, l, step);
      OnlyAppendsPass(env, db, l, step);
      if step.SendAppend? {
        PassedWhenSent(env, db, l, step.commit);
      } else {
        PassedWhenFound(env, db, l, step.readable);
      }
    } else {
      NotPassedStays(env, db, l, step);
    }
  }

  lemma ZombiesStop(env: Env, db: Db, l: Local)
    requires DbOk(db) && !Owns(db, l) && l.pc.Top?
    requires db.lease == Some(l.attempt.token) ==> db.attemptNo == l.attempt.no
    ensures Loaded(env, db, l).pc == Stopped(false)
  {
    hide DbOk;
  }

  lemma OtherPlacesStay(env: Env, db: Db, l: Local, step: Step)
    requires DbOk(db) && (db.lease == Some(l.attempt.token) ==> db.attemptNo == l.attempt.no)
    requires (l.pc.Top? && !Owns(db, l)) || l.pc.Failing? || l.pc.Stopped?
    ensures var m := Move(env, db, l, step);
      m.pc.Stopped? || (m.pc == l.pc && m.db == db)
  {
    hide Loaded, FailTx, DbOk;
    if l.pc.Top? {
      ZombiesStop(env, db, l);
    }
  }

  lemma RunningIsStillThere(env: Env, db: Db, l: Local, step: Step, index: int)
    requires l.pc.Running? && LocalOk(db, l) && RunsRight(env, l) && StillThere(db, l, l.pc.seen, l.pc.todo, index)
    ensures var m := Move(env, db, l, step);
      m.db == db && StillThere(db, l.(boundary := m.boundary, pc := m.pc), l.pc.seen, l.pc.todo, index)
  {
    hide Load, Finished, RunsRight, Todo;
    if step.FinishTools? {
      FinishedIsStillThere(env, db, l, step.outcomes, index);
      FinishingLeavesTheDb(env, db, l, step.outcomes);
    }
  }

  lemma FinishingLeavesTheDb(env: Env, db: Db, l: Local, outcomes: seq<ToolOutcome>)
    requires l.pc.Running?
    ensures Finished(env, db, l, outcomes).db == db
  {
    hide Load, Select, ResultBytes, Possible;
  }

  lemma OwnMoveIsStillThere(env: Env, sys: System, no: nat, step: Step, seen: seq<Row>, todo: seq<int>, index: int)
    requires Invariant(sys) && AllRunRight(env, sys) && 1 <= no <= |sys.locals|
    requires StillThere(sys.db, sys.locals[no - 1], seen, todo, index)
    requires Next(env, sys, ByAttempt(no, step)).db.rows == sys.db.rows
    ensures var after := Next(env, sys, ByAttempt(no, step));
      no <= |after.locals| && StillThere(after.db, after.locals[no - 1], seen, todo, index)
  {
    hide Move, DbOk, LocalOk, RunsRight;
    var l := sys.locals[no - 1];
    assert RunsRight(env, l) && LocalOk(sys.db, l);
    match l.pc {
      case Running(_, _, _) => RunningIsStillThere(env, sys.db, l, step, index);
      case Appending(_, _, _, _, _) => AppendingIsStillThere(env, sys.db, l, step, seen, todo, index);
      case Top => OtherPlacesStay(env, sys.db, l, step);
      case Failing => OtherPlacesStay(env, sys.db, l, step);
      case Stopped(_) => OtherPlacesStay(env, sys.db, l, step);
      case Steerable(_) =>
      case Deciding(_) =>
      case Publishing(_, _, _) =>
    }
  }

  /** Nobody comes to hold the lease who did not hold it before. */
  lemma OwnersDoNotReturn(env: Env, sys: System, event: Event, i: nat)
    requires Invariant(sys) && i < |sys.locals|
    ensures Owns(Next(env, sys, event).db, sys.locals[i]) ==> Owns(sys.db, sys.locals[i])
  {
    hide DbOk, LocalOk, Move;
    if event.ByAttempt? && 1 <= event.no <= |sys.locals| {
      MoveIsOk(env, sys.db, sys.locals[event.no - 1], event.step);
    }
  }

  lemma OthersMoveIsStillThere(env: Env, sys: System, event: Event, no: nat, seen: seq<Row>, todo: seq<int>, index: int)
    requires Invariant(sys) && 1 <= no <= |sys.locals| && StillThere(sys.db, sys.locals[no - 1], seen, todo, index)
    requires !(event.ByAttempt? && event.no == no) && Next(env, sys, event).db.rows == sys.db.rows
    ensures var after := Next(env, sys, event);
      no <= |after.locals| && StillThere(after.db, after.locals[no - 1], seen, todo, index)
  {
    hide Invariant, Outside, Settled, ClosedTerminal, Move;
    OwnersDoNotReturn(env, sys, event, no - 1);
    assert Next(env, sys, event).locals[no - 1] == sys.locals[no - 1];
  }

  /** As long as no row is written, an attempt that started an action stays at the same
      tools, or goes on to write, to fail or to stop. */
  lemma {:induction false} StartedStaysThere(
    env: Env, events: seq<Event>, k: nat, no: nat, seen: seq<Row>, todo: seq<int>, index: int)
    requires k <= |events| && 1 <= no <= |Run(env, events[..k]).locals|
    requires StillThere(Run(env, events[..k]).db, Run(env, events[..k]).locals[no - 1], seen, todo, index)
    requires Run(env, events).db.rows == Run(env, events[..k]).db.rows
    ensures no <= |Run(env, events).locals|
    ensures StillThere(Run(env, events).db, Run(env, events).locals[no - 1], seen, todo, index)
    decreases |events|
  {
    hide Next, Invariant, AllRunRight, StillThere;
    if k < |events| {
      var front, event := events[..|events| - 1], events[|events| - 1];
      assert front[..k] == events[..k];
      LaneGrowth.LogsOnlyGrow(env, front, k);
      LaneGrowth.LogsOnlyGrow(env, events, |front|);
      StartedStaysThere(env, front, k, no, seen, todo, index);
      EveryRunKeepsInvariant(env, front);
      EveryAttemptRunsRight(env, front);
      if event.ByAttempt? && event.no == no {
        OwnMoveIsStillThere(env, Run(env, front), no, event.step, seen, todo, index);
      } else {
        OthersMoveIsStillThere(env, Run(env, front), event, no, seen, todo, index);
      }
    } else {
      assert events[..k] == events;
    }
  }

  lemma StartedIsThere(env: Env, sys: System, event: Event, no: nat, index: int)
    requires StartsNow(sys, event, no, index)
    ensures var l := sys.locals[no - 1];
      var after := Next(env, sys, event);
      after.db == sys.db && no <= |after.locals| &&
      StillThere(after.db, after.locals[no - 1], l.pc.seen, l.pc.todo, index)
  {
    hide Load;
  }

  /** Two starts of one attempt with no row written between them are both of parallel
      tools: whatever else happens in between, an attempt runs beside each other
      only what may run so. */
  lemma StartsBesideEachOtherAreParallel(env: Env, events: seq<Event>, k: nat, m: nat, no: nat, i: int, j: int)
    requires k < m < |events|
    requires StartsNow(Run(env, events[..k]), events[k], no, i) && StartsNow(Run(env, events[..m]), events[m], no, j)
    requires Run(env, events[..m]).db.rows == Run(env, events[..k]).db.rows
    ensures var p := Load(Run(env, events[..k]).locals[no - 1].pc.seen).value;
      i != j && |p.proposals| > 0 && i in Missing(p) && j in Missing(p) &&
      Last(p).actions[i].name in env.parallel && Last(p).actions[j].name in env.parallel
    ensures Run(env, events[..m]).locals[no - 1].pc.seen == Run(env, events[..k]).locals[no - 1].pc.seen
  {
    hide Next, Load, Missing, RightToRun;
    var first, later := Run(env, events[..k]), Run(env, events[..m]);
    var pc := first.locals[no - 1].pc;
    StartedIsThere(env, first, events[k], no, i);
    assert events[..k + 1][..k] == events[..k] && events[..m][..k + 1] == events[..k + 1];
    StartedStaysThere(env, events[..m], k + 1, no, pc.seen, pc.todo, i);
    EveryAttemptRunsRight(env, events[..k]);
    assert RunsRight(env, first.locals[no - 1]);
    TwoToRun(env, Load(pc.seen).value, pc.todo, i, j);
  }

  lemma TwoToRun(env: Env, p: Prefix, todo: seq<int>, i: int, j: int)
    requires RightToRun(env, p, todo) && i in todo && j in todo && i != j
    ensures |p.proposals| > 0 && i in Missing(p) && j in Missing(p)
    ensures Last(p).actions[i].name in env.parallel && Last(p).actions[j].name in env.parallel
  {
    hide Missing;
  }
}

/** The Final draft is published once. */
module Publication {
  import opened Basics
  import opened Checkpoints
  import opened CheckpointPrefixes
  import opened PendingActions
  import opened RunStore
  import opened RunProtocol
  import opened Controller
  import opened RunInvariants
  import Budgets

  /** In every reachable state: a Run is completed exactly when it has a message,
      it never has two, the message is the Final of its log, and Run and job
      are `running` together. */
  lemma PublishedExactlyOnce(env: Env, events: seq<Event>)
    ensures var db := Run(env, events).db;
      (db.run.RunCompleted? <==> |db.messages| == 1) && |db.messages| <= 1 &&
      (db.run.RunCompleted? ==> Load(db.rows).Some? && Load(db.rows).value.final == Some(db.messages[0])) &&
      (db.run.RunRunning? <==> db.job.JobRunning?) && (db.run.RunCompleted? <==> db.job.JobSucceeded?)
  {
    hide Run, LocalOk, Load;
    EveryRunKeepsInvariant(env, events);
  }

  ghost predicate Frozen(before: Db, after: Db) {
    after.rows == before.rows && after.messages == before.messages && after.run == before.run && after.job == before.job
  }

  lemma NoLeaseNoWrite(env: Env, db: Db, l: Local, step: Step)
    requires DbOk(db) && LocalOk(db, l) && l.attempt.no >= 1 && db.lease.None?
    ensures Move(env, db, l, step).db == db
  {
    hide DbOk, LocalOk, Move;
    MoveIsOk(env, db, l, step);
  }

  lemma CompletedLogHasNoOpenAction(tree: Tree, db: Db)
    requires DbOk(db) && db.run.RunCompleted?
    ensures ClosedTerminal(tree, db) == db
  {
    hide Load, Closings;
    LoadHasShape(db.rows);
    OpenExactlyWhenIncomplete(Load(db.rows).value);
  }

  lemma CompletedStays(env: Env, sys: System, event: Event)
    requires Invariant(sys) && sys.db.run.RunCompleted?
    ensures Frozen(sys.db, Next(env, sys, event).db)
  {
    hide LocalOk, Load, Move, ClosedTerminal;
    if event.ByAttempt? && 1 <= event.no <= |sys.locals| {
      NoLeaseNoWrite(env, sys.db, sys.locals[event.no - 1], event.step);
    }
    CompletedLogHasNoOpenAction(env.tree, sys.db);
  }

  /** Once a Run is completed its log, its message and its status never change
      again, whatever zombies, retries and late commits follow. */
  lemma {:induction false} CompletedForEver(env: Env, events: seq<Event>, k: nat)
    requires k <= |events| && Run(env, events[..k]).db.run.RunCompleted?
    ensures Frozen(Run(env, events[..k]).db, Run(env, events).db)
    decreases |events|
  {
    hide Next, Invariant;
    if k < |events| {
      var front := events[..|events| - 1];
      assert front[..k] == events[..k];
      CompletedForEver(env, front, k);
      EveryRunKeepsInvariant(env, front);
      CompletedStays(env, Run(env, front), events[|events| - 1]);
    } else {
      assert events[..k] == events;
    }
  }

  /** An attempt whose publication reported success is right: the Run is completed. */
  lemma ReportedSuccessIsPublished(env: Env, events: seq<Event>, no: nat)
    requires 1 <= no <= |Run(env, events).locals| && Run(env, events).locals[no - 1].pc == Stopped(true)
    ensures Run(env, events).db.run.RunCompleted? && |Run(env, events).db.messages| == 1
  {
    hide Run, Load;
    EveryRunKeepsInvariant(env, events);
    assert LocalOk(Run(env, events).db, Run(env, events).locals[no - 1]);
  }

  /** Only the newest attempt, and only while it holds the lease, changes the
      database: a zombie's appends, failures and publications do nothing. */
  lemma ZombiesChangeNothing(env: Env, events: seq<Event>, no: nat, step: Step)
    requires var db := Run(env, events).db; db.lease.None? || no != db.attemptNo
    ensures Next(env, Run(env, events), ByAttempt(no, step)).db == Run(env, events).db
  {
    hide Run, DbOk, LocalOk, Move;
    EveryRunKeepsInvariant(env, events);
    var sys := Run(env, events);
    if 1 <= no <= |sys.locals| {
      MoveIsOk(env, sys.db, sys.locals[no - 1], step);
    }
  }

  ghost predicate LiveLease(db: Db, l: Local) {
    db.lease == Some(l.attempt.token) && db.leaseLive && db.run.RunRunning? && db.job.JobRunning? && db.messages == []
  }

  ghost predicate MayWrite(db: Db, l: Local) {
    LiveLease(db, l) && db.attemptNo == l.attempt.no && db.deadlineOk && (db.chatMember || db.studioMember)
  }

  lemma AppendNeedsAuthority(env: Env, db: Db, l: Local, commit: Commit)
    requires l.pc.Appending? && l.pc.queue != [] && SentAppend(env, db, l, commit).db != db
    ensures MayWrite(db, l) && db.inDoubt.None?
  {
    hide Load, ReadLog, HasKey;
  }

  lemma PublishNeedsAuthority(env: Env, db: Db, l: Local, commit: Commit)
    requires l.pc.Publishing? && SentPublish(env, db, l, commit).db != db
    ensures MayWrite(db, l) && db.inDoubt.None?
  {
    hide Load, ReadLog, WellFormed;
  }

  lemma FailNeedsTheLease(db: Db, l: Local, commit: Commit)
    requires SentFail(db, l, commit).db != db
    ensures LiveLease(db, l) && db.inDoubt.None?
  {
  }

  /** An attempt changes the database only under its own live lease, and with no
      transaction in doubt. Appending and publishing also need the deadline and
      the membership; failing the Run does not. */
  lemma WritesNeedTheLease(env: Env, db: Db, l: Local, step: Step)
    requires Move(env, db, l, step).db != db
    ensures LiveLease(db, l) && db.inDoubt.None?
    ensures step.SendAppend? || step.SendPublish? || step.SendFail?
    ensures !step.SendFail? ==> MayWrite(db, l)
  {
    hide Loaded, Steered, Decided, Contextualized, Starts, Finished, SentAppend, CheckedAppend, SentFail, SentPublish;
    hide CheckedPublish;
    match step
    case Crash =>
    case LoadLog => Budgets.OpenBatchLeavesTheLog(env, db, l);
    case ReadSteering(_) => Budgets.ToolsLeaveTheLog(env, db, l, step);
    case Decide(_, _, _, _, _) => Budgets.DecisionsLeaveTheLog(env, db, l, step);
    case Contextualize(_, _, _, _) => Budgets.DecisionsLeaveTheLog(env, db, l, step);
    case StartTool(_) => Budgets.ToolsLeaveTheLog(env, db, l, step);
    case FinishTools(_) => Budgets.ToolsLeaveTheLog(env, db, l, step);
    case SendAppend(commit) => if l.pc.Appending? && l.pc.queue != [] { AppendNeedsAuthority(env, db, l, commit); }
    case CheckAppend(_) => Budgets.ChecksLeaveTheLog(env, db, l, step);
    case SendFail(commit) => if l.pc.Failing? { FailNeedsTheLease(db, l, commit); }
    case SendPublish(commit) => if l.pc.Publishing? { PublishNeedsAuthority(env, db, l, commit); }
    case CheckPublish(_) => Budgets.ChecksLeaveTheLog(env, db, l, step);
  }

  /** While the lease holder waits to append a checkpoint, sending it is refused
      as invalid exactly when the server rewrote a number in the log. Lost
      authority, a passed deadline and storage errors are all that is left. */
  lemma InvalidExactlyWhenANumberWasRewritten(env: Env, events: seq<Event>)
    requires var sys := Run(env, events);
      sys.db.attemptNo >= 1 && sys.db.attemptNo <= |sys.locals| && sys.db.inDoubt.None? &&
      var l := sys.locals[sys.db.attemptNo - 1];
      l.pc.Appending? && l.pc.queue != [] && CheckAuthority(sys.db, l.attempt) == Held
    ensures var sys := Run(env, events);
      var l := sys.locals[sys.db.attemptNo - 1];
      AppendTx(env.tree, sys.db, l.attempt, l.pc.queue[0]).Invalid? <==> !AllAsShown(env.tree.shown, sys.db.rows)
  {
    hide Run, DbOk, LocalOk, AppendTx, RowAsShown;
    EveryRunKeepsInvariant(env, events);
    var sys := Run(env, events);
    HolderIsNeverRefused(env.tree, sys.db, sys.locals[sys.db.attemptNo - 1]);
  }

  // ----- A Final is never stuck -----

  /** What it takes to publish a Final that is already in the log: the doubtful
      transaction, if any, is settled, the Run is handed to a new attempt, and
      that attempt loads the log and publishes. */
  function PublishingSchedule(token: nat, no: nat): seq<Event> {
    [Settle(false), Requeue, Claim(token), Membership(true, false), ByAttempt(no, LoadLog),
      ByAttempt(no, SendPublish(Acked))]
  }

  lemma RunOneMore(env: Env, events: seq<Event>, event: Event)
    ensures Run(env, events + [event]) == Next(env, Run(env, events), event)
  {
    assert (events + [event])[..|events|] == events;
  }

  lemma {:induction false} RunInTwoParts(env: Env, events: seq<Event>, more: seq<Event>)
    ensures Run(env, events + more) == Continue(env, Run(env, events), more)
    decreases |more|
  {
    hide Next;
    if more == [] {
      assert events + more == events;
    } else {
      RunOneMore(env, events, more[0]);
      RunInTwoParts(env, events + [more[0]], more[1..]);
      assert events + [more[0]] + more[1..] == events + more;
    }
  }

  function Continue(env: Env, sys: System, more: seq<Event>): System
    decreases |more|
  {
    if more == [] then sys else Continue(env, Next(env, sys, more[0]), more[1..])
  }

  lemma FinalIsWellFormed(rows: seq<Row>, text: string)
    requires Load(rows).Some? && Load(rows).value.final == Some(text)
    ensures WellFormed(FinalRow(1, text))
  {
    hide Load;
    var row := FinalRow(Load(rows).value.decisions, text);
    LoadRecordsTheLog(rows, row);
    var i :| 0 <= i < |rows| && rows[i] == row;
    AcceptedRowsAreWellFormed(rows, i);
  }

  /** Handing the Run to a new attempt. */
  lemma NewAttempt(env: Env, sys: System, token: nat)
    requires Invariant(sys) && Unfinished(sys.db) && token !in sys.used
    ensures var next := Continue(env, sys, [Settle(false), Requeue, Claim(token), Membership(true, false)]);
      var no := sys.db.attemptNo + 1;
      next.db == sys.db.(inDoubt := None, run := RunRunning, job := JobRunning, lease := Some(token), attemptNo := no,
                         leaseLive := true, chatMember := true, studioMember := false) &&
      next.locals == sys.locals + [Local(Attempt(no, token), true, Top)] && |next.locals| == no
  {
    hide LocalOk, Load, Move;
    var a := Next(env, sys, Settle(false));
    var b := Next(env, a, Requeue);
    var c := Next(env, b, Claim(token));
    var d := Next(env, c, Membership(true, false));
    assert a.db == sys.db.(inDoubt := None) && a.locals == sys.locals;
    assert b.db == a.db.(run := RunQueued, job := JobQueued, lease := None) && b.locals == sys.locals;
    assert c.locals == sys.locals + [Local(Attempt(sys.db.attemptNo + 1, token), true, Top)];
    FourSteps(env, sys, Settle(false), Requeue, Claim(token), Membership(true, false));
  }

  lemma FourSteps(env: Env, sys: System, e1: Event, e2: Event, e3: Event, e4: Event)
    ensures Continue(env, sys, [e1, e2, e3, e4]) == Next(env, Next(env, Next(env, Next(env, sys, e1), e2), e3), e4)
  {
    hide Next;
    var s1 := Next(env, sys, e1);
    var s2 := Next(env, s1, e2);
    var s3 := Next(env, s2, e3);
    assert [e1, e2, e3, e4][1..] == [e2, e3, e4] && [e2, e3, e4][1..] == [e3, e4] && [e3, e4][1..] == [e4] &&
      [e4][1..] == [];
    assert Continue(env, s3, [e4]) == Continue(env, Next(env, s3, e4), []);
    assert Continue(env, s2, [e3, e4]) == Continue(env, s3, [e4]);
    assert Continue(env, s1, [e2, e3, e4]) == Continue(env, s2, [e3, e4]);
  }

  /** From every reachable state whose log ends with a Final, before the deadline
      and with every number as the server shows it, the Run can be completed
      with that Final: no crash, zombie or doubtful commit leaves it stuck. */
  lemma AFinalCanBePublished(env: Env, events: seq<Event>, token: nat)
    requires var sys := Run(env, events);
      Unfinished(sys.db) && sys.db.deadlineOk && token !in sys.used && AllAsShown(env.tree.shown, sys.db.rows) &&
      Load(sys.db.rows).Some? && Load(sys.db.rows).value.final.Some?
    ensures var sys := Run(env, events);
      var after := Run(env, events + PublishingSchedule(token, sys.db.attemptNo + 1)).db;
      after.run.RunCompleted? && after.messages == [Load(sys.db.rows).value.final.value] && after.rows == sys.db.rows
  {
    hide Run, LocalOk, Load, RowAsShown, WellFormed, Continue;
    EveryRunKeepsInvariant(env, events);
    var sys := Run(env, events);
    var no := sys.db.attemptNo + 1;
    var text := Load(sys.db.rows).value.final.value;
    FinalIsWellFormed(sys.db.rows, text);
    NewAttempt(env, sys, token);
    RunInTwoParts(env, events, [Settle(false), Requeue, Claim(token), Membership(true, false)]);
    var start := events + [Settle(false), Requeue, Claim(token), Membership(true, false)];
    RunOneMore(env, start, ByAttempt(no, LoadLog));
    var loaded := Run(env, start + [ByAttempt(no, LoadLog)]);
    assert loaded.locals[no - 1].pc == Publishing(text, false, false);
    RunOneMore(env, start + [ByAttempt(no, LoadLog)], ByAttempt(no, SendPublish(Acked)));
    assert events + PublishingSchedule(token, no) ==
      start + [ByAttempt(no, LoadLog)] + [ByAttempt(no, SendPublish(Acked))];
  }

  // ----- Runs do reach a Final -----

  function AnsweringSchedule(text: string): seq<Event> {
    [Claim(0), ByAttempt(1, LoadLog), ByAttempt(1, ReadSteering([])),
     ByAttempt(1, Decide(false, None, {}, Accepted(FinalDecision(text)), text)),
     ByAttempt(1, SendAppend(Unanswered)), ByAttempt(1, Crash), Settle(true)]
  }

  lemma StepTo(env: Env, sys: System, event: Event, more: seq<Event>)
    ensures Continue(env, sys, [event] + more) == Continue(env, Next(env, sys, event), more)
  {
    hide Next;
    assert ([event] + more)[1..] == more;
  }

  lemma EmptyLog(shown: string -> string)
    ensures ReadLog(shown, []) == Load([]) == Some(EMPTY) && OpenActions(EMPTY) == None
  {
  }

  lemma FinalMayComeFirst(text: string)
    requires WellFormed(FinalRow(1, text))
    ensures Load([FinalRow(1, text)]).Some? && Load([FinalRow(1, text)]).value.final == Some(text)
  {
    EmptyLog(s => s);
    LoadOneMore([], FinalRow(1, text));
    assert [] + [FinalRow(1, text)] == [FinalRow(1, text)];
  }

  /** The first attempt, at the given place, with the given transaction in doubt. */
  function FirstAttempt(boundary: bool, pc: Pc, inDoubt: Option<InDoubt>): System {
    INITIAL.(
      db := INITIAL_DB.(run := RunRunning, job := JobRunning, lease := Some(0), attemptNo := 1, leaseLive := true,
        inDoubt := inDoubt),
      locals := [Local(Attempt(1, 0), boundary, pc)],
      used := {0})
  }

  lemma FirstClaimAndLoad(env: Env)
    ensures Next(env, INITIAL, Claim(0)) == FirstAttempt(true, Top, None)
    ensures Next(env, FirstAttempt(true, Top, None), ByAttempt(1, LoadLog)) == FirstAttempt(false, Steerable([]), None)
  {
    hide Load, ReadLog, OpenActions;
    EmptyLog(env.tree.shown);
    assert [Local(Attempt(1, 0), true, Top)][0 := Local(Attempt(1, 0), false, Steerable([]))] ==
      [Local(Attempt(1, 0), false, Steerable([]))];
  }

  lemma FirstBoundary(env: Env)
    ensures Next(env, FirstAttempt(false, Steerable([]), None), ByAttempt(1, ReadSteering([]))) ==
      FirstAttempt(false, Deciding([]), None)
  {
    hide Load, ReadLog, OpenActions;
    EmptyLog(env.tree.shown);
  }

  lemma FirstDecision(env: Env, text: string)
    requires WellFormed(FinalRow(1, text)) && env.decides(EMPTY, FinalDecision(text))
    requires env.limits.finalDecisionLimit >= 1
    ensures Next(env, FirstAttempt(false, Deciding([]), None),
      ByAttempt(1, Decide(false, None, {}, Accepted(FinalDecision(text)), text))) ==
      FirstAttempt(false, Appending([], [FinalRow(1, text)], false, false, BackToTop), None)
  {
    hide Load, ReadLog, OpenActions, IsBlank, ByteLength;
    EmptyLog(env.tree.shown);
  }

  lemma FirstAppend(env: Env, text: string)
    requires WellFormed(FinalRow(1, text))
    ensures Next(env, FirstAttempt(false, Appending([], [FinalRow(1, text)], false, false, BackToTop), None),
      ByAttempt(1, SendAppend(Unanswered))) ==
      FirstAttempt(false, Appending([], [FinalRow(1, text)], false, true, BackToTop),
        Some(DoubtfulAppend(FinalRow(1, text), 1)))
  {
    hide Load, ReadLog, IsBlank, ByteLength;
    EmptyLog(env.tree.shown);
    FinalMayComeFirst(text);
    assert [] + [FinalRow(1, text)] == [FinalRow(1, text)];
  }

  /** For example: the model answers at once, the append of its answer is not
      acknowledged, the worker dies, and the commit turns out to have happened. By
      AFinalCanBePublished the answer still reaches the member. */
  lemma AnAnswerSurvivesALostAcknowledgement(env: Env, text: string)
    requires WellFormed(FinalRow(1, text)) && env.decides(EMPTY, FinalDecision(text))
    requires env.limits.finalDecisionLimit >= 1
    ensures var db := Continue(env, INITIAL, AnsweringSchedule(text)).db;
      db.rows == [FinalRow(1, text)] && Unfinished(db) && db.deadlineOk &&
      Load(db.rows).Some? && Load(db.rows).value.final == Some(text)
  {
    hide Load, Next, WellFormed, Continue;
    FinalMayComeFirst(text);
    FirstClaimAndLoad(env);
    FirstBoundary(env);
    FirstDecision(env, text);
    FirstAppend(env, text);
    var all := AnsweringSchedule(text);
    var written := FirstAttempt(false, Appending([], [FinalRow(1, text)], false, true, BackToTop),
      Some(DoubtfulAppend(FinalRow(1, text), 1)));
    CrashThenSettle(env, written);
    FiveSteps(env, INITIAL, all[0], all[1], all[2], all[3], all[4], all[5..]);
    assert all == [all[0], all[1], all[2], all[3], all[4]] + all[5..];
    assert all[5..] == [ByAttempt(1, Crash), Settle(true)];
  }

  lemma FiveSteps(env: Env, sys: System, e1: Event, e2: Event, e3: Event, e4: Event, e5: Event, more: seq<Event>)
    ensures Continue(env, sys, [e1, e2, e3, e4, e5] + more) ==
      Continue(env, Next(env, Next(env, Next(env, Next(env, Next(env, sys, e1), e2), e3), e4), e5), more)
  {
    hide Next, Continue;
    var s1 := Next(env, sys, e1);
    var s2 := Next(env, s1, e2);
    var s3 := Next(env, s2, e3);
    var s4 := Next(env, s3, e4);
    assert [e1, e2, e3, e4, e5] + more == [e1] + ([e2] + ([e3] + ([e4] + ([e5] + more))));
    StepTo(env, sys, e1, [e2] + ([e3] + ([e4] + ([e5] + more))));
    StepTo(env, s1, e2, [e3] + ([e4] + ([e5] + more)));
    StepTo(env, s2, e3, [e4] + ([e5] + more));
    StepTo(env, s3, e4, [e5] + more);
    StepTo(env, s4, e5, more);
  }

  lemma NothingMore(env: Env, sys: System)
    ensures Continue(env, sys, []) == sys
  {
  }

  lemma CrashThenSettle(env: Env, sys: System)
    requires |sys.locals| == 1 && sys.db.inDoubt.Some? && sys.db.inDoubt.value.DoubtfulAppend?
    ensures Continue(env, sys, [ByAttempt(1, Crash), Settle(true)]).db ==
      Inserted(env.tree, sys.db.(inDoubt := None), sys.db.inDoubt.value.row, sys.db.inDoubt.value.author)
  {
    hide Continue, Inserted, Loaded, Steered, Decided, Contextualized, Starts, Finished, SentAppend, CheckedAppend;
    hide SentFail, SentPublish, CheckedPublish;
    var f := Next(env, sys, ByAttempt(1, Crash));
    StepTo(env, sys, ByAttempt(1, Crash), [Settle(true)]);
    StepTo(env, f, Settle(true), []);
    NothingMore(env, Next(env, f, Settle(true)));
    assert [ByAttempt(1, Crash)] + [Settle(true)] == [ByAttempt(1, Crash), Settle(true)];
    assert [Settle(true)] + [] == [Settle(true)];
  }
}

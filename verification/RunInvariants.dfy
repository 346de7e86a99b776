/** What every schedule of a Run keeps: the log stays acceptable, run and job move
    together, and whatever the lease holder is about to write fits the log. */
module RunInvariants {
  import opened Basics
  import opened Json
  import opened Identities
  import opened Checkpoints
  import opened CheckpointPrefixes
  import opened CheckpointGrammar
  import opened PendingActions
  import opened Controller
  import opened RunStore
  import opened RunProtocol

  // ----- Logs -----

  ghost predicate Increasing(actions: seq<AcceptedAction>) {
    forall i, j | 0 <= i < j < |actions| :: actions[i].index < actions[j].index
  }

  lemma {:induction false} UnsafeKeepOrder(safe: set<string>, pending: seq<AcceptedAction>)
    requires Increasing(pending)
    ensures Increasing(Unsafe(safe, pending))
    decreases |pending|
  {
    if pending != [] {
      var front := pending[..|pending| - 1];
      UnsafeKeepOrder(safe, front);
      var kept := Unsafe(safe, front);
      forall i | 0 <= i < |kept| ensures kept[i].index < pending[|pending| - 1].index {
        assert kept[i] in front;
      }
    }
  }

  lemma PendingIncreases(p: Prefix)
    requires Shape(p) && |p.proposals| > 0
    ensures Increasing(PendingOf(Last(p).actions))
  {
    assert ProposalShape(Last(p), |p.proposals|);
    forall i, j | 0 <= i < j < |PendingOf(Last(p).actions)|
      ensures PendingOf(Last(p).actions)[i].index < PendingOf(Last(p).actions)[j].index
    {
      PendingInIndexOrder(Last(p).actions, i, j);
    }
  }

  /** Interrupted results for open actions of a log may follow it. */
  lemma ClosingsMayFollow(rows: seq<Row>, actions: seq<AcceptedAction>)
    requires Load(rows).Some? && |Load(rows).value.proposals| > 0 && Increasing(actions)
    requires forall a :: a in actions ==> a in PendingOf(Last(Load(rows).value).actions)
    ensures Load(rows + Closings(|Load(rows).value.proposals|, actions)).Some?
  {
    hide Load, INTERRUPTED, ActionResult.Valid;
    var p := Load(rows).value;
    LoadHasShape(rows);
    PendingIsMissing(p);
    InterruptedIsValid();
    var answers := Closings(|p.proposals|, actions);
    forall i | 0 <= i < |answers| ensures WellFormed(answers[i]) && answers[i].index in Missing(p) {
      assert actions[i] in PendingOf(Last(p).actions);
    }
    AnswersMayFollow(rows, answers);
  }

  lemma TerminalClosingsMayFollow(rows: seq<Row>)
    requires Load(rows).Some? && OpenActions(Load(rows).value).Some?
    ensures var p := Load(rows).value; Load(rows + Closings(|p.proposals|, OpenActions(p).value)).Some?
  {
    var p := Load(rows).value;
    LoadHasShape(rows);
    PendingIncreases(p);
    ClosingsMayFollow(rows, OpenActions(p).value);
  }

  // ----- The database -----

  ghost predicate DoubtFits(db: Db) {
    match db.inDoubt
    case None => true
    case Some(DoubtfulAppend(row, author)) => author == db.attemptNo && Load(db.rows + [row]).Some?
    case Some(DoubtfulPublish(text)) => Load(db.rows).Some? && Load(db.rows).value.final == Some(text)
    case Some(DoubtfulFail) => true
  }

  /** Run and job leave `running` together and hold a lease exactly while they
      are there; a Run is completed exactly when it has its one message, and that
      is the Final of its log. */
  ghost predicate DbOk(db: Db) {
    && Load(db.rows).Some?
    && |db.authors| == |db.rows|
    && (forall i | 0 <= i < |db.authors| :: db.authors[i] <= db.attemptNo)
    && (db.run.RunQueued? <==> db.job.JobQueued?)
    && (db.run.RunRunning? <==> db.job.JobRunning?)
    && (db.run.RunCompleted? <==> db.job.JobSucceeded?)
    && (db.run.RunFailed? <==> db.job.JobFailed?)
    && (db.run.RunRunning? <==> db.lease.Some?)
    && (db.run.RunCompleted? <==> db.messages != [])
    && (db.messages != [] ==> |db.messages| == 1 && Load(db.rows).value.final == Some(db.messages[0]))
    && (db.inDoubt.Some? ==> db.run.RunRunning?)
    && DoubtFits(db)
  }

  ghost predicate Owns(db: Db, l: Local) {
    db.lease.Some? && db.attemptNo == l.attempt.no
  }

  ghost predicate Todo(p: Prefix, todo: seq<int>) {
    |p.proposals| > 0 && p.final.None? && Distinct(todo) && forall i :: i in todo ==> i in Missing(p)
  }

  ghost predicate QueueFits(db: Db, view: seq<Row>, queue: seq<Row>, no: nat) {
    && queue != [] && Load(view + queue).Some?
    && ((db.rows == view && (db.inDoubt.None? || db.inDoubt == Some(DoubtfulAppend(queue[0], no)))) ||
        (db.rows == view + [queue[0]] && db.inDoubt.None?))
  }

  /** What holds at each place of the controller's loop. For an attempt that lost
      its lease only what it may still do to tools matters. */
  ghost predicate LocalOk(db: Db, l: Local) {
    match l.pc
    case Top => true
    case Running(seen, todo, started) =>
      seen <= db.rows && Load(seen).Some? && Todo(Load(seen).value, todo) &&
      (Owns(db, l) ==> db.rows == seen && db.inDoubt.None?)
    case Steerable(seen) => Owns(db, l) ==> AtBoundary(db, seen)
    case Deciding(seen) => Owns(db, l) ==> AtBoundary(db, seen)
    case Appending(view, queue, _, _, _) => queue != [] && (Owns(db, l) ==> QueueFits(db, view, queue, l.attempt.no))
    case Failing => true
    case Publishing(text, _, _) =>
      Owns(db, l) ==>
        Load(db.rows).Some? && Load(db.rows).value.final == Some(text) &&
        !(db.inDoubt.Some? && db.inDoubt.value.DoubtfulAppend?)
    case Stopped(published) => published ==> db.run.RunCompleted?
  }

  /** The lease holder has read the whole log and no action in it is open. */
  ghost predicate AtBoundary(db: Db, seen: seq<Row>) {
    db.rows == seen && db.inDoubt.None? && Load(seen).Some? && Load(seen).value.final.None? &&
    !HasIncompleteProposal(Load(seen).value)
  }

  ghost predicate Numbered(sys: System) {
    && |sys.locals| == sys.db.attemptNo
    && (forall i | 0 <= i < |sys.locals| ::
      sys.locals[i].attempt.no == i + 1 && sys.locals[i].attempt.token in sys.used)
    && (forall i, j | 0 <= i < j < |sys.locals| :: sys.locals[i].attempt.token != sys.locals[j].attempt.token)
    && (sys.db.lease.Some? ==>
      sys.db.attemptNo >= 1 && sys.db.lease.value == sys.locals[sys.db.attemptNo - 1].attempt.token)
  }

  ghost predicate Invariant(sys: System) {
    DbOk(sys.db) && Numbered(sys) && forall i | 0 <= i < |sys.locals| :: LocalOk(sys.db, sys.locals[i])
  }

  // ----- Attempts that do not move -----

  /** What an attempt relies on while others move. */
  ghost predicate Undisturbed(db: Db, after: Db, l: Local) {
    && db.rows <= after.rows
    && (db.run.RunCompleted? ==> after.run.RunCompleted?)
    && (Owns(after, l) ==> Owns(db, l) && after.rows == db.rows && after.inDoubt == db.inDoubt)
  }

  lemma UndisturbedStaysOk(db: Db, after: Db, l: Local)
    requires LocalOk(db, l) && Undisturbed(db, after, l)
    ensures LocalOk(after, l)
  {
    hide Load, HasIncompleteProposal, Missing;
  }

  // ----- Steps of one attempt that leave the database alone -----

  lemma ChosenAreMissing(env: Env, p: Prefix, pending: seq<AcceptedAction>)
    requires Shape(p) && p.final.None? && OpenActions(p) == Some(pending)
    ensures Todo(p, Chosen(env, pending))
  {
    hide Shape, Missing;
    PendingIncreases(p);
    PendingIsMissing(p);
    assert forall i | 0 <= i < |pending| :: pending[i] in pending;
  }

  lemma LoadedIsOk(env: Env, db: Db, l: Local)
    requires DbOk(db) && l.pc.Top? && db.inDoubt.None? && l.attempt.no >= 1
    ensures var m := Loaded(env, db, l); LocalOk(db, l.(boundary := m.boundary, pc := m.pc))
  {
    hide Load, Missing, Todo, Closings, Unsafe, Chosen;
    if CheckAuthority(db, l.attempt) == Held && ReadLog(env.tree.shown, db.rows).Some? {
      var p := Load(db.rows).value;
      LoadHasShape(db.rows);
      OpenExactlyWhenIncomplete(p);
      if p.final.None? && OpenActions(p).Some? {
        var pending := OpenActions(p).value;
        ChosenAreMissing(env, p, pending);
        PendingIncreases(p);
        UnsafeKeepOrder(env.safe, pending);
        ClosingsMayFollow(db.rows, Unsafe(env.safe, pending));
      }
    }
  }

  lemma OpenExactlyWhenIncomplete(p: Prefix)
    ensures OpenActions(p).Some? <==> HasIncompleteProposal(p)
  {
    if |p.proposals| > 0 {
      var actions := Last(p).actions;
      if HasIncompleteProposal(p) {
        var i :| 0 <= i < |actions| && actions[i].result.None?;
        assert actions[i] in PendingOf(actions);
      }
      if OpenActions(p).Some? {
        assert PendingOf(actions)[0] in PendingOf(actions);
      }
    }
  }

  lemma {:induction false} SteeringFollows(p: Prefix, messages: seq<Message>)
    requires p.final.None? && !HasIncompleteProposal(p)
    requires forall i | 0 <= i < |messages| :: !Delivered(p, messages[i].id)
    requires forall i, j | 0 <= i < j < |messages| :: messages[i].id != messages[j].id
    ensures LoadFrom(p, SteeringQueue(p.decisions + 1, messages)).Some?
    decreases |messages|
  {
    hide WellFormed;
    var queue := SteeringQueue(p.decisions + 1, messages);
    if queue != [] {
      var q := Accept(p, queue[0]);
      assert q.Some?;
      assert queue[1..] == SteeringQueue(p.decisions + 1, messages[1..]);
      forall i | 0 <= i < |messages| - 1 ensures !Delivered(q.value, messages[1..][i].id) {
        assert messages[1..][i] == messages[i + 1];
        assert forall k | 0 <= k < |p.steering| :: q.value.steering[k] == p.steering[k];
      }
      SteeringFollows(q.value, messages[1..]);
    }
  }

  lemma UndeliveredInPrefix(rows: seq<Row>, messages: seq<Message>, i: nat)
    requires Load(rows).Some? && Undelivered(rows, messages) && i < |messages|
    ensures !Delivered(Load(rows).value, messages[i].id)
  {
    hide Load;
    var p := Load(rows).value;
    forall k | 0 <= k < |p.steering| ensures p.steering[k].messageId != messages[i].id {
      var s := p.steering[k];
      var row := SteeringRow(s.no, s.messageId, s.content);
      assert Records(p, row) by { assert s in p.steering; }
      LoadRecordsTheLog(rows, row);
      var j :| 0 <= j < |rows| && rows[j] == row;
    }
  }

  lemma SteeredIsOk(env: Env, db: Db, l: Local, messages: seq<Message>)
    requires DbOk(db) && l.pc.Steerable? && LocalOk(db, l)
    ensures LocalOk(db, l.(pc := Steered(env, db, l, messages).pc))
  {
    hide Load, HasIncompleteProposal, SteeringQueue;
    var seen := l.pc.seen;
    if Owns(db, l) && Undelivered(db.rows, messages) {
      var p := Load(seen).value;
      forall i | 0 <= i < |messages| ensures !Delivered(p, messages[i].id) {
        UndeliveredInPrefix(seen, messages, i);
      }
      SteeringFollows(p, messages);
      LoadFromConcat(EMPTY, seen, SteeringQueue(p.decisions + 1, messages));
      LoadIsLoadFrom(seen);
      LoadIsLoadFrom(seen + SteeringQueue(p.decisions + 1, messages));
    }
  }

  lemma LoadIsLoadFrom(rows: seq<Row>)
    ensures Load(rows) == LoadFrom(EMPTY, rows)
  {
  }

  lemma ProposesIsOk(db: Db, l: Local, row: Row)
    requires DbOk(db) && l.pc.Deciding? && LocalOk(db, l)
    requires Load(l.pc.seen).Some? && (row.ProposalRow? || row.FinalRow?)
    requires row.no == Load(l.pc.seen).value.decisions + 1
    ensures LocalOk(db, l.(pc := Proposes(db, l, row).pc))
  {
    hide Load, HasIncompleteProposal, WellFormed;
    if Owns(db, l) {
      LoadOneMore(l.pc.seen, row);
    }
  }

  lemma DecidedIsOk(env: Env, db: Db, l: Local, step: Step)
    requires DbOk(db) && l.pc.Deciding? && LocalOk(db, l) && (step.Decide? || step.Contextualize?)
    ensures step.Decide? ==> LocalOk(db, l.(pc := Decided(env, db, l, step).pc))
    ensures step.Contextualize? ==> LocalOk(db, l.(pc := Contextualized(env, db, l, step).pc))
  {
    hide Load, HasIncompleteProposal, WellFormed, DecisionAllowed, OfferFor, Advertisable, CheckAuthority, Proposes;
    if Load(l.pc.seen).Some? {
      var no := Load(l.pc.seen).value.decisions + 1;
      if step.Contextualize? {
        ProposesIsOk(db, l, ProposalRow(no, [step.search]));
      } else {
        ProposesIsOk(db, l, FinalRow(no, step.prepared));
        if step.answer.Accepted? && step.answer.decision.ProposalDecision? {
          ProposesIsOk(db, l, ProposalRow(no, step.answer.decision.actions));
        }
      }
    }
  }

  lemma SelectionFits(env: Env, seen: seq<Row>, todo: seq<int>, outcomes: seq<ToolOutcome>)
    requires Load(seen).Some? && Todo(Load(seen).value, todo) && |outcomes| == |todo|
    ensures var p := Load(seen).value;
      Load(seen + Select(env.limits, env.size, ResultBytes(env.size, p.proposals), |p.proposals|, todo,
        outcomes).rows).Some?
  {
    hide Load, Missing, WellFormed, Select, ResultBytes;
    var p := Load(seen).value;
    var no, used := |p.proposals|, ResultBytes(env.size, p.proposals);
    var rows := Select(env.limits, env.size, used, no, todo, outcomes).rows;
    SelectedWithinLimits(env.limits, env.size, used, no, todo, outcomes);
    forall i | 0 <= i < |rows|
      ensures WellFormed(rows[i]) && rows[i].ResultRow? && rows[i].no == no && rows[i].index in Missing(p) {
      assert rows[i] in rows;
      assert FromOutcome(no, todo, outcomes, rows[i]);
    }
    forall i, j | 0 <= i < j < |rows| ensures rows[i].index != rows[j].index {
      SelectedIndicesDiffer(env.limits, env.size, used, no, todo, outcomes, i, j);
    }
    AnswersMayFollow(seen, rows);
  }

  lemma FinishedIsOk(env: Env, db: Db, l: Local, outcomes: seq<ToolOutcome>)
    requires DbOk(db) && l.pc.Running? && LocalOk(db, l)
    ensures LocalOk(db, l.(pc := Finished(env, db, l, outcomes).pc))
  {
    hide Load, Missing, WellFormed, Select, ResultBytes, Todo;
    if |outcomes| == |l.pc.todo| {
      SelectionFits(env, l.pc.seen, l.pc.todo, outcomes);
    }
  }

  // ----- Durable writes -----

  /** A checkpoint the lease holder built is refused as invalid only when the
      server rewrote a number in the log; otherwise it is committed, or was
      committed before. */
  lemma HolderIsNeverRefused(tree: Tree, db: Db, l: Local)
    requires DbOk(db) && l.pc.Appending? && LocalOk(db, l)
    requires db.inDoubt.None? && CheckAuthority(db, l.attempt) == Held
    ensures var row := l.pc.queue[0];
      AppendTx(tree, db, l.attempt, row) ==
      (if !AllAsShown(tree.shown, db.rows) then Invalid
       else if row in db.rows then AlreadyThere
       else Commits(Inserted(tree, db, row, l.attempt.no)))
    ensures l.pc.queue[0] in db.rows <==> db.rows == l.pc.view + [l.pc.queue[0]]
    ensures l.pc.queue[0] !in db.rows <==> db.rows == l.pc.view
    ensures Load(l.pc.view + [l.pc.queue[0]]).Some?
  {
    hide Load, RowAsShown;
    var view, queue := l.pc.view, l.pc.queue;
    var row := queue[0];
    assert view + queue == view + [row] + queue[1..];
    AcceptedLogsArePrefixClosed(view + queue, |view| + 1);
    assert (view + queue)[..|view| + 1] == view + [row];
    NextRowHasNewKey(view, row);
    if db.rows != view {
      assert db.rows[|view|] == row;
    }
  }

  ghost predicate MoveOk(db: Db, l: Local, m: Moved) {
    && DbOk(m.db) && LocalOk(m.db, l.(boundary := m.boundary, pc := m.pc))
    && m.db.attemptNo == db.attemptNo && db.rows <= m.db.rows
    && (m.db.lease == db.lease || m.db.lease == None)
    && (db.run.RunCompleted? ==> m.db.run.RunCompleted?)
    && (m.db != db ==> Owns(db, l))
  }

  lemma InsertedIsOk(tree: Tree, db: Db, row: Row)
    requires DbOk(db) && db.run.RunRunning? && db.inDoubt.None? && Load(db.rows + [row]).Some?
    ensures DbOk(Inserted(tree, db, row, db.attemptNo))
  {
    hide Load;
  }

  lemma AdvancedIsOk(db: Db, l: Local)
    requires DbOk(db) && l.pc.Appending? && l.pc.queue != []
    requires Owns(db, l) ==>
      Load(l.pc.view + l.pc.queue).Some? && db.rows == l.pc.view + [l.pc.queue[0]] && db.inDoubt.None?
    ensures var m := Advanced(db, l); LocalOk(db, l.(pc := m.pc)) && m.db == db && m.boundary == l.boundary
  {
    hide Load;
    assert l.pc.view + l.pc.queue == l.pc.view + [l.pc.queue[0]] + l.pc.queue[1..];
  }

  lemma SentAppendIsOk(env: Env, db: Db, l: Local, commit: Commit)
    requires DbOk(db) && l.pc.Appending? && LocalOk(db, l)
    ensures MoveOk(db, l, SentAppend(env, db, l, commit))
  {
    hide Load, AppendTx, Advanced, Shape, HasIncompleteProposal;
    if db.inDoubt.None? && !l.pc.checking {
      if CheckAuthority(db, l.attempt) == Held {
        HolderIsNeverRefused(env.tree, db, l);
        if l.pc.queue[0] !in db.rows {
          InsertedIsOk(env.tree, db, l.pc.queue[0]);
          AdvancedIsOk(Inserted(env.tree, db, l.pc.queue[0], l.attempt.no), l);
        } else {
          AdvancedIsOk(db, l);
        }
      } else {
        RefusedWithoutAuthority(env.tree, db, l);
      }
    }
  }

  lemma RefusedWithoutAuthority(tree: Tree, db: Db, l: Local)
    requires l.pc.Appending? && l.pc.queue != [] && CheckAuthority(db, l.attempt) != Held
    ensures AppendTx(tree, db, l.attempt, l.pc.queue[0]) == Refused(CheckAuthority(db, l.attempt))
  {
  }

  lemma CheckedAppendIsOk(env: Env, db: Db, l: Local, readable: bool)
    requires DbOk(db) && l.pc.Appending? && LocalOk(db, l)
    ensures MoveOk(db, l, CheckedAppend(env, db, l, readable))
  {
    hide Load, RowAsShown, Advanced;
    var row := l.pc.queue[0];
    if Reconcile(env.tree, db, l.attempt, row).Matched? {
      if Owns(db, l) {
        QueuedRowIsThereOnceWritten(db, l);
      }
      AdvancedIsOk(db, l);
    }
  }

  lemma QueuedRowIsThereOnceWritten(db: Db, l: Local)
    requires DbOk(db) && l.pc.Appending? && LocalOk(db, l) && Owns(db, l)
    ensures l.pc.queue[0] in db.rows <==> db.rows == l.pc.view + [l.pc.queue[0]]
    ensures db.inDoubt.Some? ==> l.pc.queue[0] !in db.rows
  {
    hide Load;
    var view, queue := l.pc.view, l.pc.queue;
    var row := queue[0];
    AcceptedLogsArePrefixClosed(view + queue, |view| + 1);
    assert (view + queue)[..|view| + 1] == view + [row];
    NextRowHasNewKey(view, row);
    if db.rows != view {
      assert db.rows[|view|] == row;
    }
  }

  lemma SentFailIsOk(db: Db, l: Local, commit: Commit)
    requires DbOk(db) && LocalOk(db, l) && (db.lease == Some(l.attempt.token) ==> db.attemptNo == l.attempt.no)
    ensures MoveOk(db, l, SentFail(db, l, commit))
  {
    hide Load;
  }

  lemma SentPublishIsOk(env: Env, db: Db, l: Local, commit: Commit)
    requires DbOk(db) && l.pc.Publishing? && LocalOk(db, l)
    ensures MoveOk(db, l, SentPublish(env, db, l, commit))
  {
    hide Load, WellFormed, RowAsShown;
  }

  lemma CheckedPublishIsOk(db: Db, l: Local, readable: bool)
    requires DbOk(db) && l.pc.Publishing? && LocalOk(db, l)
    ensures MoveOk(db, l, CheckedPublish(db, l, readable))
  {
    hide Load;
  }

  lemma StartsIsOk(db: Db, l: Local, index: int)
    requires DbOk(db) && l.pc.Running? && LocalOk(db, l)
    ensures MoveOk(db, l, Starts(db, l, index))
  {
    hide Load, Todo;
  }

  /** Every step of an attempt keeps its own invariant and the database's, and
      only the lease holder's steps change the database. */
  lemma MoveIsOk(env: Env, db: Db, l: Local, step: Step)
    requires DbOk(db) && LocalOk(db, l) && l.attempt.no >= 1
    requires db.lease == Some(l.attempt.token) ==> db.attemptNo == l.attempt.no
    ensures MoveOk(db, l, Move(env, db, l, step))
  {
    hide DbOk, LocalOk, Owns, Loaded, Steered, Decided, Contextualized, Finished;
    hide Starts, SentAppend, CheckedAppend, SentFail, SentPublish, CheckedPublish;
    assert l.(boundary := l.boundary, pc := l.pc) == l;
    match step
    case Crash => StoppedIsOk(db, l);
    case LoadLog => if l.pc.Top? && db.inDoubt.None? { LoadedMoveOk(env, db, l); }
    case ReadSteering(messages) => if l.pc.Steerable? { SteeredMoveOk(env, db, l, messages); }
    case Decide(_, _, _, _, _) => if l.pc.Deciding? { DecidedMoveOk(env, db, l, step); }
    case Contextualize(_, _, _, _) => if l.pc.Deciding? { DecidedMoveOk(env, db, l, step); }
    case StartTool(index) => if l.pc.Running? { StartsIsOk(db, l, index); }
    case FinishTools(outcomes) => if l.pc.Running? { FinishedMoveOk(env, db, l, outcomes); }
    case SendAppend(commit) => if l.pc.Appending? && l.pc.queue != [] { SentAppendIsOk(env, db, l, commit); }
    case CheckAppend(readable) => if l.pc.Appending? && l.pc.queue != [] { CheckedAppendIsOk(env, db, l, readable); }
    case SendFail(commit) => SentFailIsOk(db, l, commit);
    case SendPublish(commit) => if l.pc.Publishing? { SentPublishIsOk(env, db, l, commit); }
    case CheckPublish(readable) => if l.pc.Publishing? { CheckedPublishIsOk(db, l, readable); }
  }

  lemma StoppedIsOk(db: Db, l: Local)
    ensures LocalOk(db, l.(pc := Stopped(false)))
  {
  }

  lemma LoadedMoveOk(env: Env, db: Db, l: Local)
    requires DbOk(db) && l.pc.Top? && db.inDoubt.None? && l.attempt.no >= 1
    ensures MoveOk(db, l, Loaded(env, db, l))
  {
    hide DbOk, LocalOk, CheckAuthority, ReadLog, OpenActions, Unsafe, Chosen, Closings;
    LoadedIsOk(env, db, l);
  }

  lemma SteeredMoveOk(env: Env, db: Db, l: Local, messages: seq<Message>)
    requires DbOk(db) && l.pc.Steerable? && LocalOk(db, l)
    ensures MoveOk(db, l, Steered(env, db, l, messages))
  {
    hide DbOk, LocalOk, Load, SteeringQueue, Undelivered;
    SteeredIsOk(env, db, l, messages);
  }

  lemma DecidedMoveOk(env: Env, db: Db, l: Local, step: Step)
    requires DbOk(db) && l.pc.Deciding? && LocalOk(db, l) && (step.Decide? || step.Contextualize?)
    ensures step.Decide? ==> MoveOk(db, l, Decided(env, db, l, step))
    ensures step.Contextualize? ==> MoveOk(db, l, Contextualized(env, db, l, step))
  {
    hide DbOk, LocalOk, Load, DecisionAllowed, OfferFor, Advertisable, CheckAuthority, WellFormed;
    DecidedIsOk(env, db, l, step);
  }

  lemma FinishedMoveOk(env: Env, db: Db, l: Local, outcomes: seq<ToolOutcome>)
    requires DbOk(db) && l.pc.Running? && LocalOk(db, l)
    ensures MoveOk(db, l, Finished(env, db, l, outcomes))
  {
    hide DbOk, LocalOk, Load, Possible, Select, ResultBytes;
    FinishedIsOk(env, db, l, outcomes);
  }

  // ----- Everything else -----

  lemma OutsideIsOk(tree: Tree, db: Db, event: Event)
    requires DbOk(db)
    ensures DbOk(Outside(tree, db, event))
    ensures var after := Outside(tree, db, event);
      after.rows == db.rows && after.authors == db.authors && after.inDoubt == db.inDoubt &&
      after.attemptNo == db.attemptNo &&
      (after.lease == db.lease || after.lease == None) && (db.run.RunCompleted? ==> after.run.RunCompleted?) &&
      after.messages == db.messages
  {
    hide Load;
  }

  lemma SettledDbIsOk(tree: Tree, db: Db, commits: bool)
    requires DbOk(db)
    ensures DbOk(Settled(tree, db, commits))
  {
    hide Load;
    var settled := db.(inDoubt := None);
    if commits && db.inDoubt.Some? && db.inDoubt.value.DoubtfulAppend? {
      InsertedIsOk(tree, settled, db.inDoubt.value.row);
    }
  }

  /** A doubtful commit that turns out to have happened leaves the lease holder
      where its next step expects it. */
  lemma SettledLocalIsOk(tree: Tree, db: Db, l: Local, commits: bool)
    requires DbOk(db) && LocalOk(db, l)
    ensures LocalOk(Settled(tree, db, commits), l)
  {
    hide Load, Todo, HasIncompleteProposal;
  }

  lemma ClosedTerminalIsOk(tree: Tree, db: Db)
    requires DbOk(db)
    ensures var after := ClosedTerminal(tree, db);
      DbOk(after) && db.rows <= after.rows && after.attemptNo == db.attemptNo && after.lease == db.lease &&
      (db.run.RunCompleted? ==> after.run.RunCompleted?) && (after != db ==> db.lease.None?)
  {
    hide Load, Closings;
    if ClosedTerminal(tree, db) != db {
      TerminalClosingsMayFollow(db.rows);
      OpenExactlyWhenIncomplete(Load(db.rows).value);
      LoadHasShape(db.rows);
    }
  }

  // ----- The whole system -----

  lemma ByAttemptKeeps(env: Env, sys: System, no: nat, step: Step)
    requires Invariant(sys) && 1 <= no <= |sys.locals|
    ensures Invariant(Next(env, sys, ByAttempt(no, step)))
  {
    hide DbOk, LocalOk, Owns, Move, MoveOk;
    var l := sys.locals[no - 1];
    var m := Move(env, sys.db, l, step);
    var after := Next(env, sys, ByAttempt(no, step));
    assert sys.db.lease == Some(l.attempt.token) ==> sys.db.attemptNo == no;
    MoveIsOk(env, sys.db, l, step);
    MoveOkGives(sys.db, l, m);
    forall i | 0 <= i < |after.locals| ensures LocalOk(after.db, after.locals[i]) {
      if i != no - 1 {
        OtherIsUndisturbed(sys.db, l, m, sys.locals[i]);
      }
    }
  }

  lemma MoveOkGives(db: Db, l: Local, m: Moved)
    requires MoveOk(db, l, m)
    ensures DbOk(m.db) && LocalOk(m.db, l.(boundary := m.boundary, pc := m.pc))
    ensures m.db.attemptNo == db.attemptNo && (m.db.lease == db.lease || m.db.lease == None)
  {
  }

  lemma OtherIsUndisturbed(db: Db, l: Local, m: Moved, other: Local)
    requires MoveOk(db, l, m) && LocalOk(db, other) && other.attempt.no != l.attempt.no
    ensures LocalOk(m.db, other)
  {
    hide DbOk, LocalOk;
    UndisturbedStaysOk(db, m.db, other);
  }

  lemma OutsideKeeps(env: Env, sys: System, event: Event)
    requires Invariant(sys)
    ensures var db := Outside(env.tree, sys.db, event);
      forall calls, actions :: Invariant(sys.(db := db, otherCalls := calls, otherActions := actions))
  {
    hide DbOk, LocalOk, Outside;
    var db := Outside(env.tree, sys.db, event);
    OutsideIsOk(env.tree, sys.db, event);
    forall i | 0 <= i < |sys.locals| ensures LocalOk(db, sys.locals[i]) {
      UndisturbedStaysOk(sys.db, db, sys.locals[i]);
    }
  }

  lemma ClaimedKeeps(sys: System, token: nat)
    requires Invariant(sys)
    ensures Invariant(WithClaim(sys, token))
  {
    hide LocalOk, Load;
    var after := WithClaim(sys, token);
    if after != sys {
      forall i | 0 <= i < |sys.locals| ensures LocalOk(after.db, sys.locals[i]) {
        UndisturbedStaysOk(sys.db, after.db, sys.locals[i]);
      }
      TopIsOk(after.db, after.locals[|sys.locals|]);
    }
  }

  lemma TopIsOk(db: Db, l: Local)
    requires l.pc.Top?
    ensures LocalOk(db, l)
  {
  }

  lemma SettledKeeps(env: Env, sys: System, commits: bool)
    requires Invariant(sys)
    ensures Invariant(sys.(db := Settled(env.tree, sys.db, commits)))
  {
    hide LocalOk, DbOk;
    var db := Settled(env.tree, sys.db, commits);
    SettledDbIsOk(env.tree, sys.db, commits);
    forall i | 0 <= i < |sys.locals| ensures LocalOk(db, sys.locals[i]) {
      SettledLocalIsOk(env.tree, sys.db, sys.locals[i], commits);
    }
  }

  lemma ClosedTerminalKeeps(env: Env, sys: System)
    requires Invariant(sys)
    ensures Invariant(sys.(db := ClosedTerminal(env.tree, sys.db)))
  {
    hide LocalOk, DbOk, ClosedTerminal;
    var db := ClosedTerminal(env.tree, sys.db);
    ClosedTerminalIsOk(env.tree, sys.db);
    forall i | 0 <= i < |sys.locals| ensures LocalOk(db, sys.locals[i]) {
      if db != sys.db {
        UndisturbedStaysOk(sys.db, db, sys.locals[i]);
      }
    }
  }

  lemma NextKeepsInvariant(env: Env, sys: System, event: Event)
    requires Invariant(sys)
    ensures Invariant(Next(env, sys, event))
  {
    hide Invariant, Outside, WithClaim, Settled, ClosedTerminal, Move;
    match event
    case Claim(token) => ClaimedKeeps(sys, token);
    case Settle(commits) => SettledKeeps(env, sys, commits);
    case CloseTerminal => ClosedTerminalKeeps(env, sys);
    case ByAttempt(no, step) => if 1 <= no <= |sys.locals| { ByAttemptKeeps(env, sys, no, step); }
    case OthersCharge(_, _) => OutsideKeeps(env, sys, event);
    case LeaseExpires => OutsideKeepsAlone(env, sys, event);
    case DeadlinePasses => OutsideKeepsAlone(env, sys, event);
    case Membership(_, _) => OutsideKeepsAlone(env, sys, event);
    case Requeue => OutsideKeepsAlone(env, sys, event);
    case Abandon => OutsideKeepsAlone(env, sys, event);
    case Cancel => OutsideKeepsAlone(env, sys, event);
  }

  lemma OutsideKeepsAlone(env: Env, sys: System, event: Event)
    requires Invariant(sys)
    ensures Invariant(sys.(db := Outside(env.tree, sys.db, event)))
  {
    hide Invariant, Outside;
    OutsideKeeps(env, sys, event);
    var db := Outside(env.tree, sys.db, event);
    assert sys.(db := db) == sys.(db := db, otherCalls := sys.otherCalls, otherActions := sys.otherActions);
  }

  /** Every reachable state satisfies the invariant. */
  lemma {:induction false} EveryRunKeepsInvariant(env: Env, events: seq<Event>)
    ensures Invariant(Run(env, events))
    decreases |events|
  {
    hide Next;
    if events == [] {
      assert Shape(EMPTY);
    } else {
      EveryRunKeepsInvariant(env, events[..|events| - 1]);
      NextKeepsInvariant(env, Run(env, events[..|events| - 1]), events[|events| - 1]);
    }
  }

  // ----- Appends that were taken for done -----

  /** Whenever an attempt takes an append for done, be it acknowledged, found again
      after a lost acknowledgement, or already there, the row is in the log. For
      the lease holder the log then is what it was before with exactly that row
      added. This holds of the last row of a queue too, wherever the attempt goes. */
  lemma PassedAppendsAreInTheLog(env: Env, events: seq<Event>, no: nat, step: Step)
    requires var sys := Run(env, events);
      1 <= no <= |sys.locals| && Move(env, sys.db, sys.locals[no - 1], step).passed.Some?
    ensures var sys := Run(env, events);
      var l := sys.locals[no - 1];
      var m := Move(env, sys.db, l, step);
      l.pc.Appending? && l.pc.queue != [] && m.passed == Some(l.pc.queue[0]) && l.pc.queue[0] in m.db.rows &&
      (Owns(sys.db, l) ==> m.db.rows == l.pc.view + [l.pc.queue[0]] && Load(m.db.rows).Some?)
  {
    hide Run, Load, Move;
    EveryRunKeepsInvariant(env, events);
    var sys := Run(env, events);
    var l := sys.locals[no - 1];
    OnlyAppendsPass(env, sys.db, l, step);
    if step.SendAppend? {
      PassedWhenSent(env, sys.db, l, step.commit);
    } else {
      PassedWhenFound(env, sys.db, l, step.readable);
    }
  }

  lemma OnlyAppendsPass(env: Env, db: Db, l: Local, step: Step)
    requires Move(env, db, l, step).passed.Some?
    ensures l.pc.Appending? && l.pc.queue != [] && (step.SendAppend? || step.CheckAppend?)
    ensures step.SendAppend? ==> Move(env, db, l, step) == SentAppend(env, db, l, step.commit)
    ensures step.CheckAppend? ==> Move(env, db, l, step) == CheckedAppend(env, db, l, step.readable)
  {
    hide SentAppend, CheckedAppend, Load, ReadLog, CheckAuthority, OpenActions, Possible, Select, ResultBytes;
    hide Undelivered, SteeringQueue;
    hide DecisionAllowed, OfferFor, Advertisable, WellFormed, FailTx, PublishTx, ReconcilePublication, Queued, Closings;
    hide Unsafe, Chosen;
  }

  lemma PassedWhenSent(env: Env, db: Db, l: Local, commit: Commit)
    requires DbOk(db) && LocalOk(db, l) && l.pc.Appending? && l.pc.queue != []
    requires SentAppend(env, db, l, commit).passed.Some?
    ensures var m := SentAppend(env, db, l, commit);
      m.passed == Some(l.pc.queue[0]) && l.pc.queue[0] in m.db.rows &&
      (Owns(db, l) ==> m.db.rows == l.pc.view + [l.pc.queue[0]] && Load(m.db.rows).Some?)
  {
    hide Load, AppendTx, RowAsShown;
    QueueHeadFits(db, l);
    if CheckAuthority(db, l.attempt) == Held {
      HolderIsNeverRefused(env.tree, db, l);
      QueuedRowIsThereOnceWritten(db, l);
    } else {
      RefusedWithoutAuthority(env.tree, db, l);
    }
  }

  lemma PassedWhenFound(env: Env, db: Db, l: Local, readable: bool)
    requires DbOk(db) && LocalOk(db, l) && l.pc.Appending? && l.pc.queue != []
    requires CheckedAppend(env, db, l, readable).passed.Some?
    ensures var m := CheckedAppend(env, db, l, readable);
      m.passed == Some(l.pc.queue[0]) && l.pc.queue[0] in m.db.rows &&
      (Owns(db, l) ==> m.db.rows == l.pc.view + [l.pc.queue[0]] && Load(m.db.rows).Some?)
  {
    hide Load, RowAsShown;
    QueueHeadFits(db, l);
    if Owns(db, l) {
      QueuedRowIsThereOnceWritten(db, l);
    }
  }

  lemma QueueHeadFits(db: Db, l: Local)
    requires LocalOk(db, l) && l.pc.Appending? && l.pc.queue != []
    ensures Owns(db, l) ==> Load(l.pc.view + [l.pc.queue[0]]).Some?
  {
    hide Load;
    if Owns(db, l) {
      AcceptedLogsArePrefixClosed(l.pc.view + l.pc.queue, |l.pc.view| + 1);
      assert (l.pc.view + l.pc.queue)[..|l.pc.view| + 1] == l.pc.view + [l.pc.queue[0]];
    }
  }
}

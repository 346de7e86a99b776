/** What the lease holder gets done: each part of the controller's loop, carried through
    to the log whatever way its commits come out. */
module Progress {
  import opened Basics
  import opened Identities
  import opened Checkpoints
  import opened CheckpointPrefixes
  import opened CheckpointGrammar
  import opened PendingActions
  import opened Controller
  import opened RunStore
  import opened RunProtocol
  import opened RunInvariants
  import opened Publication
  import opened ToolChoice

  // ----- The holder and its steps -----

  function Me(sys: System): Local
    requires 1 <= sys.db.attemptNo <= |sys.locals|
  {
    sys.locals[sys.db.attemptNo - 1]
  }

  /** The newest attempt has authority and nothing is in doubt. */
  ghost predicate Leads(sys: System) {
    Invariant(sys) && 1 <= sys.db.attemptNo <= |sys.locals| && sys.db.inDoubt.None? &&
    CheckAuthority(sys.db, Me(sys).attempt) == Held
  }

  /** The holder has gone on to this place, and the database is now this one. */
  function Gone(sys: System, db: Db, pc: Pc): System
    requires 1 <= sys.db.attemptNo <= |sys.locals|
  {
    sys.(db := db, locals := sys.locals[sys.db.attemptNo - 1 := Me(sys).(pc := pc)])
  }

  lemma GoneTwice(sys: System, db: Db, pc: Pc, db': Db, pc': Pc)
    requires 1 <= sys.db.attemptNo <= |sys.locals| && db.attemptNo == sys.db.attemptNo
    ensures Gone(Gone(sys, db, pc), db', pc') == Gone(sys, db', pc')
    ensures Me(Gone(sys, db, pc)) == Me(sys).(pc := pc)
  {
  }

  lemma GoneNowhere(sys: System)
    requires 1 <= sys.db.attemptNo <= |sys.locals|
    ensures Gone(sys, sys.db, Me(sys).pc) == sys
  {
  }

  lemma StepGoes(env: Env, sys: System, step: Step)
    requires 1 <= sys.db.attemptNo <= |sys.locals|
    requires var m := Move(env, sys.db, Me(sys), step); m.execs == [] && m.boundary == Me(sys).boundary
    ensures var m := Move(env, sys.db, Me(sys), step);
      Next(env, sys, ByAttempt(sys.db.attemptNo, step)) == Gone(sys, m.db, m.pc)
  {
    hide Move;
  }

  lemma {:induction false} ContinueBoth(env: Env, sys: System, a: seq<Event>, b: seq<Event>)
    ensures Continue(env, sys, a + b) == Continue(env, Continue(env, sys, a), b)
    decreases |a|
  {
    hide Next;
    if a == [] {
      assert a + b == b;
    } else {
      ContinueBoth(env, Next(env, sys, a[0]), a[1..], b);
      assert (a + b)[1..] == a[1..] + b;
    }
  }

  lemma ContinueWith(env: Env, sys: System, event: Event)
    ensures Continue(env, sys, [event]) == Next(env, sys, event)
  {
    hide Next;
    NothingMore(env, Next(env, sys, event));
    assert [event][1..] == [];
  }

  lemma {:induction false} ContinuingKeepsInvariant(env: Env, sys: System, events: seq<Event>)
    requires Invariant(sys)
    ensures Invariant(Continue(env, sys, events))
    decreases |events|
  {
    hide Next, Invariant;
    if events != [] {
      NextKeepsInvariant(env, sys, events[0]);
      ContinuingKeepsInvariant(env, Next(env, sys, events[0]), events[1..]);
    }
  }

  // ----- One row, delivered -----

  /** How an append may come to be done: acknowledged; not carried out and sent again;
      carried out but not acknowledged, and found; or left in doubt, dissolved, and
      sent again. */
  datatype Delivery = Acknowledged | SentAgain | AnswerLost | DoubtDissolved

  /** A Run without a chat is told that it lost its lease instead of sending again. */
  predicate MayCome(d: Delivery, chatMember: bool) {
    chatMember || d.Acknowledged? || d.AnswerLost?
  }

  predicate AllMayCome(ds: seq<Delivery>, chatMember: bool) {
    forall i | 0 <= i < |ds| :: MayCome(ds[i], chatMember)
  }

  function Sending(no: nat, d: Delivery): seq<Event> {
    match d
    case Acknowledged => [ByAttempt(no, SendAppend(Acked))]
    case SentAgain =>
      [ByAttempt(no, SendAppend(RolledBack)), ByAttempt(no, CheckAppend(true)), ByAttempt(no, SendAppend(Acked))]
    case AnswerLost =>
      [ByAttempt(no, SendAppend(Unanswered)), Settle(true), ByAttempt(no, CheckAppend(true))]
    case DoubtDissolved =>
      [ByAttempt(no, SendAppend(Unanswered)), Settle(false), ByAttempt(no, CheckAppend(true)),
       ByAttempt(no, SendAppend(Acked))]
  }

  /** The holder is about to send the first row of a queue that fits the log it knows. */
  ghost predicate AboutToSend(env: Env, sys: System) {
    Leads(sys) && Me(sys).pc.Appending? && Me(sys).pc.queue != [] && !Me(sys).pc.checking &&
    sys.db.rows == Me(sys).pc.view && AllAsShown(env.tree.shown, sys.db.rows)
  }

  lemma AcknowledgedIsWritten(env: Env, sys: System)
    requires AboutToSend(env, sys)
    ensures var pc := Me(sys).pc;
      Next(env, sys, ByAttempt(sys.db.attemptNo, SendAppend(Acked))) ==
      Gone(sys, Inserted(env.tree, sys.db, pc.queue[0], sys.db.attemptNo),
        Queued(pc.view + [pc.queue[0]], pc.queue[1..], pc.after))
  {
    hide Load, AppendTx, RowAsShown, AllAsShown, CheckAuthority, Inserted;
    var l := Me(sys);
    HolderIsNeverRefused(env.tree, sys.db, l);
    NotThereYet(sys.db.rows, l.pc.queue[0]);
    StepGoes(env, sys, SendAppend(Acked));
  }

  lemma NotThereYet(rows: seq<Row>, row: Row)
    ensures rows != rows + [row]
  {
    assert |rows + [row]| == |rows| + 1;
  }

  lemma RolledBackIsChecked(env: Env, sys: System)
    requires AboutToSend(env, sys)
    ensures Next(env, sys, ByAttempt(sys.db.attemptNo, SendAppend(RolledBack))) ==
      Gone(sys, sys.db, Me(sys).pc.(checking := true))
  {
    hide Load, AppendTx, AllAsShown, CheckAuthority;
    StepGoes(env, sys, SendAppend(RolledBack));
  }

  lemma UnansweredIsInDoubt(env: Env, sys: System)
    requires AboutToSend(env, sys)
    ensures Next(env, sys, ByAttempt(sys.db.attemptNo, SendAppend(Unanswered))) ==
      Gone(sys, sys.db.(inDoubt := Some(DoubtfulAppend(Me(sys).pc.queue[0], sys.db.attemptNo))),
        Me(sys).pc.(checking := true))
  {
    hide Load, AppendTx, RowAsShown, AllAsShown, CheckAuthority, Inserted;
    var l := Me(sys);
    HolderIsNeverRefused(env.tree, sys.db, l);
    NotThereYet(sys.db.rows, l.pc.queue[0]);
    StepGoes(env, sys, SendAppend(Unanswered));
  }

  /** A first look that finds nothing leads back to sending. */
  lemma NothingFoundSendsAgain(env: Env, sys: System)
    requires Leads(sys) && Me(sys).pc.Appending? && Me(sys).pc.queue != []
    requires Me(sys).pc.checking && !Me(sys).pc.retried && sys.db.rows == Me(sys).pc.view && sys.db.chatMember
    ensures Next(env, sys, ByAttempt(sys.db.attemptNo, CheckAppend(true))) ==
      Gone(sys, sys.db, Me(sys).pc.(retried := true, checking := false))
  {
    hide Load, RowAsShown, HasKey;
    var l := Me(sys);
    HeadIsNew(sys);
    StepGoes(env, sys, CheckAppend(true));
  }

  lemma HeadIsNew(sys: System)
    requires Leads(sys) && Me(sys).pc.Appending? && Me(sys).pc.queue != [] && sys.db.rows == Me(sys).pc.view
    ensures !HasKey(sys.db.rows, Key(Me(sys).pc.queue[0])) && Load(sys.db.rows + [Me(sys).pc.queue[0]]).Some?
  {
    hide Load, HasKey;
    QueueHeadFits(sys.db, Me(sys));
    NextRowHasNewKey(sys.db.rows, Me(sys).pc.queue[0]);
  }

  /** A look that finds the row goes on. */
  lemma FoundGoesOn(env: Env, sys: System)
    requires 1 <= sys.db.attemptNo <= |sys.locals| && Me(sys).pc.Appending? && Me(sys).pc.queue != []
    requires Me(sys).pc.checking && sys.db.rows == Me(sys).pc.view + [Me(sys).pc.queue[0]]
    requires RowAsShown(env.tree.shown, Me(sys).pc.queue[0])
    ensures var pc := Me(sys).pc;
      Next(env, sys, ByAttempt(sys.db.attemptNo, CheckAppend(true))) ==
      Gone(sys, sys.db, Queued(pc.view + [pc.queue[0]], pc.queue[1..], pc.after))
  {
    hide Load, RowAsShown;
    var rows, row := sys.db.rows, Me(sys).pc.queue[0];
    assert rows[|rows| - 1] == row;
    assert HasKey(rows, Key(row)) && row in rows;
    StepGoes(env, sys, CheckAppend(true));
  }

  lemma SettledNext(env: Env, sys: System, db: Db, pc: Pc, commits: bool)
    requires 1 <= sys.db.attemptNo <= |sys.locals|
    ensures Next(env, Gone(sys, db, pc), Settle(commits)) == Gone(sys, Settled(env.tree, db, commits), pc)
  {
  }

  /** Standing with a row to send, whatever the commits come to, the row is written once,
      charged once, and the attempt goes on behind it. */
  lemma OneRowIsDelivered(env: Env, sys: System, d: Delivery)
    requires AboutToSend(env, sys) && !Me(sys).pc.retried && MayCome(d, sys.db.chatMember)
    requires RowAsShown(env.tree.shown, Me(sys).pc.queue[0])
    ensures var pc := Me(sys).pc;
      Continue(env, sys, Sending(sys.db.attemptNo, d)) ==
      Gone(sys, Inserted(env.tree, sys.db, pc.queue[0], sys.db.attemptNo),
        Queued(pc.view + [pc.queue[0]], pc.queue[1..], pc.after))
  {
    hide Next, RowAsShown, AllAsShown, Continue, AboutToSend, Leads, Queued, Inserted;
    match d {
      case Acknowledged => DeliveredAtOnce(env, sys);
      case SentAgain => DeliveredSecondTime(env, sys);
      case AnswerLost => DeliveredUnheard(env, sys);
      case DoubtDissolved => DeliveredAfterDoubt(env, sys);
    }
  }

  lemma DeliveredAtOnce(env: Env, sys: System)
    requires AboutToSend(env, sys)
    ensures var pc := Me(sys).pc;
      Continue(env, sys, Sending(sys.db.attemptNo, Acknowledged)) ==
      Gone(sys, Inserted(env.tree, sys.db, pc.queue[0], sys.db.attemptNo),
        Queued(pc.view + [pc.queue[0]], pc.queue[1..], pc.after))
  {
    hide Next, Continue, Queued, Inserted;
    AcknowledgedIsWritten(env, sys);
    ContinueWith(env, sys, ByAttempt(sys.db.attemptNo, SendAppend(Acked)));
  }

  lemma ThreeSteps(env: Env, sys: System, e1: Event, e2: Event, e3: Event)
    ensures Continue(env, sys, [e1, e2, e3]) == Next(env, Next(env, Next(env, sys, e1), e2), e3)
  {
    hide Next;
    ContinueBoth(env, sys, [e1], [e2, e3]);
    ContinueBoth(env, Next(env, sys, e1), [e2], [e3]);
    ContinueWith(env, sys, e1);
    ContinueWith(env, Next(env, sys, e1), e2);
    ContinueWith(env, Next(env, Next(env, sys, e1), e2), e3);
    assert [e1] + [e2, e3] == [e1, e2, e3] && [e2] + [e3] == [e2, e3];
  }

  lemma DeliveredSecondTime(env: Env, sys: System)
    requires AboutToSend(env, sys) && !Me(sys).pc.retried && sys.db.chatMember
    ensures var pc := Me(sys).pc;
      Continue(env, sys, Sending(sys.db.attemptNo, SentAgain)) ==
      Gone(sys, Inserted(env.tree, sys.db, pc.queue[0], sys.db.attemptNo),
        Queued(pc.view + [pc.queue[0]], pc.queue[1..], pc.after))
  {
    hide Next, Continue, Queued, Inserted, AllAsShown, Invariant;
    var no, pc := sys.db.attemptNo, Me(sys).pc;
    RolledBackIsChecked(env, sys);
    var waiting := Next(env, sys, ByAttempt(no, SendAppend(RolledBack)));
    NextKeepsInvariant(env, sys, ByAttempt(no, SendAppend(RolledBack)));
    NothingFoundSendsAgain(env, waiting);
    var again := Next(env, waiting, ByAttempt(no, CheckAppend(true)));
    NextKeepsInvariant(env, waiting, ByAttempt(no, CheckAppend(true)));
    AcknowledgedIsWritten(env, again);
    ThreeSteps(env, sys, ByAttempt(no, SendAppend(RolledBack)), ByAttempt(no, CheckAppend(true)),
      ByAttempt(no, SendAppend(Acked)));
  }

  lemma DeliveredUnheard(env: Env, sys: System)
    requires AboutToSend(env, sys) && RowAsShown(env.tree.shown, Me(sys).pc.queue[0])
    ensures var pc := Me(sys).pc;
      Continue(env, sys, Sending(sys.db.attemptNo, AnswerLost)) ==
      Gone(sys, Inserted(env.tree, sys.db, pc.queue[0], sys.db.attemptNo),
        Queued(pc.view + [pc.queue[0]], pc.queue[1..], pc.after))
  {
    hide Next, Continue, Queued, RowAsShown, AllAsShown, Invariant;
    var no, pc := sys.db.attemptNo, Me(sys).pc;
    var row := pc.queue[0];
    UnansweredIsInDoubt(env, sys);
    var doubtful := sys.db.(inDoubt := Some(DoubtfulAppend(row, no)));
    SettledNext(env, sys, doubtful, pc.(checking := true), true);
    assert sys.db.(inDoubt := None) == sys.db;
    var written := Gone(sys, Inserted(env.tree, sys.db, row, no), pc.(checking := true));
    FoundGoesOn(env, written);
    GoneTwice(sys, written.db, pc.(checking := true), written.db, Queued(pc.view + [row], pc.queue[1..], pc.after));
    ThreeSteps(env, sys, ByAttempt(no, SendAppend(Unanswered)), Settle(true), ByAttempt(no, CheckAppend(true)));
  }

  lemma DeliveredAfterDoubt(env: Env, sys: System)
    requires AboutToSend(env, sys) && !Me(sys).pc.retried && sys.db.chatMember
    ensures var pc := Me(sys).pc;
      Continue(env, sys, Sending(sys.db.attemptNo, DoubtDissolved)) ==
      Gone(sys, Inserted(env.tree, sys.db, pc.queue[0], sys.db.attemptNo),
        Queued(pc.view + [pc.queue[0]], pc.queue[1..], pc.after))
  {
    hide Next, Continue, Queued, Inserted, AllAsShown, Invariant;
    var no, pc := sys.db.attemptNo, Me(sys).pc;
    UnansweredIsInDoubt(env, sys);
    NextKeepsInvariant(env, sys, ByAttempt(no, SendAppend(Unanswered)));
    var doubtful := Next(env, sys, ByAttempt(no, SendAppend(Unanswered)));
    SettledNext(env, sys, doubtful.db, pc.(checking := true), false);
    NextKeepsInvariant(env, doubtful, Settle(false));
    var waiting := Next(env, doubtful, Settle(false));
    assert sys.db.(inDoubt := None) == sys.db;
    assert waiting == Gone(sys, sys.db, pc.(checking := true));
    NothingFoundSendsAgain(env, waiting);
    NextKeepsInvariant(env, waiting, ByAttempt(no, CheckAppend(true)));
    var again := Next(env, waiting, ByAttempt(no, CheckAppend(true)));
    AcknowledgedIsWritten(env, again);
    FourSteps(env, sys, ByAttempt(no, SendAppend(Unanswered)), Settle(false), ByAttempt(no, CheckAppend(true)),
      ByAttempt(no, SendAppend(Acked)));
  }

  // ----- A whole queue -----

  function SendingAll(no: nat, ds: seq<Delivery>): seq<Event> {
    if ds == [] then [] else Sending(no, ds[0]) + SendingAll(no, ds[1..])
  }

  /** The database once all these rows are inserted. */
  function AllInserted(tree: Tree, db: Db, queue: seq<Row>, no: nat): (r: Db)
    ensures r.rows == db.rows + queue
    ensures r == db.(rows := r.rows, authors := r.authors, modelCalls := r.modelCalls, actions := r.actions)
    decreases |queue|
  {
    if queue == [] then assert db.rows + queue == db.rows; db
    else
      assert db.rows + queue == db.rows + [queue[0]] + queue[1..];
      AllInserted(tree, Inserted(tree, db, queue[0], no), queue[1..], no)
  }

  lemma ShownAfterOneMore(shown: string -> string, rows: seq<Row>, queue: seq<Row>)
    requires AllAsShown(shown, rows) && AllAsShown(shown, queue) && queue != []
    ensures RowAsShown(shown, queue[0]) && AllAsShown(shown, rows + [queue[0]]) && AllAsShown(shown, queue[1..])
  {
    hide RowAsShown;
  }

  /** Still about to send, one row further. */
  lemma BehindTheFirst(env: Env, sys: System, d: Delivery)
    requires AboutToSend(env, sys) && !Me(sys).pc.retried && MayCome(d, sys.db.chatMember)
    requires AllAsShown(env.tree.shown, Me(sys).pc.queue) && |Me(sys).pc.queue| > 1
    ensures var pc := Me(sys).pc;
      var next := Gone(sys, Inserted(env.tree, sys.db, pc.queue[0], sys.db.attemptNo),
        Appending(pc.view + [pc.queue[0]], pc.queue[1..], false, false, pc.after));
      Continue(env, sys, Sending(sys.db.attemptNo, d)) == next && AboutToSend(env, next)
  {
    hide Next, RowAsShown, AllAsShown, Continue, Invariant, Sending;
    var pc := Me(sys).pc;
    ShownAfterOneMore(env.tree.shown, sys.db.rows, pc.queue);
    OneRowIsDelivered(env, sys, d);
    ContinuingKeepsInvariant(env, sys, Sending(sys.db.attemptNo, d));
  }

  /** Every row of the queue is written once, in order, whatever each commit comes to, and
      then the attempt goes where it was to go. */
  lemma {:induction false} AllRowsAreDelivered(env: Env, sys: System, ds: seq<Delivery>)
    requires AboutToSend(env, sys) && !Me(sys).pc.retried && AllMayCome(ds, sys.db.chatMember)
    requires AllAsShown(env.tree.shown, Me(sys).pc.queue) && |ds| == |Me(sys).pc.queue|
    ensures Continue(env, sys, SendingAll(sys.db.attemptNo, ds)) ==
      Gone(sys, AllInserted(env.tree, sys.db, Me(sys).pc.queue, sys.db.attemptNo), AfterPc(Me(sys).pc.after))
    decreases |ds|
  {
    hide Next, RowAsShown, AllAsShown, Continue, Invariant, CheckAuthority, Sending, Inserted;
    var no, pc := sys.db.attemptNo, Me(sys).pc;
    ContinueBoth(env, sys, Sending(no, ds[0]), SendingAll(no, ds[1..]));
    if |ds| == 1 {
      ShownAfterOneMore(env.tree.shown, sys.db.rows, pc.queue);
      OneRowIsDelivered(env, sys, ds[0]);
      NothingMore(env, Continue(env, sys, Sending(no, ds[0])));
      assert pc.queue[1..] == [] && ds[1..] == [];
    } else {
      ShownAfterOneMore(env.tree.shown, sys.db.rows, pc.queue);
      BehindTheFirst(env, sys, ds[0]);
      InsertedStands(env.tree, sys.db, pc.queue[0], no);
      var next := Gone(sys, Inserted(env.tree, sys.db, pc.queue[0], no),
        Appending(pc.view + [pc.queue[0]], pc.queue[1..], false, false, pc.after));
      AllRowsAreDelivered(env, next, ds[1..]);
    }
  }

  lemma InsertedStands(tree: Tree, db: Db, row: Row, no: nat)
    ensures var after := Inserted(tree, db, row, no);
      after.attemptNo == db.attemptNo && after.chatMember == db.chatMember
  {
  }

  // ----- Running tools -----

  function StartAll(no: nat, todo: seq<int>): seq<Event> {
    if todo == [] then [] else StartAll(no, todo[..|todo| - 1]) + [ByAttempt(no, StartTool(todo[|todo| - 1]))]
  }

  function StartedExecs(n: int, todo: seq<int>, no: nat): (r: seq<Exec>)
    ensures |r| == |todo| && forall i | 0 <= i < |r| :: r[i] == Exec(n, todo[i], no)
  {
    seq(|todo|, i requires 0 <= i < |todo| => Exec(n, todo[i], no))
  }

  function Firsts(todo: seq<int>, k: nat): set<int>
    requires k <= |todo|
  {
    set i | 0 <= i < k :: todo[i]
  }

  /** The holder has loaded the log and stands before tools none of which is started. */
  ghost predicate AtTools(sys: System) {
    Leads(sys) && Me(sys).pc.Running? && Me(sys).pc.started == {} && Load(sys.db.rows).Some?
  }

  lemma AtToolsGives(sys: System)
    requires AtTools(sys)
    ensures Me(sys).pc.seen == sys.db.rows && Todo(Load(sys.db.rows).value, Me(sys).pc.todo)
    ensures Distinct(Me(sys).pc.todo)
  {
    hide Load;
  }

  /** Starting the tools one after another starts each once and changes nothing else. */
  lemma {:induction false} ToolsStart(env: Env, sys: System, k: nat)
    requires AtTools(sys) && k <= |Me(sys).pc.todo|
    ensures var pc, n := Me(sys).pc, |Load(sys.db.rows).value.proposals|;
      Continue(env, sys, StartAll(sys.db.attemptNo, pc.todo[..k])) ==
      Gone(sys, sys.db, pc.(started := Firsts(pc.todo, k))).(
        execs := sys.execs + StartedExecs(n, pc.todo[..k], sys.db.attemptNo))
  {
    hide Load, Continue, Invariant, CheckAuthority, Next;
    AtToolsGives(sys);
    var pc, no := Me(sys).pc, sys.db.attemptNo;
    if k == 0 {
      NothingMore(env, sys);
      GoneNowhere(sys);
      assert pc.todo[..0] == [] && sys.execs + [] == sys.execs && Firsts(pc.todo, 0) == {};
    } else {
      ToolsStart(env, sys, k - 1);
      var before := Continue(env, sys, StartAll(no, pc.todo[..k - 1]));
      assert pc.todo[..k][..k - 1] == pc.todo[..k - 1];
      ContinueBoth(env, sys, StartAll(no, pc.todo[..k - 1]), [ByAttempt(no, StartTool(pc.todo[k - 1]))]);
      ContinueWith(env, before, ByAttempt(no, StartTool(pc.todo[k - 1])));
      ToolStarts(env, sys, k - 1);
    }
  }

  lemma ToolStarts(env: Env, sys: System, k: nat)
    requires AtTools(sys) && k < |Me(sys).pc.todo|
    ensures var pc, n, no := Me(sys).pc, |Load(sys.db.rows).value.proposals|, sys.db.attemptNo;
      Next(env,
        Gone(sys, sys.db, pc.(started := Firsts(pc.todo, k))).(execs := sys.execs + StartedExecs(n, pc.todo[..k], no)),
        ByAttempt(no, StartTool(pc.todo[k]))) ==
      Gone(sys, sys.db, pc.(started := Firsts(pc.todo, k + 1))).(
        execs := sys.execs + StartedExecs(n, pc.todo[..k + 1], no))
  {
    hide Load, Invariant;
    AtToolsGives(sys);
    var pc, n, no := Me(sys).pc, |Load(sys.db.rows).value.proposals|, sys.db.attemptNo;
    NotStartedYet(pc.todo, k);
    var before := Gone(sys, sys.db, pc.(started := Firsts(pc.todo, k))).(
      execs := sys.execs + StartedExecs(n, pc.todo[..k], no));
    assert sys.execs + StartedExecs(n, pc.todo[..k + 1], no) == before.execs + [Exec(n, pc.todo[k], no)];
    assert Me(sys).attempt.no == no by { AttemptsAreNumbered(sys); }
  }

  lemma AttemptsAreNumbered(sys: System)
    requires Invariant(sys) && 1 <= sys.db.attemptNo <= |sys.locals|
    ensures Me(sys).attempt.no == sys.db.attemptNo
  {
    hide DbOk, LocalOk;
  }

  lemma NotStartedYet(todo: seq<int>, k: nat)
    requires Distinct(todo) && k < |todo|
    ensures todo[k] in todo && todo[k] !in Firsts(todo, k) && Firsts(todo, k + 1) == Firsts(todo, k) + {todo[k]}
  {
  }

  /** What the tools came to: possible answers of tools that were all started. */
  ghost predicate MayComeBack(env: Env, sys: System, outcomes: seq<ToolOutcome>)
    requires AtTools(sys)
  {
    var p, todo := Load(sys.db.rows).value, Me(sys).pc.todo;
    |p.proposals| > 0 && |outcomes| == |todo| &&
    forall i | 0 <= i < |todo| && outcomes[i].Returned? ::
      0 <= todo[i] < |Last(p).actions| && env.gives(AsProposed(Last(p))[todo[i]], outcomes[i].result)
  }

  function RoundOf(no: nat, todo: seq<int>, outcomes: seq<ToolOutcome>, ds: seq<Delivery>): seq<Event> {
    StartAll(no, todo) + [ByAttempt(no, FinishTools(outcomes))] + SendingAll(no, ds)
  }

  /** One round of tools: each is started once; the valid outcomes before the first that
      overruns the byte budget are written in order, whatever each commit comes to;
      then the attempt is back at the top exactly if every outcome was valid and none
      overran, and otherwise fails, or stops after a tool broke for now. */
  lemma ARoundIsRecorded(env: Env, sys: System, outcomes: seq<ToolOutcome>, ds: seq<Delivery>)
    returns (k: nat, rows: seq<Row>)
    requires AtTools(sys) && MayComeBack(env, sys, outcomes) && AllMayCome(ds, sys.db.chatMember)
    requires AllAsShown(env.tree.shown, sys.db.rows)
    requires forall i | 0 <= i < |outcomes| && outcomes[i].Returned? ::
      RawAsShown(env.tree.shown, outcomes[i].result.output)
    requires |ds| == |Me(sys).pc.todo|
    ensures var p, todo := Load(sys.db.rows).value, Me(sys).pc.todo;
      OverrunsFirst(env.limits, env.size, ResultBytes(env.size, p.proposals), |p.proposals|, todo, outcomes, k) &&
      rows == ValidRows(|p.proposals|, todo[..k], outcomes[..k]) && |rows| <= |ds|
    ensures var p, pc, no := Load(sys.db.rows).value, Me(sys).pc, sys.db.attemptNo;
      var s := Select(env.limits, env.size, ResultBytes(env.size, p.proposals), |p.proposals|, pc.todo, outcomes);
      var after := Continue(env, sys, RoundOf(no, pc.todo, outcomes, ds[..|rows|]));
      after == Gone(sys, AllInserted(env.tree, sys.db, rows, no), AfterPc(AfterSelection(s))).(
        execs := sys.execs + StartedExecs(|p.proposals|, pc.todo, no)) &&
      (Me(after).pc.Top? <==>
        k == |pc.todo| && forall i | 0 <= i < |pc.todo| :: Committable(|p.proposals|, pc.todo[i], outcomes[i])) &&
      (Me(after).pc.Stopped? <==> s.failure == Some(ToolBroke(false)))
  {
    hide Load, Continue, Next, Invariant, AllAsShown, RowAsShown, Select, ResultBytes, Overruns, ValidRows, Committable;
    hide StartAll, SendingAll, AllInserted, StartedExecs, CheckAuthority;
    AtToolsGives(sys);
    var p, pc, no := Load(sys.db.rows).value, Me(sys).pc, sys.db.attemptNo;
    var used := ResultBytes(env.size, p.proposals);
    var s := Select(env.limits, env.size, used, |p.proposals|, pc.todo, outcomes);
    k := SelectedUpToTheFirstOverrun(env.limits, env.size, used, |p.proposals|, pc.todo, outcomes);
    rows := s.rows;
    NoMoreThanOutcomes(|p.proposals|, pc.todo[..k], outcomes[..k]);
    RowsAreShown(env.tree.shown, |p.proposals|, pc.todo[..k], outcomes[..k]);
    TroubleMeansTop(env, used, |p.proposals|, pc.todo, outcomes, k);
    assert ds[..|rows|] <= ds;
    forall i | 0 <= i < |rows| ensures MayCome(ds[..|rows|][i], sys.db.chatMember) {
      assert ds[..|rows|][i] == ds[i];
    }
    RoundIsSent(env, sys, outcomes, ds[..|rows|]);
  }

  /** The rows selected in a round are sent one after another. */
  lemma RoundIsSent(env: Env, sys: System, outcomes: seq<ToolOutcome>, ds: seq<Delivery>)
    requires AtTools(sys) && MayComeBack(env, sys, outcomes) && AllMayCome(ds, sys.db.chatMember)
    requires AllAsShown(env.tree.shown, sys.db.rows)
    requires var p := Load(sys.db.rows).value;
      var s := Select(env.limits, env.size, ResultBytes(env.size, p.proposals), |p.proposals|, Me(sys).pc.todo,
        outcomes);
      AllAsShown(env.tree.shown, s.rows) && |ds| == |s.rows|
    ensures var p, pc, no := Load(sys.db.rows).value, Me(sys).pc, sys.db.attemptNo;
      var s := Select(env.limits, env.size, ResultBytes(env.size, p.proposals), |p.proposals|, pc.todo, outcomes);
      Continue(env, sys, RoundOf(no, pc.todo, outcomes, ds)) ==
      Gone(sys, AllInserted(env.tree, sys.db, s.rows, no), AfterPc(AfterSelection(s))).(
        execs := sys.execs + StartedExecs(|p.proposals|, pc.todo, no))
  {
    hide Load, Continue, Next, Invariant, AllAsShown, RowAsShown, Select, ResultBytes, StartAll, SendingAll;
    hide AllInserted;
    hide StartedExecs, CheckAuthority, AfterSelection;
    var p, pc, no := Load(sys.db.rows).value, Me(sys).pc, sys.db.attemptNo;
    var s := Select(env.limits, env.size, ResultBytes(env.size, p.proposals), |p.proposals|, pc.todo, outcomes);
    var finished := FinishedState(env, sys, outcomes);
    var head := StartAll(no, pc.todo) + [ByAttempt(no, FinishTools(outcomes))];
    ContinueBoth(env, sys, head, SendingAll(no, ds));
    if s.rows == [] {
      assert ds == [];
      NothingMore(env, finished);
      NothingInserted(env.tree, sys.db, no);
    } else {
      ContinuingKeepsInvariant(env, sys, head);
      AllRowsAreDelivered(env, finished, ds);
      GoneTwice(sys, sys.db, Queued(sys.db.rows, s.rows, AfterSelection(s)), AllInserted(env.tree, sys.db, s.rows, no),
        AfterPc(AfterSelection(s)));
    }
  }

  lemma NothingInserted(tree: Tree, db: Db, no: nat)
    ensures AllInserted(tree, db, [], no) == db && SendingAll(no, []) == []
  {
  }

  /** All tools are started. */
  lemma StartedState(env: Env, sys: System) returns (started: System)
    requires AtTools(sys)
    ensures var pc := Me(sys).pc;
      started == Gone(sys, sys.db, pc.(started := Firsts(pc.todo, |pc.todo|))).(
        execs := sys.execs + StartedExecs(|Load(sys.db.rows).value.proposals|, pc.todo, sys.db.attemptNo)) &&
      Continue(env, sys, StartAll(sys.db.attemptNo, pc.todo)) == started
  {
    hide Load, Continue, Invariant, CheckAuthority;
    var pc := Me(sys).pc;
    ToolsStart(env, sys, |pc.todo|);
    assert pc.todo[..|pc.todo|] == pc.todo;
    started := Continue(env, sys, StartAll(sys.db.attemptNo, pc.todo));
  }

  /** They have come back. */
  lemma FinishedState(env: Env, sys: System, outcomes: seq<ToolOutcome>) returns (finished: System)
    requires AtTools(sys) && MayComeBack(env, sys, outcomes)
    ensures var p, pc, no := Load(sys.db.rows).value, Me(sys).pc, sys.db.attemptNo;
      var s := Select(env.limits, env.size, ResultBytes(env.size, p.proposals), |p.proposals|, pc.todo, outcomes);
      finished == Gone(sys, sys.db, Queued(sys.db.rows, s.rows, AfterSelection(s))).(
        execs := sys.execs + StartedExecs(|p.proposals|, pc.todo, no)) &&
      Continue(env, sys, StartAll(no, pc.todo) + [ByAttempt(no, FinishTools(outcomes))]) == finished
  {
    hide Load, Continue, Invariant, Select, ResultBytes, CheckAuthority;
    AtToolsGives(sys);
    var pc, no := Me(sys).pc, sys.db.attemptNo;
    var started := StartedState(env, sys);
    ContinueBoth(env, sys, StartAll(no, pc.todo), [ByAttempt(no, FinishTools(outcomes))]);
    ContinueWith(env, started, ByAttempt(no, FinishTools(outcomes)));
    finished := Next(env, started, ByAttempt(no, FinishTools(outcomes)));
    AllStarted(pc.todo);
    StepGoes(env, started, FinishTools(outcomes));
    GoneTwice(sys, sys.db, pc.(started := Firsts(pc.todo, |pc.todo|)), sys.db, Me(finished).pc);
  }

  lemma AllStarted(todo: seq<int>)
    ensures forall i | 0 <= i < |todo| :: todo[i] in Firsts(todo, |todo|)
  {
  }

  lemma {:induction false} NoMoreThanOutcomes(no: int, todo: seq<int>, outcomes: seq<ToolOutcome>)
    requires |todo| == |outcomes|
    ensures |ValidRows(no, todo, outcomes)| <= |todo|
    decreases |todo|
  {
    hide Committable;
    if todo != [] {
      NoMoreThanOutcomes(no, todo[..|todo| - 1], outcomes[..|todo| - 1]);
    }
  }

  lemma {:induction false} RowsAreShown(shown: string -> string, no: int, todo: seq<int>, outcomes: seq<ToolOutcome>)
    requires |todo| == |outcomes|
    requires forall i | 0 <= i < |outcomes| && outcomes[i].Returned? :: RawAsShown(shown, outcomes[i].result.output)
    ensures AllAsShown(shown, ValidRows(no, todo, outcomes))
    decreases |todo|
  {
    hide RawAsShown, WellFormed, INTERRUPTED;
    if todo != [] {
      var n := |todo| - 1;
      RowsAreShown(shown, no, todo[..n], outcomes[..n]);
    }
  }

  /** The attempt is back at the top exactly if all went well. */
  lemma TroubleMeansTop(env: Env, used: nat, no: int, todo: seq<int>, outcomes: seq<ToolOutcome>, k: nat)
    requires |todo| == |outcomes| && OverrunsFirst(env.limits, env.size, used, no, todo, outcomes, k)
    ensures var s := Select(env.limits, env.size, used, no, todo, outcomes);
      (AfterSelection(s).BackToTop? <==>
        k == |todo| && forall i | 0 <= i < |todo| :: Committable(no, todo[i], outcomes[i])) &&
      (AfterSelection(s).ThenStop? <==> s.failure == Some(ToolBroke(false)))
  {
    hide Select, Committable, TroubleAt;
    var s := Select(env.limits, env.size, used, no, todo, outcomes);
    var first := SelectedUpToTheFirstOverrun(env.limits, env.size, used, no, todo, outcomes);
    OneFirstOverrun(env.limits, env.size, used, no, todo, outcomes, first, k);
    FirstTroubleIsReported(env.limits, env.size, used, no, todo, outcomes, k);
    if s.failure.None? && !s.overBudget {
      SelectedWithoutTrouble(env.limits, env.size, used, no, todo, outcomes);
    }
    if s.failure.Some? {
      var i :| 0 <= i < |todo| && TroubleAt(no, todo[i], outcomes[i], i > k) == s.failure;
      TroubleIsNotCommittable(no, todo[i], outcomes[i], i > k);
    }
  }

  lemma TroubleIsNotCommittable(no: int, index: int, outcome: ToolOutcome, overrun: bool)
    requires TroubleAt(no, index, outcome, overrun).Some?
    ensures !Committable(no, index, outcome)
  {
  }

  // ----- From the top of the loop -----

  /** The holder is at the top and can read the log. */
  ghost predicate AtTop(env: Env, sys: System) {
    Leads(sys) && Me(sys).pc.Top? && AllAsShown(env.tree.shown, sys.db.rows) && Load(sys.db.rows).Some?
  }

  /** This action of the last batch is open and may not be run again. */
  ghost predicate IsUnsafeAt(env: Env, p: Prefix, i: int) {
    |p.proposals| > 0 && i in Missing(p) && Last(p).actions[i].name !in env.safe
  }

  /** Interrupted results for exactly the open actions that may not be run again, in index
      order. */
  ghost predicate ClosesTheUnsafe(env: Env, p: Prefix, queue: seq<Row>) {
    (forall j | 0 <= j < |queue| ::
      queue[j].ResultRow? && queue[j].no == |p.proposals| && queue[j].result == INTERRUPTED &&
      IsUnsafeAt(env, p, queue[j].index)) &&
    (forall i, j | 0 <= i < j < |queue| :: RowIndex(queue[i]) < RowIndex(queue[j])) &&
    (forall i | IsUnsafeAt(env, p, i) :: exists j :: 0 <= j < |queue| && RowIndex(queue[j]) == i)
  }

  function RowIndex(row: Row): int {
    if row.ResultRow? then row.index else -1
  }

  /** Some open action may not be run again. */
  ghost predicate UnsafeIsOpen(env: Env, p: Prefix) {
    exists i :: IsUnsafeAt(env, p, i)
  }

  lemma UnsafeCloses(env: Env, p: Prefix, pending: seq<AcceptedAction>)
    requires Shape(p) && OpenActions(p) == Some(pending)
    ensures ClosesTheUnsafe(env, p, Closings(|p.proposals|, Unsafe(env.safe, pending)))
    ensures Unsafe(env.safe, pending) != [] <==> UnsafeIsOpen(env, p)
  {
    hide Shape, PendingOf, INTERRUPTED, Missing, Unsafe, IsUnsafeAt;
    PendingIncreases(p);
    var unknown := Unsafe(env.safe, pending);
    UnsafeKeepOrder(env.safe, pending);
    var queue := Closings(|p.proposals|, unknown);
    forall j | 0 <= j < |queue| ensures IsUnsafeAt(env, p, queue[j].index) {
      UnsafeAreOpen(env, p, pending, j);
    }
    forall i | IsUnsafeAt(env, p, i) ensures exists j :: 0 <= j < |queue| && RowIndex(queue[j]) == i {
      var j := OpenUnsafeIsThere(env, p, pending, i);
      assert RowIndex(queue[j]) == i;
    }
    if unknown != [] {
      assert IsUnsafeAt(env, p, queue[0].index);
    }
  }

  lemma UnsafeAreOpen(env: Env, p: Prefix, pending: seq<AcceptedAction>, j: nat)
    requires Shape(p) && OpenActions(p) == Some(pending) && j < |Unsafe(env.safe, pending)|
    ensures IsUnsafeAt(env, p, Unsafe(env.safe, pending)[j].index)
  {
    hide Shape, PendingOf, Missing;
    PendingIsMissing(p);
    assert Unsafe(env.safe, pending)[j] in Unsafe(env.safe, pending);
  }

  lemma OpenUnsafeIsThere(env: Env, p: Prefix, pending: seq<AcceptedAction>, i: int) returns (j: nat)
    requires Shape(p) && OpenActions(p) == Some(pending) && IsUnsafeAt(env, p, i)
    ensures j < |Unsafe(env.safe, pending)| && Unsafe(env.safe, pending)[j].index == i
  {
    hide Shape, PendingOf;
    OpenIsMissing(p, i);
    j :| 0 <= j < |Unsafe(env.safe, pending)| && Unsafe(env.safe, pending)[j] == Last(p).actions[i];
  }

  /** Where loading the log leads: to publishing the Final it ends with; to closing what an
      earlier attempt left behind and may not be run again, once, at the start of a later
      attempt; to the right tools; or, with nothing open, to reading messages. */
  lemma LoadingLeadsOn(env: Env, sys: System)
    requires AtTop(env, sys)
    ensures var p, l := Load(sys.db.rows).value, Me(sys);
      var after := Next(env, sys, ByAttempt(sys.db.attemptNo, LoadLog));
      after.db == sys.db && after.execs == sys.execs && after.locals == sys.locals[sys.db.attemptNo - 1 := Me(after)] &&
      Me(after).attempt == l.attempt &&
      (p.final.Some? ==> Me(after).pc == Publishing(p.final.value, false, false)) &&
      (p.final.None? ==> !Me(after).boundary) &&
      (p.final.None? && !HasIncompleteProposal(p) ==> Me(after).pc == Steerable(sys.db.rows)) &&
      (p.final.None? && HasIncompleteProposal(p) ==>
        if l.boundary && l.attempt.no > 1 && UnsafeIsOpen(env, p) then
          Me(after).pc.Appending? && Me(after).pc.view == sys.db.rows && ClosesTheUnsafe(env, p, Me(after).pc.queue) &&
          Me(after).pc == Appending(sys.db.rows, Me(after).pc.queue, false, false, BackToTop)
        else
          Me(after).pc.Running? && Me(after).pc.seen == sys.db.rows && Me(after).pc.started == {} &&
          RightToRun(env, p, Me(after).pc.todo))
  {
    hide Load, Invariant, AllAsShown, CheckAuthority, Unsafe, Chosen, Closings, Missing, RightToRun, ClosesTheUnsafe;
    hide UnsafeIsOpen, PendingOf;
    var p := Load(sys.db.rows).value;
    LoadHasShape(sys.db.rows);
    OpenExactlyWhenIncomplete(p);
    if OpenActions(p).Some? {
      UnsafeCloses(env, p, OpenActions(p).value);
      ChosenIsRight(env, p, OpenActions(p).value);
    }
  }

  /** The rows for these messages, for the next decision. */
  function MessageRows(no: int, messages: seq<Message>): (r: seq<Row>)
    ensures |r| == |messages|
    ensures forall i | 0 <= i < |r| :: r[i] == SteeringRow(no, messages[i].id, messages[i].content)
  {
    seq(|messages|, i requires 0 <= i < |messages| => SteeringRow(no, messages[i].id, messages[i].content))
  }

  /** The messages up to the first malformed one. */
  ghost predicate GoodUpTo(no: int, messages: seq<Message>, k: nat) {
    k <= |messages| && (forall i | 0 <= i < k :: WellFormed(MessageRows(no, messages)[i])) &&
    (k < |messages| ==> !WellFormed(MessageRows(no, messages)[k]))
  }

  lemma {:induction false} QueueIsTheGoodMessages(no: int, messages: seq<Message>) returns (k: nat)
    ensures GoodUpTo(no, messages, k) && SteeringQueue(no, messages) == MessageRows(no, messages)[..k]
    decreases |messages|
  {
    hide WellFormed;
    if messages == [] || !WellFormed(SteeringRow(no, messages[0].id, messages[0].content)) {
      k := 0;
    } else {
      var rest := QueueIsTheGoodMessages(no, messages[1..]);
      k := rest + 1;
      assert MessageRows(no, messages)[..k] == [MessageRows(no, messages)[0]] + MessageRows(no, messages[1..])[..rest];
      forall i | 0 <= i < k ensures WellFormed(MessageRows(no, messages)[i]) {
        if i > 0 {
          assert WellFormed(MessageRows(no, messages[1..])[i - 1]);
        }
      }
    }
  }

  /** The holder has read the whole log and nothing in it is open. */
  ghost predicate BetweenDecisions(env: Env, sys: System) {
    Leads(sys) && Me(sys).pc == Steerable(sys.db.rows) && AllAsShown(env.tree.shown, sys.db.rows) &&
    Load(sys.db.rows).Some?
  }

  /** Messages found between two decisions are written before the next decision is asked
      for: all of them up to the first malformed one, in order, each once, whatever the
      commits come to. Then the attempt looks again, or fails at the malformed one. */
  lemma MessagesAreDelivered(env: Env, sys: System, messages: seq<Message>, ds: seq<Delivery>) returns (k: nat)
    requires BetweenDecisions(env, sys) && Undelivered(sys.db.rows, messages) && messages != [] && env.steers
    requires AllMayCome(ds, sys.db.chatMember) && |ds| == |messages|
    ensures var no := Load(sys.db.rows).value.decisions + 1;
      GoodUpTo(no, messages, k) &&
      Continue(env, sys, [ByAttempt(sys.db.attemptNo, ReadSteering(messages))] +
        SendingAll(sys.db.attemptNo, ds[..k])) ==
      Gone(sys, AllInserted(env.tree, sys.db, MessageRows(no, messages)[..k], sys.db.attemptNo),
        if k == |messages| then Top else Failing)
  {
    hide Load, Continue, Next, Invariant, AllAsShown, RowAsShown, CheckAuthority, Undelivered, SteeringQueue;
    hide WellFormed;
    hide SendingAll, AllInserted;
    var no, me := Load(sys.db.rows).value.decisions + 1, sys.db.attemptNo;
    k := QueueIsTheGoodMessages(no, messages);
    var queue := MessageRows(no, messages)[..k];
    var after := if k == |messages| then BackToTop else ThenFail;
    StepGoes(env, sys, ReadSteering(messages));
    var read := Next(env, sys, ByAttempt(me, ReadSteering(messages)));
    assert read == Gone(sys, sys.db, Queued(sys.db.rows, queue, after));
    ContinueBoth(env, sys, [ByAttempt(me, ReadSteering(messages))], SendingAll(me, ds[..k]));
    ContinueWith(env, sys, ByAttempt(me, ReadSteering(messages)));
    if queue == [] {
      NothingMore(env, read);
      NothingInserted(env.tree, sys.db, me);
    } else {
      NextKeepsInvariant(env, sys, ByAttempt(me, ReadSteering(messages)));
      MessagesAreShown(env.tree.shown, no, messages, k);
      AllRowsAreDelivered(env, read, ds[..k]);
      GoneTwice(sys, sys.db, Queued(sys.db.rows, queue, after), AllInserted(env.tree, sys.db, queue, me),
        AfterPc(after));
    }
  }

  lemma MessagesAreShown(shown: string -> string, no: int, messages: seq<Message>, k: nat)
    requires k <= |messages|
    ensures AllAsShown(shown, MessageRows(no, messages)[..k])
  {
  }

  /** The model is asked only when a look found no message. */
  lemma AskedOnlyWithNothingUndelivered(env: Env, db: Db, l: Local, step: Step)
    requires Move(env, db, l, step).pc.Deciding? && !l.pc.Deciding?
    ensures l.pc.Steerable? && step == ReadSteering([]) && Move(env, db, l, step).pc.seen == l.pc.seen
  {
    hide Load, ReadLog, CheckAuthority, OpenActions, Possible, Select, ResultBytes, Undelivered, SteeringQueue;
    hide FailTx, PublishTx, ReconcilePublication, Closings, Unsafe, Chosen, AppendTx, Reconcile;
  }

  // ----- Decisions -----

  /** What the holder may ask the model, and what answer it may accept. */
  ghost predicate MayDecide(env: Env, p: Prefix, step: Step)
    requires step.Decide?
  {
    var offer := OfferFor(env.limits, p, step.spent, step.wrapUp, step.advertised);
    Advertisable(offer, step.advertised) && (offer.definitions != {} || env.limits.finalDecisionLimit >= 1)
  }

  /** The row an accepted answer becomes. */
  function DecisionRow(p: Prefix, step: Step): Row
    requires step.Decide? && step.answer.Accepted?
  {
    match step.answer.decision
    case ProposalDecision(actions) => ProposalRow(p.decisions + 1, actions)
    case FinalDecision(_) => FinalRow(p.decisions + 1, step.prepared)
  }

  /** The answer passes the check made of it and is one the model may give. */
  ghost predicate MayAccept(env: Env, p: Prefix, step: Step)
    requires step.Decide? && step.answer.Accepted?
  {
    var offer := OfferFor(env.limits, p, step.spent, step.wrapUp, step.advertised);
    var decision := step.answer.decision;
    DecisionAllowed(env.limits, p, offer, decision) && WellFormed(DecisionRow(p, step)) &&
    (if decision.ProposalDecision? then offer.definitions != {} && env.decides(p, decision)
     else env.decides(p, FinalDecision(step.prepared)))
  }

  lemma DecidingHere(env: Env, sys: System)
    requires BetweenDecisions(env, sys)
    ensures Next(env, sys, ByAttempt(sys.db.attemptNo, ReadSteering([]))) ==
      Gone(sys, sys.db, Deciding(sys.db.rows))
  {
    hide Load, Invariant, AllAsShown, CheckAuthority;
    StepGoes(env, sys, ReadSteering([]));
  }

  /** An accepted answer of the model, tool batch or Final, becomes the next row of the log,
      once, whatever the commit comes to. */
  lemma AnAnswerIsRecorded(env: Env, sys: System, step: Step, d: Delivery)
    requires BetweenDecisions(env, sys) && MayCome(d, sys.db.chatMember) && step.Decide? && step.answer.Accepted?
    requires MayDecide(env, Load(sys.db.rows).value, step) && MayAccept(env, Load(sys.db.rows).value, step)
    requires RowAsShown(env.tree.shown, DecisionRow(Load(sys.db.rows).value, step))
    ensures var row, no := DecisionRow(Load(sys.db.rows).value, step), sys.db.attemptNo;
      Continue(env, sys, [ByAttempt(no, ReadSteering([])), ByAttempt(no, step)] + Sending(no, d)) ==
      Gone(sys, Inserted(env.tree, sys.db, row, no), Top)
  {
    hide Load, Continue, Next, Invariant, AllAsShown, RowAsShown, CheckAuthority, WellFormed, DecisionAllowed, OfferFor;
    hide Advertisable, Inserted, Sending;
    var p, no := Load(sys.db.rows).value, sys.db.attemptNo;
    var row := DecisionRow(p, step);
    DecidingHere(env, sys);
    var deciding := Gone(sys, sys.db, Deciding(sys.db.rows));
    NextKeepsInvariant(env, sys, ByAttempt(no, ReadSteering([])));
    StepGoes(env, deciding, step);
    var sending := Next(env, deciding, ByAttempt(no, step));
    GoneTwice(sys, sys.db, Deciding(sys.db.rows), sys.db, Queued(sys.db.rows, [row], BackToTop));
    assert sending == Gone(sys, sys.db, Appending(sys.db.rows, [row], false, false, BackToTop));
    NextKeepsInvariant(env, deciding, ByAttempt(no, step));
    SendTheRow(env, sys, sending, row, d);
    ContinueBoth(env, sys, [ByAttempt(no, ReadSteering([])), ByAttempt(no, step)], Sending(no, d));
    ContinueBoth(env, sys, [ByAttempt(no, ReadSteering([]))], [ByAttempt(no, step)]);
    ContinueWith(env, sys, ByAttempt(no, ReadSteering([])));
    ContinueWith(env, deciding, ByAttempt(no, step));
    assert [ByAttempt(no, ReadSteering([]))] + [ByAttempt(no, step)] ==
      [ByAttempt(no, ReadSteering([])), ByAttempt(no, step)];
  }

  lemma SendTheRow(env: Env, sys: System, sending: System, row: Row, d: Delivery)
    requires Leads(sys) && Invariant(sending) && AllAsShown(env.tree.shown, sys.db.rows)
    requires MayCome(d, sys.db.chatMember)
    requires sending == Gone(sys, sys.db, Appending(sys.db.rows, [row], false, false, BackToTop))
    requires RowAsShown(env.tree.shown, row)
    ensures Continue(env, sending, Sending(sys.db.attemptNo, d)) ==
      Gone(sys, Inserted(env.tree, sys.db, row, sys.db.attemptNo), Top)
  {
    hide Continue, Invariant, AllAsShown, RowAsShown, CheckAuthority, Inserted, Sending;
    OneRowIsDelivered(env, sending, d);
    InsertedStands(env.tree, sys.db, row, sys.db.attemptNo);
    GoneTwice(sys, sys.db, sending.locals[sys.db.attemptNo - 1].pc, Inserted(env.tree, sys.db, row, sys.db.attemptNo),
      Top);
  }

  /** The contextualized search becomes the next row of the log in the same way. */
  lemma ASearchIsRecorded(env: Env, sys: System, step: Step, d: Delivery)
    requires BetweenDecisions(env, sys) && MayCome(d, sys.db.chatMember) && step.Contextualize?
    requires step.search.name == "search_evidence"
    requires var p := Load(sys.db.rows).value;
      var offer := OfferFor(env.limits, p, step.spent, step.wrapUp, step.advertised);
      Advertisable(offer, step.advertised) && env.decides(p, ProposalDecision([step.search])) &&
      "search_evidence" in offer.definitions && WellFormed(ProposalRow(p.decisions + 1, [step.search]))
    requires RawAsShown(env.tree.shown, step.search.input)
    ensures var row, no := ProposalRow(Load(sys.db.rows).value.decisions + 1, [step.search]), sys.db.attemptNo;
      Continue(env, sys, [ByAttempt(no, ReadSteering([])), ByAttempt(no, step)] + Sending(no, d)) ==
      Gone(sys, Inserted(env.tree, sys.db, row, no), Top)
  {
    hide Load, Continue, Next, Invariant, AllAsShown, CheckAuthority, WellFormed, OfferFor, Advertisable, Inserted;
    hide Sending;
    var p, no := Load(sys.db.rows).value, sys.db.attemptNo;
    var row := ProposalRow(p.decisions + 1, [step.search]);
    DecidingHere(env, sys);
    var deciding := Gone(sys, sys.db, Deciding(sys.db.rows));
    NextKeepsInvariant(env, sys, ByAttempt(no, ReadSteering([])));
    StepGoes(env, deciding, step);
    var sending := Next(env, deciding, ByAttempt(no, step));
    GoneTwice(sys, sys.db, Deciding(sys.db.rows), sys.db, Queued(sys.db.rows, [row], BackToTop));
    assert sending == Gone(sys, sys.db, Appending(sys.db.rows, [row], false, false, BackToTop));
    NextKeepsInvariant(env, deciding, ByAttempt(no, step));
    SendTheRow(env, sys, sending, row, d);
    ContinueBoth(env, sys, [ByAttempt(no, ReadSteering([])), ByAttempt(no, step)], Sending(no, d));
    ContinueBoth(env, sys, [ByAttempt(no, ReadSteering([]))], [ByAttempt(no, step)]);
    ContinueWith(env, sys, ByAttempt(no, ReadSteering([])));
    ContinueWith(env, deciding, ByAttempt(no, step));
    assert [ByAttempt(no, ReadSteering([]))] + [ByAttempt(no, step)] ==
      [ByAttempt(no, ReadSteering([])), ByAttempt(no, step)];
  }

  // ----- Publishing -----

  function Publishings(no: nat, d: Delivery): seq<Event> {
    match d
    case Acknowledged => [ByAttempt(no, SendPublish(Acked))]
    case SentAgain =>
      [ByAttempt(no, SendPublish(RolledBack)), ByAttempt(no, CheckPublish(true)), ByAttempt(no, SendPublish(Acked))]
    case AnswerLost =>
      [ByAttempt(no, SendPublish(Unanswered)), Settle(true), ByAttempt(no, CheckPublish(true))]
    case DoubtDissolved =>
      [ByAttempt(no, SendPublish(Unanswered)), Settle(false), ByAttempt(no, CheckPublish(true)),
       ByAttempt(no, SendPublish(Acked))]
  }

  ghost predicate AboutToPublish(env: Env, sys: System) {
    Leads(sys) && Me(sys).pc.Publishing? && !Me(sys).pc.asking && AllAsShown(env.tree.shown, sys.db.rows)
  }

  lemma PublishedAtOnce(env: Env, sys: System)
    requires AboutToPublish(env, sys)
    ensures Next(env, sys, ByAttempt(sys.db.attemptNo, SendPublish(Acked))) ==
      Gone(sys, Published(sys.db, Me(sys).pc.text), Stopped(true))
    ensures Next(env, sys, ByAttempt(sys.db.attemptNo, SendPublish(RolledBack))) ==
      Gone(sys, sys.db, Me(sys).pc.(asking := true))
    ensures Next(env, sys, ByAttempt(sys.db.attemptNo, SendPublish(Unanswered))) ==
      Gone(sys, sys.db.(inDoubt := Some(DoubtfulPublish(Me(sys).pc.text))), Me(sys).pc.(asking := true))
  {
    hide Load, WellFormed, AllAsShown, CheckAuthority, Published;
    PublishableText(sys);
    StepGoes(env, sys, SendPublish(Acked));
    StepGoes(env, sys, SendPublish(RolledBack));
    StepGoes(env, sys, SendPublish(Unanswered));
  }

  lemma PublishableText(sys: System)
    requires Leads(sys) && Me(sys).pc.Publishing?
    ensures Load(sys.db.rows).Some? && Load(sys.db.rows).value.final == Some(Me(sys).pc.text)
    ensures WellFormed(FinalRow(1, Me(sys).pc.text))
  {
    hide Load, WellFormed;
    assert LocalOk(sys.db, Me(sys)) && Owns(sys.db, Me(sys));
    FinalIsWellFormed(sys.db.rows, Me(sys).pc.text);
  }

  lemma AskingAgain(env: Env, sys: System)
    requires Leads(sys) && Me(sys).pc.Publishing? && Me(sys).pc.asking && !Me(sys).pc.again
    ensures Next(env, sys, ByAttempt(sys.db.attemptNo, CheckPublish(true))) ==
      Gone(sys, sys.db, Me(sys).pc.(again := true, asking := false))
  {
    hide Invariant;
    StepGoes(env, sys, CheckPublish(true));
  }

  lemma FoundPublished(env: Env, sys: System, text: string)
    requires 1 <= sys.db.attemptNo <= |sys.locals| && Me(sys).pc.Publishing? && Me(sys).pc.asking
    requires sys.db.run.RunCompleted? && sys.db.job.JobSucceeded? && sys.db.messages != []
    ensures Next(env, sys, ByAttempt(sys.db.attemptNo, CheckPublish(true))) == Gone(sys, sys.db, Stopped(true))
  {
    StepGoes(env, sys, CheckPublish(true));
  }

  /** Standing before a publication, whatever the commits come to, the Run is completed
      with the Final of its log, and the attempt knows it. */
  lemma AFinalIsPublished(env: Env, sys: System, d: Delivery)
    requires AboutToPublish(env, sys) && !Me(sys).pc.again
    ensures Continue(env, sys, Publishings(sys.db.attemptNo, d)) ==
      Gone(sys, Published(sys.db, Me(sys).pc.text), Stopped(true))
    ensures Load(sys.db.rows).Some? && Load(sys.db.rows).value.final == Some(Me(sys).pc.text)
  {
    hide Next, Continue, AllAsShown, Invariant, Load;
    var no, pc := sys.db.attemptNo, Me(sys).pc;
    PublishableText(sys);
    PublishedAtOnce(env, sys);
    match d {
      case Acknowledged => ContinueWith(env, sys, ByAttempt(no, SendPublish(Acked)));
      case SentAgain =>
        NextKeepsInvariant(env, sys, ByAttempt(no, SendPublish(RolledBack)));
        PublishedAgain(env, sys);
        ThreeSteps(env, sys, ByAttempt(no, SendPublish(RolledBack)), ByAttempt(no, CheckPublish(true)),
          ByAttempt(no, SendPublish(Acked)));
      case AnswerLost =>
        var doubtful := sys.db.(inDoubt := Some(DoubtfulPublish(pc.text)));
        SettledNext(env, sys, doubtful, pc.(asking := true), true);
        assert sys.db.(inDoubt := None) == sys.db;
        var published := Gone(sys, Published(sys.db, pc.text), pc.(asking := true));
        FoundPublished(env, published, pc.text);
        GoneTwice(sys, published.db, pc.(asking := true), published.db, Stopped(true));
        ThreeSteps(env, sys, ByAttempt(no, SendPublish(Unanswered)), Settle(true), ByAttempt(no, CheckPublish(true)));
      case DoubtDissolved =>
        NextKeepsInvariant(env, sys, ByAttempt(no, SendPublish(RolledBack)));
        var doubtful := sys.db.(inDoubt := Some(DoubtfulPublish(pc.text)));
        SettledNext(env, sys, doubtful, pc.(asking := true), false);
        assert sys.db.(inDoubt := None) == sys.db;
        PublishedAgain(env, sys);
        FourSteps(env, sys, ByAttempt(no, SendPublish(Unanswered)), Settle(false), ByAttempt(no, CheckPublish(true)),
          ByAttempt(no, SendPublish(Acked)));
    }
  }

  /** After a look that found the Run under way the second try publishes. */
  lemma PublishedAgain(env: Env, sys: System)
    requires AboutToPublish(env, sys) && !Me(sys).pc.again && Invariant(Gone(sys, sys.db, Me(sys).pc.(asking := true)))
    ensures var no := sys.db.attemptNo;
      var asked := Next(env, Gone(sys, sys.db, Me(sys).pc.(asking := true)), ByAttempt(no, CheckPublish(true)));
      Next(env, asked, ByAttempt(no, SendPublish(Acked))) ==
        Gone(sys, Published(sys.db, Me(sys).pc.text), Stopped(true))
  {
    hide Next, AllAsShown, Invariant, Published;
    var no, pc := sys.db.attemptNo, Me(sys).pc;
    var waiting := Gone(sys, sys.db, pc.(asking := true));
    AskingAgain(env, waiting);
    NextKeepsInvariant(env, waiting, ByAttempt(no, CheckPublish(true)));
    var asked := Next(env, waiting, ByAttempt(no, CheckPublish(true)));
    GoneTwice(sys, sys.db, pc.(asking := true), sys.db, pc.(again := true, asking := false));
    PublishedAtOnce(env, asked);
    GoneTwice(sys, sys.db, pc.(again := true, asking := false), Published(sys.db, pc.text), Stopped(true));
  }

  // ----- Setbacks -----

  /** Without authority the attempt stops wherever it notices: at the top, before asking the
      model is believed, and at a write; only a member who left is looked after first. */
  lemma WithoutAuthorityItStops(env: Env, sys: System)
    requires 1 <= sys.db.attemptNo <= |sys.locals| && sys.db.inDoubt.None?
    requires CheckAuthority(sys.db, Me(sys).attempt) != Held
    ensures Me(sys).pc.Top? ==> Move(env, sys.db, Me(sys), LoadLog).pc == Stopped(false)
    ensures Me(sys).pc.Appending? && Me(sys).pc.queue != [] && !Me(sys).pc.checking ==>
      Move(env, sys.db, Me(sys), SendAppend(Acked)).pc ==
      if CheckAuthority(sys.db, Me(sys).attempt).Unauthorized? then Me(sys).pc.(checking := true) else Stopped(false)
    ensures Me(sys).pc.Appending? && Me(sys).pc.queue != [] && !Me(sys).pc.checking ==>
      Move(env, sys.db, Me(sys), SendAppend(Acked)).db == sys.db
  {
    hide Load, CheckAuthority, ReadLog;
  }

  /** A log with a number the server rewrote fails the Run, when it is loaded and when it is
      to be written to. */
  lemma AnUnreadableLogFails(env: Env, sys: System)
    requires Leads(sys) && !AllAsShown(env.tree.shown, sys.db.rows)
    ensures Me(sys).pc.Top? ==> Move(env, sys.db, Me(sys), LoadLog) == Goes(sys.db, Me(sys), Failing)
    ensures Me(sys).pc.Appending? && !Me(sys).pc.checking ==>
      Move(env, sys.db, Me(sys), SendAppend(Acked)) == Goes(sys.db, Me(sys), Failing)
  {
    hide Load, AppendTx, RowAsShown, AllAsShown, CheckAuthority;
    if Me(sys).pc.Appending? {
      assert LocalOk(sys.db, Me(sys));
      HolderIsNeverRefused(env.tree, sys.db, Me(sys));
    }
  }

  /** The holder is about to ask the model. */
  ghost predicate Asks(sys: System) {
    Leads(sys) && Me(sys).pc == Deciding(sys.db.rows) && Load(sys.db.rows).Some?
  }

  /** When asking the model ends a Run: with no tool on offer and no Final in reserve; when the
      model was given up on for invalid replies or overflow; when it proposes tools
      although none is on offer; and when its decision cannot be made into a row. An
      outage only stops the attempt. */
  lemma AskingFailsExactly(env: Env, sys: System, step: Step)
    requires Asks(sys) && step.Decide?
    requires var p := Load(sys.db.rows).value;
      var offer := OfferFor(env.limits, p, step.spent, step.wrapUp, step.advertised);
      Advertisable(offer, step.advertised) &&
      (step.answer.Accepted? ==>
         DecisionAllowed(env.limits, p, offer, step.answer.decision) &&
         env.decides(p, if step.answer.decision.FinalDecision? then FinalDecision(step.prepared)
         else step.answer.decision))
    ensures var p := Load(sys.db.rows).value;
      var none := OfferFor(env.limits, p, step.spent, step.wrapUp, step.advertised).definitions == {};
      var m := Move(env, sys.db, Me(sys), step);
      (m.pc.Failing? <==>
        (none && env.limits.finalDecisionLimit < 1) || step.answer.GaveUpInvalid? || step.answer.GaveUpOverflow? ||
        (step.answer.Accepted? &&
         ((none && step.answer.decision.ProposalDecision?) || !WellFormed(DecisionRow(p, step))))) &&
      (m.pc.Stopped? <==> step.answer.GaveUpOther? && !(none && env.limits.finalDecisionLimit < 1)) &&
      m.db == sys.db && m.execs == []
  {
    hide Load, Invariant, CheckAuthority, WellFormed, DecisionAllowed, OfferFor, Advertisable;
  }

  // ----- Failing -----

  /** An attempt that gives up fails Run and job together, acknowledged or not; for that it
      needs its live lease, but neither deadline nor membership. */
  lemma AFailureIsRecorded(env: Env, sys: System)
    requires Invariant(sys) && 1 <= sys.db.attemptNo <= |sys.locals| && sys.db.inDoubt.None? && Me(sys).pc.Failing?
    requires sys.db.run.RunRunning? && sys.db.leaseLive
    ensures var no := sys.db.attemptNo;
      Next(env, sys, ByAttempt(no, SendFail(Acked))) == Gone(sys, Failed(sys.db), Stopped(false)) &&
      Continue(env, sys, [ByAttempt(no, SendFail(Unanswered)), Settle(true)]) ==
        Gone(sys, Failed(sys.db), Stopped(false))
  {
    hide Load, Continue, LocalOk;
    var no := sys.db.attemptNo;
    assert FailTx(sys.db, Me(sys).attempt) == Commits(Failed(sys.db));
    StepGoes(env, sys, SendFail(Acked));
    StepGoes(env, sys, SendFail(Unanswered));
    var doubtful := sys.db.(inDoubt := Some(DoubtfulFail));
    SettledNext(env, sys, doubtful, Stopped(false), true);
    assert sys.db.(inDoubt := None) == sys.db;
    ContinueBoth(env, sys, [ByAttempt(no, SendFail(Unanswered))], [Settle(true)]);
    assert [ByAttempt(no, SendFail(Unanswered))] + [Settle(true)] ==
      [ByAttempt(no, SendFail(Unanswered)), Settle(true)];
    ContinueWith(env, sys, ByAttempt(no, SendFail(Unanswered)));
    ContinueWith(env, Gone(sys, doubtful, Stopped(false)), Settle(true));
  }
}

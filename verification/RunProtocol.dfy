/** A Run as a transition system: one controller loop per attempt, split at every
    durable write, and everything that may happen around it. A step that is not
    possible in a state leaves the state as it is. */
module RunProtocol {
  import opened Basics
  import opened Json
  import opened Identities
  import opened Checkpoints
  import opened CheckpointPrefixes
  import opened PendingActions
  import opened Controller
  import opened RunStore

  /** What stays fixed. `safe` names the tools that may be run again after a
      crash, `parallel` those that may run beside each other. `gives` and
      `decides` say what tools and model may answer; `steers` whether the member
      may send messages to the Run. */
  datatype Env = Env(
    tree: Tree, limits: Limits, safe: set<string>, parallel: set<string>, size: Row -> nat,
    gives: (Proposed, ActionResult) -> bool, decides: (Prefix, Decision) -> bool, steers: bool)

  /** A tool was started for an action of the log, by this attempt. */
  datatype Exec = Exec(no: int, index: int, attempt: nat)

  datatype After = BackToTop | ThenFail | ThenStop

  /** Where an attempt stands. `Appending.view` is what the log held before the
      first queued row; only proofs look at it. */
  datatype Pc =
    | Top
    | Running(seen: seq<Row>, todo: seq<int>, started: set<int>)
    | Steerable(seen: seq<Row>)
    | Deciding(seen: seq<Row>)
    | Appending(view: seq<Row>, queue: seq<Row>, retried: bool, checking: bool, after: After)
    | Failing
    | Publishing(text: string, again: bool, asking: bool)
    | Stopped(published: bool)

  datatype Local = Local(attempt: Attempt, boundary: bool, pc: Pc)

  /** The Run, its attempts (number n at position n - 1), the lease tokens used
      so far, every start of a tool, and what other Runs charged to the tree. */
  datatype System = System(db: Db, locals: seq<Local>, used: set<nat>, execs: seq<Exec>, otherCalls: nat,
    otherActions: nat)

  const INITIAL_DB := Db([], [], RunQueued, JobQueued, None, 0, false, true, true, false, [], 0, 0, None)
  const INITIAL := System(INITIAL_DB, [], {}, [], 0, 0)

  datatype Message = Message(id: string, content: string)

  /** What a transaction's commit came to: answered, sent but not answered, or
      never carried out. */
  datatype Commit = Acked | Unanswered | RolledBack

  datatype Step =
    | Crash
    | LoadLog
    | ReadSteering(messages: seq<Message>)
    | Decide(spent: bool, wrapUp: Option<set<string>>, advertised: set<string>, answer: ModelAnswer, prepared: string)
    | Contextualize(spent: bool, wrapUp: Option<set<string>>, advertised: set<string>, search: Proposed)
    | StartTool(index: int)
    | FinishTools(outcomes: seq<ToolOutcome>)
    | SendAppend(commit: Commit)
    | CheckAppend(readable: bool)
    | SendFail(commit: Commit)
    | SendPublish(commit: Commit)
    | CheckPublish(readable: bool)

  datatype Event =
    | Claim(token: nat)
    | LeaseExpires
    | Requeue
    | Abandon
    | Cancel
    | DeadlinePasses
    | Membership(chat: bool, studio: bool)
    | Settle(commits: bool)
    | OthersCharge(calls: nat, actions: nat)
    | CloseTerminal
    | ByAttempt(no: nat, step: Step)

  /** What one step of one attempt changes. `passed` is the row the attempt now takes
      to be in the log; only proofs look at it. */
  datatype Moved = Moved(db: Db, boundary: bool, pc: Pc, execs: seq<Exec>, passed: Option<Row>)

  function Stay(db: Db, l: Local): Moved {
    Moved(db, l.boundary, l.pc, [], None)
  }

  function Goes(db: Db, l: Local, pc: Pc): Moved {
    Moved(db, l.boundary, pc, [], None)
  }

  function AfterPc(after: After): Pc {
    match after
    case BackToTop => Top
    case ThenFail => Failing
    case ThenStop => Stopped(false)
  }

  function Queued(view: seq<Row>, queue: seq<Row>, after: After): Pc {
    if queue == [] then AfterPc(after) else Appending(view, queue, false, false, after)
  }

  // ----- Reading the log -----

  function Unsafe(safe: set<string>, pending: seq<AcceptedAction>): (r: seq<AcceptedAction>)
    ensures forall a :: a in r <==> a in pending && a.name !in safe
  {
    if pending == [] then []
    else
      var last := pending[|pending| - 1];
      Unsafe(safe, pending[..|pending| - 1]) + (if last.name in safe then [] else [last])
  }

  function IndicesOf(pending: seq<AcceptedAction>): (r: seq<int>)
    ensures |r| == |pending| && forall i | 0 <= i < |r| :: r[i] == pending[i].index
  {
    seq(|pending|, i requires 0 <= i < |pending| => pending[i].index)
  }

  /** The whole open batch if its tools may all run beside each other, otherwise
      its first open action. */
  function Chosen(env: Env, pending: seq<AcceptedAction>): seq<int>
    requires pending != []
  {
    if |pending| > 1 && forall i | 0 <= i < |pending| :: pending[i].name in env.parallel
    then IndicesOf(pending) else [pending[0].index]
  }

  function LoadedWithOpenBatch(env: Env, db: Db, l: Local, p: Prefix, pending: seq<AcceptedAction>): Moved
    requires pending != []
  {
    var unknown := Unsafe(env.safe, pending);
    if l.boundary && l.attempt.no > 1 && unknown != []
    then Moved(db, false, Queued(db.rows, Closings(|p.proposals|, unknown), BackToTop), [], None)
    else Moved(db, false, Running(db.rows, Chosen(env, pending), {}), [], None)
  }

  function Loaded(env: Env, db: Db, l: Local): Moved {
    if CheckAuthority(db, l.attempt) != Held then Goes(db, l, Stopped(false))
    else
      var prefix := ReadLog(env.tree.shown, db.rows);
      if prefix.None? then Goes(db, l, Failing)
      else
        var p := prefix.value;
        if p.final.Some? then Goes(db, l, Publishing(p.final.value, false, false))
        else
          var open := OpenActions(p);
          if open.None? then Moved(db, false, Steerable(db.rows), [], None)
          else LoadedWithOpenBatch(env, db, l, p, open.value)
  }

  // ----- Steering and deciding -----

  predicate Undelivered(rows: seq<Row>, messages: seq<Message>) {
    (forall i, j | 0 <= i < j < |messages| :: messages[i].id != messages[j].id) &&
    (forall i, k | 0 <= i < |messages| && 0 <= k < |rows| && rows[k].SteeringRow? ::
      rows[k].messageId != messages[i].id)
  }

  /** Messages are checkpointed in order up to the first malformed one. */
  function SteeringQueue(no: int, messages: seq<Message>): (r: seq<Row>)
    ensures |r| <= |messages|
    ensures forall i | 0 <= i < |r| :: WellFormed(r[i]) && r[i] == SteeringRow(no, messages[i].id, messages[i].content)
  {
    if messages == [] then []
    else
      var row := SteeringRow(no, messages[0].id, messages[0].content);
      if WellFormed(row) then [row] + SteeringQueue(no, messages[1..]) else []
  }

  function Steered(env: Env, db: Db, l: Local, messages: seq<Message>): Moved
    requires l.pc.Steerable?
  {
    if !Undelivered(db.rows, messages) || Load(l.pc.seen).None? || (messages != [] && !env.steers) then Stay(db, l)
    else if messages == [] then Goes(db, l, Deciding(l.pc.seen))
    else
      var queue := SteeringQueue(Load(l.pc.seen).value.decisions + 1, messages);
      Goes(db, l, Queued(l.pc.seen, queue, if |queue| == |messages| then BackToTop else ThenFail))
  }

  function Proposes(db: Db, l: Local, row: Row): Moved
    requires l.pc.Deciding?
  {
    if WellFormed(row) then Goes(db, l, Queued(l.pc.seen, [row], BackToTop)) else Goes(db, l, Failing)
  }

  function Decided(env: Env, db: Db, l: Local, step: Step): Moved
    requires l.pc.Deciding? && step.Decide?
  {
    if db.inDoubt.Some? || Load(l.pc.seen).None? then Stay(db, l)
    else
      var p := Load(l.pc.seen).value;
      var offer := OfferFor(env.limits, p, step.spent, step.wrapUp, step.advertised);
      if !Advertisable(offer, step.advertised) then Stay(db, l)
      else if offer.definitions == {} && env.limits.finalDecisionLimit < 1 then Goes(db, l, Failing)
      else if CheckAuthority(db, l.attempt) != Held then Goes(db, l, Stopped(false))
      else match step.answer
        case GaveUpInvalid => Goes(db, l, Failing)
        case GaveUpOverflow => Goes(db, l, Failing)
        case GaveUpOther => Goes(db, l, Stopped(false))
        case Accepted(decision) =>
          if !DecisionAllowed(env.limits, p, offer, decision) then Stay(db, l)
          else match decision
            case FinalDecision(_) =>
              if env.decides(p, FinalDecision(step.prepared))
              then Proposes(db, l, FinalRow(p.decisions + 1, step.prepared))
              else Stay(db, l)
            case ProposalDecision(actions) =>
              if !env.decides(p, decision) then Stay(db, l)
              else if offer.definitions == {} then Goes(db, l, Failing)
              else Proposes(db, l, ProposalRow(p.decisions + 1, actions))
  }

  /** The first search of a grounded Run, rewritten to stand on its own. */
  function Contextualized(env: Env, db: Db, l: Local, step: Step): Moved
    requires l.pc.Deciding? && step.Contextualize?
  {
    if db.inDoubt.Some? || Load(l.pc.seen).None? then Stay(db, l)
    else
      var p := Load(l.pc.seen).value;
      var offer := OfferFor(env.limits, p, step.spent, step.wrapUp, step.advertised);
      if !Advertisable(offer, step.advertised) || !env.decides(p, ProposalDecision([step.search])) then Stay(db, l)
      else if "search_evidence" !in offer.definitions || step.search.name != "search_evidence" then Goes(db, l, Failing)
      else if CheckAuthority(db, l.attempt) != Held then Goes(db, l, Stopped(false))
      else Proposes(db, l, ProposalRow(p.decisions + 1, [step.search]))
  }

  // ----- Tools -----

  function Starts(db: Db, l: Local, index: int): Moved
    requires l.pc.Running?
  {
    if index !in l.pc.todo || index in l.pc.started then Stay(db, l)
    else
      var p := Load(l.pc.seen);
      if p.None? then Stay(db, l)
      else Moved(db, l.boundary, l.pc.(started := l.pc.started + {index}),
        [Exec(|p.value.proposals|, index, l.attempt.no)], None)
  }

  /** The outcomes the tools may have come to: one that returned was started, and
      gave something the tool may give for that input. */
  predicate Possible(env: Env, p: Prefix, todo: seq<int>, started: set<int>, outcomes: seq<ToolOutcome>) {
    |outcomes| == |todo| && |p.proposals| > 0 &&
    forall i | 0 <= i < |todo| && outcomes[i].Returned? ::
      todo[i] in started && 0 <= todo[i] < |Last(p).actions| &&
      env.gives(AsProposed(Last(p))[todo[i]], outcomes[i].result)
  }

  function AfterSelection(s: Selection): After {
    match s.failure
    case Some(BadResult) => ThenFail
    case Some(ToolBroke(terminal)) => if terminal then ThenFail else ThenStop
    case None => if s.overBudget then ThenFail else BackToTop
  }

  /** The path for one action at a time takes the same decisions as a batch of one. */
  method AfterOneAction(env: Env, used: nat, no: int, index: int, outcome: ToolOutcome)
    returns (queue: seq<Row>, after: After)
    ensures var s := Select(env.limits, env.size, used, no, [index], [outcome]);
      queue == s.rows && after == AfterSelection(s)
  {
    assert [index][..0] == [] && [outcome][..0] == [];
    assert Select(env.limits, env.size, used, no, [], []) == Selection([], used, None, false);
    if outcome.Broke? {
      return [], if outcome.terminal then ThenFail else ThenStop;
    }
    if !outcome.result.Valid() {
      return [], ThenFail;
    }
    var checkpoint := NewActionResultCheckpoint(no, index, OfAction(no, index), outcome.result);
    if checkpoint.None? {
      return [], ThenFail;
    }
    var row := ResultRow(no, index, outcome.result);
    if env.size(row) > env.limits.actionResultBytes || used + env.size(row) > env.limits.actionResultsBytes {
      return [], ThenFail;
    }
    return [row], BackToTop;
  }

  function Finished(env: Env, db: Db, l: Local, outcomes: seq<ToolOutcome>): Moved
    requires l.pc.Running?
  {
    var p := Load(l.pc.seen);
    if p.None? || !Possible(env, p.value, l.pc.todo, l.pc.started, outcomes) then Stay(db, l)
    else
      var s := Select(env.limits, env.size, ResultBytes(env.size, p.value.proposals), |p.value.proposals|, l.pc.todo,
        outcomes);
      Goes(db, l, Queued(l.pc.seen, s.rows, AfterSelection(s)))
  }

  // ----- Durable writes -----

  function Advanced(db: Db, l: Local): Moved
    requires l.pc.Appending? && l.pc.queue != []
  {
    Goes(db, l, Queued(l.pc.view + [l.pc.queue[0]], l.pc.queue[1..], l.pc.after)).(passed := Some(l.pc.queue[0]))
  }

  function SentAppend(env: Env, db: Db, l: Local, commit: Commit): Moved
    requires l.pc.Appending? && l.pc.queue != []
  {
    var check := Goes(db, l, l.pc.(checking := true));
    if db.inDoubt.Some? || l.pc.checking then Stay(db, l)
    else if commit.RolledBack? then check
    else match AppendTx(env.tree, db, l.attempt, l.pc.queue[0])
      case Refused(authority) => if authority.Unauthorized? then check else Goes(db, l, Stopped(false))
      case Invalid => Goes(db, l, Failing)
      case AlreadyThere => Advanced(db, l)
      case Commits(after) =>
        if commit.Acked? then Advanced(after, l)
        else check.(db := db.(inDoubt := Some(DoubtfulAppend(l.pc.queue[0], l.attempt.no))))
  }

  function CheckedAppend(env: Env, db: Db, l: Local, readable: bool): Moved
    requires l.pc.Appending? && l.pc.queue != []
  {
    if !l.pc.checking then Stay(db, l)
    else if !readable then Goes(db, l, Stopped(false))
    else match Reconcile(env.tree, db, l.attempt, l.pc.queue[0])
      case Matched => Advanced(db, l)
      case Conflict => Goes(db, l, Failing)
      case StillHeld =>
        if l.pc.retried then Goes(db, l, Stopped(false)) else Goes(db, l, l.pc.(retried := true, checking := false))
      case NotHeld => Goes(db, l, Stopped(false))
      case Late => Goes(db, l, Stopped(false))
  }

  function SentFail(db: Db, l: Local, commit: Commit): Moved {
    if db.inDoubt.Some? then Stay(db, l)
    else match FailTx(db, l.attempt)
      case Commits(after) =>
        Goes(if commit.Acked? then after else if commit.Unanswered? then db.(inDoubt := Some(DoubtfulFail)) else db, l,
          Stopped(false))
      case Refused(_) => Goes(db, l, Stopped(false))
      case Invalid => Goes(db, l, Stopped(false))
      case AlreadyThere => Goes(db, l, Stopped(false))
  }

  function SentPublish(env: Env, db: Db, l: Local, commit: Commit): Moved
    requires l.pc.Publishing?
  {
    var ask := Goes(db, l, l.pc.(asking := true));
    if db.inDoubt.Some? || l.pc.asking then Stay(db, l)
    else if !WellFormed(FinalRow(1, l.pc.text)) then Goes(db, l, Stopped(false))
    else if commit.RolledBack? then ask
    else match PublishTx(env.tree, db, l.attempt, l.pc.text)
      case Refused(authority) => if authority.Unauthorized? then ask else Goes(db, l, Stopped(false))
      case Invalid => Goes(db, l, Stopped(false))
      case AlreadyThere => Stay(db, l)
      case Commits(after) =>
        if commit.Acked? then Goes(after, l, Stopped(true))
        else ask.(db := db.(inDoubt := Some(DoubtfulPublish(l.pc.text))))
  }

  function CheckedPublish(db: Db, l: Local, readable: bool): Moved
    requires l.pc.Publishing?
  {
    if !l.pc.asking then Stay(db, l)
    else if !readable then Goes(db, l, Stopped(false))
    else match ReconcilePublication(db, l.attempt)
      case PublishedAlready => Goes(db, l, Stopped(true))
      case StillPublishing =>
        if l.pc.again then Goes(db, l, Stopped(false)) else Goes(db, l, l.pc.(again := true, asking := false))
      case NotPublishing => Goes(db, l, Stopped(false))
      case PublicationLate => Goes(db, l, Stopped(false))
  }

  function Move(env: Env, db: Db, l: Local, step: Step): Moved {
    match step
    case Crash => if l.pc.Stopped? then Stay(db, l) else Goes(db, l, Stopped(false))
    case LoadLog => if l.pc.Top? && db.inDoubt.None? then Loaded(env, db, l) else Stay(db, l)
    case ReadSteering(messages) => if l.pc.Steerable? then Steered(env, db, l, messages) else Stay(db, l)
    case Decide(_, _, _, _, _) => if l.pc.Deciding? then Decided(env, db, l, step) else Stay(db, l)
    case Contextualize(_, _, _, _) => if l.pc.Deciding? then Contextualized(env, db, l, step) else Stay(db, l)
    case StartTool(index) => if l.pc.Running? then Starts(db, l, index) else Stay(db, l)
    case FinishTools(outcomes) => if l.pc.Running? then Finished(env, db, l, outcomes) else Stay(db, l)
    case SendAppend(commit) =>
      if l.pc.Appending? && l.pc.queue != [] then SentAppend(env, db, l, commit) else Stay(db, l)
    case CheckAppend(readable) =>
      if l.pc.Appending? && l.pc.queue != [] then CheckedAppend(env, db, l, readable) else Stay(db, l)
    case SendFail(commit) => if l.pc.Failing? then SentFail(db, l, commit) else Stay(db, l)
    case SendPublish(commit) => if l.pc.Publishing? then SentPublish(env, db, l, commit) else Stay(db, l)
    case CheckPublish(readable) => if l.pc.Publishing? then CheckedPublish(db, l, readable) else Stay(db, l)
  }

  // ----- The queue and everything else around the attempts -----

  predicate Claimable(db: Db) {
    (db.run.RunQueued? && db.job.JobQueued?) || (db.run.RunRunning? && db.job.JobRunning? && !db.leaseLive)
  }

  predicate Unfinished(db: Db) {
    db.run.RunQueued? || db.run.RunRunning?
  }

  function Settled(tree: Tree, db: Db, commits: bool): Db {
    var settled := db.(inDoubt := None);
    if !commits then settled
    else match db.inDoubt
      case Some(DoubtfulAppend(row, author)) => Inserted(tree, settled, row, author)
      case Some(DoubtfulPublish(text)) => Published(settled, text)
      case Some(DoubtfulFail) => Failed(settled)
      case None => settled
  }

  /** Events that touch neither the log nor a transaction in doubt. */
  function Outside(tree: Tree, db: Db, event: Event): Db {
    match event
    case LeaseExpires => db.(leaseLive := false)
    case DeadlinePasses => db.(deadlineOk := false)
    case Membership(chat, studio) => db.(chatMember := chat, studioMember := studio)
    case Requeue =>
      if db.inDoubt.None? && db.run.RunRunning? then db.(run := RunQueued, job := JobQueued, lease := None) else db
    case Abandon => if db.inDoubt.None? && Unfinished(db) then Failed(db) else db
    case Cancel =>
      if db.inDoubt.None? && Unfinished(db) then db.(run := RunCancelled, job := JobCancelled, lease := None) else db
    case OthersCharge(calls, actions) =>
      if db.inDoubt.Some? then db
      else db.(modelCalls := Min(db.modelCalls + calls, tree.modelCallLimit),
        actions := Min(db.actions + actions, tree.actionLimit))
    case Claim(_) => db
    case Settle(_) => db
    case CloseTerminal => db
    case ByAttempt(_, _) => db
  }

  function WithClaim(sys: System, token: nat): System {
    if sys.db.inDoubt.Some? || !Claimable(sys.db) || token in sys.used then sys
    else
      var no := sys.db.attemptNo + 1;
      sys.(
        db := sys.db.(run := RunRunning, job := JobRunning, lease := Some(token), attemptNo := no, leaseLive := true),
        locals := sys.locals + [Local(Attempt(no, token), true, Top)],
        used := sys.used + {token})
  }

  function Next(env: Env, sys: System, event: Event): System {
    match event
    case Claim(token) => WithClaim(sys, token)
    case Settle(commits) => sys.(db := Settled(env.tree, sys.db, commits))
    case CloseTerminal => if sys.db.inDoubt.Some? then sys else sys.(db := ClosedTerminal(env.tree, sys.db))
    case ByAttempt(no, step) =>
      if !(1 <= no <= |sys.locals|) then sys
      else
        var l := sys.locals[no - 1];
        var m := Move(env, sys.db, l, step);
        sys.(db := m.db, locals := sys.locals[no - 1 := l.(boundary := m.boundary, pc := m.pc)],
          execs := sys.execs + m.execs)
    case OthersCharge(calls, actions) =>
      if sys.db.inDoubt.Some? then sys
      else sys.(db := Outside(env.tree, sys.db, event), otherCalls := sys.otherCalls + calls,
        otherActions := sys.otherActions + actions)
    case LeaseExpires => sys.(db := Outside(env.tree, sys.db, event))
    case DeadlinePasses => sys.(db := Outside(env.tree, sys.db, event))
    case Membership(_, _) => sys.(db := Outside(env.tree, sys.db, event))
    case Requeue => sys.(db := Outside(env.tree, sys.db, event))
    case Abandon => sys.(db := Outside(env.tree, sys.db, event))
    case Cancel => sys.(db := Outside(env.tree, sys.db, event))
  }

  /** The state after a schedule. */
  function Run(env: Env, events: seq<Event>): System {
    if events == [] then INITIAL else Next(env, Run(env, events[..|events| - 1]), events[|events| - 1])
  }
}

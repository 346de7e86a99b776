/** A chat's lane grows only at its end: the log of a Run that ended gets at most its
    closings, and the Run under way only adds to its own. */
module LaneGrowth {
  import opened Basics
  import opened Checkpoints
  import opened CheckpointPrefixes
  import opened PendingActions
  import opened RunStore
  import opened RunProtocol
  import opened RunInvariants
  import opened StoredLogs
  import opened ContextProjection
  import opened ProjectionOrder
  import Budgets
  import Publication

  // ----- Runs that ended -----

  predicate Ended(db: Db) {
    !db.run.RunQueued? && !db.run.RunRunning?
  }

  /** Status and message are the same, and the log is the same or got its closings. */
  ghost predicate SameOrClosed(tree: Tree, before: Db, after: Db) {
    Ended(after) && after.run == before.run && after.messages == before.messages &&
    (after.rows == before.rows || after.rows == ClosedTerminal(tree, before).rows)
  }

  /** Closing a log that can be read leaves nothing to close. */
  lemma NothingOpenOnceClosed(tree: Tree, db: Db)
    requires Ended(db) && Load(db.rows).Some?
    ensures var rows := ClosedTerminal(tree, db).rows;
      Load(rows).Some? && (AllAsShown(tree.shown, db.rows) ==> !HasIncompleteProposal(Load(rows).value)) &&
      (!AllAsShown(tree.shown, db.rows) ==> rows == db.rows)
  {
    hide Load, Closings, RowAsShown;
    OpenExactlyWhenIncomplete(Load(db.rows).value);
    if OpenActions(Load(db.rows).value).Some? {
      ClosingFinishesTheBatch(db.rows);
    }
  }

  lemma ClosedOnce(tree: Tree, before: Db, db: Db)
    requires Ended(before) && Load(before.rows).Some? && SameOrClosed(tree, before, db)
    ensures SameOrClosed(tree, before, ClosedTerminal(tree, db))
  {
    hide Load, Closings, RowAsShown, OpenActions, HasIncompleteProposal;
    NothingOpenOnceClosed(tree, before);
    if db.rows != before.rows {
      OpenExactlyWhenIncomplete(Load(db.rows).value);
    }
  }

  lemma EndedStays(env: Env, before: Db, sys: System, event: Event)
    requires Invariant(sys) && Ended(before) && Load(before.rows).Some? && SameOrClosed(env.tree, before, sys.db)
    ensures SameOrClosed(env.tree, before, Next(env, sys, event).db)
  {
    hide LocalOk, Load, Move, ClosedTerminal;
    if event.ByAttempt? && 1 <= event.no <= |sys.locals| {
      Publication.NoLeaseNoWrite(env, sys.db, sys.locals[event.no - 1], event.step);
    }
    if event.CloseTerminal? {
      ClosedOnce(env.tree, before, sys.db);
    }
  }

  lemma ReachableLogLoads(env: Env, events: seq<Event>)
    ensures Load(Run(env, events).db.rows).Some?
    ensures Run(env, events).db.messages != [] ==> Load(Run(env, events).db.rows).value.final.Some?
  {
    hide Run, Load, LocalOk;
    EveryRunKeepsInvariant(env, events);
  }

  /** Once a Run has ended, completed, failed or cancelled, all that can ever be added to
      its log are the closings of its open actions, and those once. */
  lemma {:induction false} EndedLogsGetClosingsOnly(env: Env, events: seq<Event>, k: nat)
    requires k <= |events| && Ended(Run(env, events[..k]).db)
    ensures SameOrClosed(env.tree, Run(env, events[..k]).db, Run(env, events).db)
    decreases |events|
  {
    hide Next, Invariant;
    if k < |events| {
      var front := events[..|events| - 1];
      assert front[..k] == events[..k];
      EndedLogsGetClosingsOnly(env, front, k);
      EveryRunKeepsInvariant(env, front);
      ReachableLogLoads(env, events[..k]);
      EndedStays(env, Run(env, events[..k]).db, Run(env, front), events[|events| - 1]);
    } else {
      assert events[..k] == events;
    }
  }

  lemma NextGrows(env: Env, sys: System, event: Event)
    requires Invariant(sys)
    ensures sys.db.rows <= Next(env, sys, event).db.rows
  {
    hide LocalOk, DbOk, Load, Move, ClosedTerminal;
    if event.ByAttempt? && 1 <= event.no <= |sys.locals| {
      Budgets.MoveWritesOneRow(env, sys.db, sys.locals[event.no - 1], event.step);
    }
    if event.CloseTerminal? {
      ClosedTerminalIsOk(env.tree, sys.db);
    }
  }

  /** No row is ever lost. */
  lemma {:induction false} LogsOnlyGrow(env: Env, events: seq<Event>, k: nat)
    requires k <= |events|
    ensures Run(env, events[..k]).db.rows <= Run(env, events).db.rows
    decreases |events|
  {
    hide Next, Invariant;
    if k < |events| {
      var front := events[..|events| - 1];
      assert front[..k] == events[..k];
      LogsOnlyGrow(env, front, k);
      EveryRunKeepsInvariant(env, front);
      NextGrows(env, Run(env, front), events[|events| - 1]);
    } else {
      assert events[..k] == events;
    }
  }

  // ----- The units of one Run, at two moments -----

  /** A Run of a chat with what happened to it so far. */
  datatype ChatRun = ChatRun(runId: string, env: Env, events: seq<Event>)
  datatype ChatTurn = ChatTurn(messageId: string, content: string, runs: seq<ChatRun>)

  function DbOf(c: ChatRun): Db {
    Run(c.env, c.events).db
  }

  /** The lane's query finds this Run as it now is, from the table or as decoded. */
  ghost predicate IsRun(run: LaneRun, c: ChatRun) {
    run.runId == c.runId && run.legacyFinal == (if DbOf(c).messages == [] then "" else DbOf(c).messages[0]) &&
    Decoded(run.log) == Load(DbOf(c).rows)
  }

  ghost predicate Later(c: ChatRun, d: ChatRun) {
    d.runId == c.runId && d.env == c.env && c.events <= d.events
  }

  lemma ShownHasNothingOpen(project: Projector, run: LaneRun, turn: string, rows: seq<Row>)
    requires Load(rows).Some? && PrefixUnits(project, run, turn, Load(rows).value).Some?
    ensures !HasIncompleteProposal(Load(rows).value)
  {
    hide Load, PrefixUnits, ActionResult.Valid;
    ProjectsExactlyWhenAnswered(project, run, turn, rows);
    var p := Load(rows).value;
    if |p.proposals| > 0 {
      assert AllAnswered(project, run.runId, p.proposals[|p.proposals| - 1]);
    }
  }

  /** What was shown of a Run that had ended is shown unchanged at any later time. */
  lemma EndedRunsLookTheSame(project: Projector, r: LaneRun, c: ChatRun, s: LaneRun, d: ChatRun, turn: string)
    requires IsRun(r, c) && IsRun(s, d) && Later(c, d) && Ended(DbOf(c)) && RunUnits(project, r, turn).Some?
    ensures RunUnits(project, s, turn) == RunUnits(project, r, turn)
  {
    hide Run, Load, PrefixUnits, Decoded;
    assert d.events[..|c.events|] == c.events;
    EndedLogsGetClosingsOnly(c.env, d.events, |c.events|);
    ReachableLogLoads(c.env, c.events);
    var p := Load(DbOf(c).rows).value;
    ShownHasNothingOpen(project, r, turn, DbOf(c).rows);
    OpenExactlyWhenIncomplete(p);
    UnitsOfSameRun(project, r, s, turn, p);
  }

  /** What was shown of the Run under way stays in place at its front. */
  lemma ARunUnderWayGrows(project: Projector, r: LaneRun, c: ChatRun, s: LaneRun, d: ChatRun, turn: string)
    requires IsRun(r, c) && IsRun(s, d) && Later(c, d) && !Ended(DbOf(c))
    requires RunUnits(project, r, turn).Some? && RunUnits(project, s, turn).Some?
    ensures RunUnits(project, r, turn).value <= RunUnits(project, s, turn).value
  {
    hide Run, Load, PrefixUnits, Decoded, Invariant, HasIncompleteProposal;
    NotEndedNothingPublished(c);
    ReachableLogLoads(c.env, c.events);
    ReachableLogLoads(d.env, d.events);
    assert d.events[..|c.events|] == c.events;
    LogsOnlyGrow(c.env, d.events, |c.events|);
    var rows, all := DbOf(c).rows, DbOf(d).rows;
    var p, q := Load(rows).value, Load(all).value;
    var blank := r.(legacyFinal := "");
    ShownHasNothingOpen(project, r, turn, DbOf(c).rows);
    UnitsOfSameRun(project, r, blank, turn, p);
    UnitsOfSameRun(project, s, blank, turn, q);
    assert all == rows + all[|rows|..];
    LaneGrowsAtItsEnd(project, blank, turn, rows, all[|rows|..]);
  }

  lemma NotEndedNothingPublished(c: ChatRun)
    requires !Ended(DbOf(c))
    ensures DbOf(c).messages == []
  {
    hide Run, Load, LocalOk;
    EveryRunKeepsInvariant(c.env, c.events);
  }

  // ----- The whole lane, at two moments -----

  ghost predicate IsTurn(turn: LaneTurn, c: ChatTurn) {
    turn.messageId == c.messageId && turn.content == c.content && |turn.runs| == |c.runs| &&
    forall j | 0 <= j < |c.runs| :: IsRun(turn.runs[j], c.runs[j])
  }

  ghost predicate IsLane(turns: seq<LaneTurn>, chat: seq<ChatTurn>) {
    |turns| == |chat| && forall i | 0 <= i < |chat| :: IsTurn(turns[i], chat[i])
  }

  /** The same message with its Runs at a later time, and perhaps more of them. */
  ghost predicate TurnGoesOn(c: ChatTurn, d: ChatTurn) {
    d.messageId == c.messageId && d.content == c.content && |c.runs| <= |d.runs| &&
    forall j | 0 <= j < |c.runs| :: Later(c.runs[j], d.runs[j])
  }

  /** The first k Runs of a turn have ended. */
  ghost predicate EndedUpTo(c: ChatTurn, k: int) {
    forall j | 0 <= j < |c.runs| && j < k :: Ended(DbOf(c.runs[j]))
  }

  /** A chat's Runs come one after another: whoever looks while a Run is under way sees
      that all before it have ended; later Runs answer the last message again or
      later messages. */
  ghost predicate GoesOn(before: seq<ChatTurn>, after: seq<ChatTurn>) {
    var n := |before| - 1;
    |before| <= |after| && (forall i | 0 <= i <= n :: TurnGoesOn(before[i], after[i])) &&
    (forall i | 0 <= i < n :: |before[i].runs| == |after[i].runs| && EndedUpTo(before[i], |before[i].runs|)) &&
    (n >= 0 ==> EndedUpTo(before[n], |before[n].runs| - 1))
  }

  lemma {:induction false} SameRuns(project: Projector, turn: string, r: seq<LaneRun>, s: seq<LaneRun>)
    requires |r| == |s| && forall j | 0 <= j < |r| :: RunUnits(project, r[j], turn) == RunUnits(project, s[j], turn)
    ensures RunsUnits(project, turn, r) == RunsUnits(project, turn, s)
    decreases |r|
  {
    hide RunUnits;
    if r != [] {
      SameRuns(project, turn, r[..|r| - 1], s[..|s| - 1]);
    }
  }

  lemma {:induction false} RunsInFront(project: Projector, turn: string, runs: seq<LaneRun>, k: nat)
    requires k <= |runs| && RunsUnits(project, turn, runs).Some?
    ensures RunsUnits(project, turn, runs[..k]).Some?
    ensures RunsUnits(project, turn, runs[..k]).value <= RunsUnits(project, turn, runs).value
    ensures forall j | 0 <= j < k :: RunUnits(project, runs[j], turn).Some?
    decreases |runs|
  {
    hide RunUnits;
    if k < |runs| {
      RunsInFront(project, turn, runs[..|runs| - 1], k);
      assert runs[..|runs| - 1][..k] == runs[..k];
    } else {
      assert runs[..k] == runs;
      if k > 0 {
        RunsInFront(project, turn, runs[..k - 1], k - 1);
        assert runs[..k - 1][..k - 1] == runs[..k - 1];
      }
    }
  }

  lemma {:induction false} TurnsInFront(project: Projector, turns: seq<LaneTurn>, k: nat)
    requires k <= |turns| && TurnsUnits(project, turns).Some?
    ensures TurnsUnits(project, turns[..k]).Some?
    ensures TurnsUnits(project, turns[..k]).value <= TurnsUnits(project, turns).value
    decreases |turns|
  {
    hide TurnUnits;
    if k < |turns| {
      TurnsInFront(project, turns[..|turns| - 1], k);
      assert turns[..|turns| - 1][..k] == turns[..k];
    } else {
      assert turns[..k] == turns;
    }
  }

  lemma EndedTurnLooksTheSame(project: Projector, a: LaneTurn, c: ChatTurn, b: LaneTurn, d: ChatTurn, k: nat)
    requires IsTurn(a, c) && IsTurn(b, d) && TurnGoesOn(c, d) && k <= |c.runs| && EndedUpTo(c, k)
    requires RunsUnits(project, a.messageId, a.runs).Some?
    ensures RunsUnits(project, b.messageId, b.runs[..k]) == RunsUnits(project, a.messageId, a.runs[..k])
  {
    hide RunUnits, IsRun, Later, Ended;
    RunsInFront(project, a.messageId, a.runs, |a.runs|);
    var r, s := a.runs[..k], b.runs[..k];
    forall j | 0 <= j < |r| ensures RunUnits(project, r[j], a.messageId) == RunUnits(project, s[j], a.messageId) {
      EndedRunsLookTheSame(project, a.runs[j], c.runs[j], b.runs[j], d.runs[j], a.messageId);
    }
    SameRuns(project, a.messageId, r, s);
  }

  lemma LastTurnGrows(project: Projector, a: LaneTurn, c: ChatTurn, b: LaneTurn, d: ChatTurn)
    requires IsTurn(a, c) && IsTurn(b, d) && TurnGoesOn(c, d) && EndedUpTo(c, |c.runs| - 1)
    requires TurnUnits(project, a).Some? && TurnUnits(project, b).Some?
    ensures TurnUnits(project, a).value <= TurnUnits(project, b).value
  {
    hide RunUnits, IsRun, Later, Ended;
    var m := |a.runs|;
    if m > 0 {
      EndedTurnLooksTheSame(project, a, c, b, d, m - 1);
      RunsInFront(project, a.messageId, a.runs, m);
      RunsInFront(project, b.messageId, b.runs, m);
      assert b.runs[..m][..m - 1] == b.runs[..m - 1];
      LastRunGrows(project, a.runs[m - 1], c.runs[m - 1], b.runs[m - 1], d.runs[m - 1], a.messageId);
    }
  }

  lemma LastRunGrows(project: Projector, r: LaneRun, c: ChatRun, s: LaneRun, d: ChatRun, turn: string)
    requires IsRun(r, c) && IsRun(s, d) && Later(c, d)
    requires RunUnits(project, r, turn).Some? && RunUnits(project, s, turn).Some?
    ensures RunUnits(project, r, turn).value <= RunUnits(project, s, turn).value
  {
    hide RunUnits, IsRun, Later, Ended;
    if Ended(DbOf(c)) {
      EndedRunsLookTheSame(project, r, c, s, d, turn);
    } else {
      ARunUnderWayGrows(project, r, c, s, d, turn);
    }
  }

  lemma {:induction false} EarlierTurnsLookTheSame(
    project: Projector, a: seq<LaneTurn>, before: seq<ChatTurn>, b: seq<LaneTurn>, after: seq<ChatTurn>, k: nat)
    requires IsLane(a, before) && IsLane(b, after) && GoesOn(before, after) && k < |before|
    requires TurnsUnits(project, a[..k]).Some?
    ensures TurnsUnits(project, b[..k]) == TurnsUnits(project, a[..k])
  {
    hide IsTurn, TurnGoesOn, EndedUpTo;
    if k > 0 {
      assert a[..k][..k - 1] == a[..k - 1] && b[..k][..k - 1] == b[..k - 1];
      EarlierTurnsLookTheSame(project, a, before, b, after, k - 1);
      EarlierTurnLooksTheSame(project, a[k - 1], before[k - 1], b[k - 1], after[k - 1]);
    }
  }

  lemma EarlierTurnLooksTheSame(project: Projector, a: LaneTurn, c: ChatTurn, b: LaneTurn, d: ChatTurn)
    requires IsTurn(a, c) && IsTurn(b, d) && TurnGoesOn(c, d) && |c.runs| == |d.runs| && EndedUpTo(c, |c.runs|)
    requires TurnUnits(project, a).Some?
    ensures TurnUnits(project, b) == TurnUnits(project, a)
  {
    hide RunUnits, IsRun, Later, Ended;
    EndedTurnLooksTheSame(project, a, c, b, d, |c.runs|);
    assert a.runs[..|c.runs|] == a.runs && b.runs[..|c.runs|] == b.runs;
  }

  /** What a worker was given of a chat is the front of what any later worker is given,
      whatever happened to the Runs in between. */
  lemma ChatLanesGrowAtTheirEnd(
    project: Projector, a: seq<LaneTurn>, before: seq<ChatTurn>, b: seq<LaneTurn>, after: seq<ChatTurn>)
    requires IsLane(a, before) && IsLane(b, after) && GoesOn(before, after)
    requires LaneUnits(project, a).Some? && LaneUnits(project, b).Some?
    ensures LaneUnits(project, a).value <= LaneUnits(project, b).value
  {
    hide IsTurn, TurnGoesOn, EndedUpTo, TurnUnits, Orderly;
    var n := |a|;
    if n > 0 {
      TurnsInFront(project, b, n);
      assert b[..n][..n - 1] == b[..n - 1];
      EarlierTurnsLookTheSame(project, a, before, b, after, n - 1);
      LastTurnGrows(project, a[n - 1], before[n - 1], b[n - 1], after[n - 1]);
    }
  }

  // ----- From the table -----

  lemma ClosingsAreAsShown(tree: Tree, db: Db)
    requires AllAsShown(tree.shown, db.rows)
    ensures AllAsShown(tree.shown, ClosedTerminal(tree, db).rows)
  {
    hide Load, OpenActions;
  }

  /** The closed table of a Run that ended projects exactly when the server shows all
      its numbers as they were written, and then shows what its decoded log shows. */
  lemma ClosedTablesProject(
    tree: Tree, db: Db, stored: seq<Checkpoint>, scanned: seq<Checkpoint>, runId: string, legacyFinal: string,
    turn: string)
    requires Ended(db) && Load(db.rows).Some?
    requires Holds(stored, ClosedTerminal(tree, db).rows) && ScannedFrom(tree.shown, scanned, stored)
    ensures RunUnits(AsStored, LaneRun(runId, Stored(scanned), legacyFinal), turn).Some? <==>
      AllAsShown(tree.shown, db.rows)
    ensures AllAsShown(tree.shown, db.rows) ==> LoadStored(scanned) == Load(ClosedTerminal(tree, db).rows)
  {
    hide Load, LoadStored, Holds, ScannedFrom, ClosedTerminal, AllAsShown, PrefixUnits, HasIncompleteProposal;
    var run := LaneRun(runId, Stored(scanned), legacyFinal);
    var rows := ClosedTerminal(tree, db).rows;
    LoadingTheTable(tree.shown, scanned, stored, rows);
    NothingOpenOnceClosed(tree, db);
    if AllAsShown(tree.shown, db.rows) {
      ClosingsAreAsShown(tree, db);
      ProjectsExactlyWhenNothingIsOpen(run, turn, rows);
    }
  }
}

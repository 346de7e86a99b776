/** What the model reads: every row of a log, word for word, at its place in the lane. */
module ProjectionContents {
  import opened Basics
  import opened Identities
  import opened Checkpoints
  import opened CheckpointPrefixes
  import opened Controller
  import opened ContextProjection
  import opened ProjectionOrder

  // ----- Answers -----

  /** The message answers this call with this result, whole: reading the payload back
      gives the result. */
  ghost predicate Carries(m: ModelMessage, id: Identity, result: ActionResult) {
    m.role.Action? && m.answers == id && m.calls == [] && m.content.ResultText? &&
    var q := m.content.payload;
    q.ResultPayload? && q.resultActionId == id && ActionResult(q.status, q.output, q.errorCode, q.error) == result
  }

  /** What was shown of an action is what the projector makes of a result in the log. */
  ghost predicate AnswersFrom(
    project: Projector, runId: string, rows: seq<Row>, no: int, j: int, a: Proposed, m: ModelMessage) {
    exists result ::
      ResultRow(no, j, result) in rows &&
      ShowsResult(project, runId, AcceptedAction(OfAction(no, j), j, a.name, a.input, Some(result)), m)
  }

  ghost predicate ShowsResult(project: Projector, runId: string, action: AcceptedAction, m: ModelMessage) {
    project(runId, action).Some? && Carries(m, action.actionId, project(runId, action).value)
  }

  lemma AnswerCarries(project: Projector, runId: string, no: int, action: AcceptedAction)
    requires AnswerMessage(project, runId, no, action).Some?
    ensures action.result.Some? && ShowsResult(project, runId, action, AnswerMessage(project, runId, no, action).value)
  {
  }

  lemma {:induction false} AnswersCarryResults(
    project: Projector, runId: string, no: int, actions: seq<AcceptedAction>)
    requires AnswerMessages(project, runId, no, actions).Some?
    ensures var answers := AnswerMessages(project, runId, no, actions).value;
      |answers| == |actions| &&
      forall j | 0 <= j < |actions| :: actions[j].result.Some? && ShowsResult(project, runId, actions[j], answers[j])
    decreases |actions|
  {
    hide AnswerMessage, ShowsResult;
    if actions != [] {
      var n := |actions| - 1;
      AnswersCarryResults(project, runId, no, actions[..n]);
      AnswerCarries(project, runId, no, actions[n]);
    }
  }

  // ----- Rows -----

  /** The unit says what the row says. */
  ghost predicate ShowsRow(
    project: Projector, run: LaneRun, turn: string, rows: seq<Row>, row: Row, unit: ContextUnit) {
    match row
    case SteeringRow(no, messageId, content) =>
      unit == ContextUnit(UserMessage, messageId, run.runId, no,
        [ModelMessage(User, Text(STEERING_NOTICE + content), [], Blank)])
    case FinalRow(no, text) =>
      unit == ContextUnit(AgentStep, turn, run.runId, no, [ModelMessage(Assistant, Text(text), [], Blank)])
    case ProposalRow(no, actions) =>
      unit.kind.AgentStep? && unit.messageId == turn && unit.runId == run.runId && unit.decisionNo == no &&
      |unit.messages| == 1 + |actions| && AsksFor(unit.messages[0], no, actions) &&
      forall j | 0 <= j < |actions| :: AnswersFrom(project, run.runId, rows, no, j, actions[j], unit.messages[1 + j])
    case ResultRow(_, _, _) => false
  }

  ghost predicate AsksFor(m: ModelMessage, no: int, actions: seq<Proposed>) {
    m.role.Assistant? && m.content == Text("") && m.answers == Blank && |m.calls| == |actions| &&
    forall j | 0 <= j < |actions| :: m.calls[j] == ActionCall(OfAction(no, j), actions[j].name, actions[j].input)
  }

  lemma StepShowsRow(project: Projector, run: LaneRun, turn: string, rows: seq<Row>, no: int)
    requires Load(rows).Some? && 1 <= no <= |Load(rows).value.proposals|
    requires StepUnit(project, run, turn, Load(rows).value.proposals[no - 1]).Some?
    ensures var proposal := Load(rows).value.proposals[no - 1];
      ShowsRow(project, run, turn, rows, ProposalOf(proposal), StepUnit(project, run, turn, proposal).value)
  {
    hide Load, AnswerMessages, ShowsResult, ActionResult.Valid;
    var proposal := Load(rows).value.proposals[no - 1];
    LoadHasShape(rows);
    assert ProposalShape(proposal, no);
    var answers := AnswerMessages(project, run.runId, no, proposal.actions).value;
    var actions := AsProposed(proposal);
    AnswersCarryResults(project, run.runId, no, proposal.actions);
    forall j | 0 <= j < |actions|
      ensures AnswersFrom(project, run.runId, rows, no, j, actions[j], answers[j])
    {
      var result := proposal.actions[j].result.value;
      LoadRecordsTheLog(rows, ResultRow(no, j, result));
      assert proposal.actions[j] == AcceptedAction(OfAction(no, j), j, actions[j].name, actions[j].input, Some(result));
    }
  }

  lemma UnitShowsRow(project: Projector, run: LaneRun, turn: string, rows: seq<Row>, row: Row, unit: ContextUnit)
    requires Load(rows).Some? && UnitOf(project, run, turn, Load(rows).value, row) == Some(unit)
    ensures ShowsRow(project, run, turn, rows, row, unit)
  {
    hide Load, StepUnit, ProposalOf, AnswersFrom, AsksFor;
    if row.ProposalRow? {
      StepShowsRow(project, run, turn, rows, row.no);
    }
  }

  // ----- One Run -----

  lemma {:induction false} MilestoneAt(rows: seq<Row>, r: nat)
    requires r < |rows| && !rows[r].ResultRow?
    ensures var i := |Milestones(rows[..r])|; i < |Milestones(rows)| && Milestones(rows)[i] == rows[r]
    decreases |rows|
  {
    var n := |rows| - 1;
    if r < n {
      MilestoneAt(rows[..n], r);
      assert rows[..n][..r] == rows[..r];
    }
  }

  /** The units of a Run are those of its rows; without a Final in the log the message
      the Run published, if any, comes last. */
  lemma UnitsShowMilestones(project: Projector, run: LaneRun, turn: string, rows: seq<Row>)
    requires Load(rows).Some? && PrefixUnits(project, run, turn, Load(rows).value).Some?
    ensures var units := PrefixUnits(project, run, turn, Load(rows).value).value;
      var m := Milestones(rows);
      var legacy := Load(rows).value.final.None? && !IsBlank(run.legacyFinal);
      |units| == |m| + (if legacy then 1 else 0) &&
      (forall i | 0 <= i < |m| :: ShowsRow(project, run, turn, rows, m[i], units[i])) &&
      (legacy ==>
        units[|m|] == ContextUnit(AgentStep, turn, run.runId, 0,
          [ModelMessage(Assistant, Text(run.legacyFinal), [], Blank)]))
  {
    hide Load, IsBlank, Flush, StepUnits, ShowsRow, UnitOf;
    var p := Load(rows).value;
    var plain := if p.final.Some? then run else run.(legacyFinal := "");
    NothingIsBlank();
    StepsOfSameRun(project, run, plain, turn, p, |p.proposals|);
    var rest := p.steering[Flushed(p, |p.proposals|)..];
    assert SteeringUnits(run, rest) == SteeringUnits(plain, rest);
    ProjectionFollowsTheLog(project, plain, turn, rows);
    var units := PrefixUnits(project, plain, turn, p).value;
    forall i | 0 <= i < |Milestones(rows)| ensures ShowsRow(project, run, turn, rows, Milestones(rows)[i], units[i]) {
      UnitShowsRow(project, plain, turn, rows, Milestones(rows)[i], units[i]);
      SameRunSameRow(project, run, plain, turn, rows, Milestones(rows)[i], units[i]);
    }
  }

  lemma NothingIsBlank()
    ensures IsBlank("")
  {
  }

  lemma SameRunSameRow(
    project: Projector, run: LaneRun, plain: LaneRun, turn: string, rows: seq<Row>, row: Row, unit: ContextUnit)
    requires run.runId == plain.runId && ShowsRow(project, plain, turn, rows, row, unit)
    ensures ShowsRow(project, run, turn, rows, row, unit)
  {
    hide AnswersFrom, AsksFor;
  }

  // ----- Every row of the log -----

  /** Every steering message, proposal and Final of the log stands, word for word, at the
      place that counts what came before it. */
  lemma EveryRowIsShown(project: Projector, run: LaneRun, turn: string, rows: seq<Row>, r: nat)
    requires Load(rows).Some? && PrefixUnits(project, run, turn, Load(rows).value).Some?
    requires r < |rows| && !rows[r].ResultRow?
    ensures var units := PrefixUnits(project, run, turn, Load(rows).value).value;
      var place := |Milestones(rows[..r])|;
      place < |units| && ShowsRow(project, run, turn, rows, rows[r], units[place])
  {
    hide Load, PrefixUnits, ShowsRow, IsBlank;
    UnitsShowMilestones(project, run, turn, rows);
    MilestoneAt(rows, r);
  }

  /** Every result of the log is shown in the unit of its proposal, right after the calls
      and the answers before it, whole as the projector gives it. */
  lemma EveryResultIsShown(project: Projector, run: LaneRun, turn: string, rows: seq<Row>, r: nat)
    returns (k: nat, a: Proposed)
    requires Load(rows).Some? && PrefixUnits(project, run, turn, Load(rows).value).Some?
    requires r < |rows| && rows[r].ResultRow?
    ensures k < |rows| && rows[k].ProposalRow? && rows[k].no == rows[r].no && 0 <= rows[r].index < |rows[k].actions|
    ensures a == rows[k].actions[rows[r].index]
    ensures var units := PrefixUnits(project, run, turn, Load(rows).value).value;
      var place := |Milestones(rows[..k])|;
      place < |units| && 1 + rows[r].index < |units[place].messages| &&
      ShowsResult(project, run.runId,
        AcceptedAction(OfAction(rows[r].no, rows[r].index), rows[r].index, a.name, a.input, Some(rows[r].result)),
        units[place].messages[1 + rows[r].index])
  {
    hide Load, PrefixUnits, ShowsResult, Milestones, ProposalShape;
    var p := Load(rows).value;
    var no, index := rows[r].no, rows[r].index;
    LoadRecordsTheLog(rows, rows[r]);
    LoadHasShape(rows);
    var proposal := ProposalRow(no, AsProposed(p.proposals[no - 1]));
    LoadRecordsTheLog(rows, proposal);
    k :| 0 <= k < |rows| && rows[k] == proposal;
    a := rows[k].actions[index];
    EveryRowIsShown(project, run, turn, rows, k);
    var m := PrefixUnits(project, run, turn, p).value[|Milestones(rows[..k])|].messages[1 + index];
    assert AnswersFrom(project, run.runId, rows, no, index, a, m);
    var result :| ResultRow(no, index, result) in rows &&
      ShowsResult(project, run.runId, AcceptedAction(OfAction(no, index), index, a.name, a.input, Some(result)), m);
    LoadRecordsTheLog(rows, ResultRow(no, index, result));
  }

  /** With results shown as stored, the answer carries the very payload that is stored for
      the row. */
  lemma StoredPayloadsAreShown(run: LaneRun, turn: string, rows: seq<Row>, r: nat)
    requires Load(rows).Some? && PrefixUnits(AsStored, run, turn, Load(rows).value).Some?
    requires r < |rows| && rows[r].ResultRow?
    ensures exists unit, i ::
      unit in PrefixUnits(AsStored, run, turn, Load(rows).value).value && unit.kind.AgentStep? &&
      unit.runId == run.runId && unit.decisionNo == rows[r].no && i == 1 + rows[r].index && 0 < i < |unit.messages| &&
      unit.messages[i].answers == OfAction(rows[r].no, rows[r].index) && Seal(rows[r]).Some? &&
      unit.messages[i].content == ResultText(Seal(rows[r]).value.payload)
  {
    hide Load, PrefixUnits, Milestones, ActionResult.Valid, WellFormed, AnswersFrom;
    var k, a := EveryResultIsShown(AsStored, run, turn, rows, r);
    EveryRowIsShown(AsStored, run, turn, rows, k);
    AcceptedRowsAreWellFormed(rows, r);
    SealedPayload(rows[r]);
    var unit := PrefixUnits(AsStored, run, turn, Load(rows).value).value[|Milestones(rows[..k])|];
    assert unit in PrefixUnits(AsStored, run, turn, Load(rows).value).value;
  }

  lemma SealedPayload(row: Row)
    requires row.ResultRow? && WellFormed(row)
    ensures Seal(row).Some? && Seal(row).value.payload == ResultPayload(OfAction(row.no, row.index), row.result.status,
      row.result.output, row.result.errorCode, row.result.error)
  {
  }

  // ----- The whole lane -----

  /** Where turn k begins in the lane. */
  function TurnStart(project: Projector, turns: seq<LaneTurn>, k: nat): nat
    requires k <= |turns| && TurnsUnits(project, turns[..k]).Some?
  {
    |TurnsUnits(project, turns[..k]).value|
  }

  /** Each turn begins with the member's own words, and ends where the next begins. */
  lemma {:induction false} EveryQuestionIsShown(project: Projector, turns: seq<LaneTurn>, k: nat)
    requires k < |turns| && TurnsUnits(project, turns).Some?
    ensures TurnsUnits(project, turns[..k]).Some? && TurnsUnits(project, turns[..k + 1]).Some?
    ensures RunsUnits(project, turns[k].messageId, turns[k].runs).Some?
    ensures var units, at := TurnsUnits(project, turns).value, TurnStart(project, turns, k);
      var next := at + 1 + |RunsUnits(project, turns[k].messageId, turns[k].runs).value|;
      next == TurnStart(project, turns, k + 1) <= |units| &&
      units[at] == ContextUnit(UserMessage, turns[k].messageId, "", 0,
        [ModelMessage(User, Text(turns[k].content), [], Blank)]) &&
      units[at + 1..next] == RunsUnits(project, turns[k].messageId, turns[k].runs).value
    decreases |turns|
  {
    hide RunsUnits;
    var n := |turns| - 1;
    if k < n {
      EveryQuestionIsShown(project, turns[..n], k);
      assert turns[..n][..k] == turns[..k] && turns[..n][..k + 1] == turns[..k + 1];
      var front := TurnsUnits(project, turns[..n]).value;
      var units := TurnsUnits(project, turns).value;
      assert front <= units;
    } else {
      assert turns[..n + 1] == turns;
    }
  }

  /** The Runs of a turn stand one after another, each whole. */
  lemma {:induction false} EveryRunIsShown(project: Projector, turn: string, runs: seq<LaneRun>, j: nat)
    requires j < |runs| && RunsUnits(project, turn, runs).Some?
    ensures RunsUnits(project, turn, runs[..j]).Some? && RunsUnits(project, turn, runs[..j + 1]).Some?
    ensures RunUnits(project, runs[j], turn).Some?
    ensures var units, at := RunsUnits(project, turn, runs).value, |RunsUnits(project, turn, runs[..j]).value|;
      var next := at + |RunUnits(project, runs[j], turn).value|;
      next == |RunsUnits(project, turn, runs[..j + 1]).value| <= |units| &&
      units[at..next] == RunUnits(project, runs[j], turn).value
    decreases |runs|
  {
    hide RunUnits;
    var n := |runs| - 1;
    if j < n {
      EveryRunIsShown(project, turn, runs[..n], j);
      assert runs[..n][..j] == runs[..j] && runs[..n][..j + 1] == runs[..j + 1];
      assert RunsUnits(project, turn, runs[..n]).value <= RunsUnits(project, turn, runs).value;
    } else {
      assert runs[..n + 1] == runs;
    }
  }
}

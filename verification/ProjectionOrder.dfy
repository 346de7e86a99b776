/** The projection shows a log in the log's own order, although the decoded prefix
    keeps proposals and steering messages in two lists. */
module ProjectionOrder {
  import opened Basics
  import opened Identities
  import opened Checkpoints
  import opened CheckpointPrefixes
  import opened CheckpointGrammar
  import opened PendingActions
  import opened Controller
  import opened LogAccounting
  import opened RunStore
  import opened RunInvariants
  import opened ContextProjection

  /** The rows that become units: all but the results. */
  function Milestones(rows: seq<Row>): seq<Row> {
    if rows == [] then []
    else
      var last := rows[|rows| - 1];
      Milestones(rows[..|rows| - 1]) + (if last.ResultRow? then [] else [last])
  }

  function SteeringRows(steering: seq<AcceptedSteering>): (r: seq<Row>)
    ensures |r| == |steering|
    ensures forall i | 0 <= i < |r| :: r[i] == SteeringRow(steering[i].no, steering[i].messageId, steering[i].content)
  {
    seq(|steering|, i requires 0 <= i < |steering| =>
      SteeringRow(steering[i].no, steering[i].messageId, steering[i].content))
  }

  function ProposalOf(proposal: AcceptedProposal): Row {
    ProposalRow(proposal.no, AsProposed(proposal))
  }

  /** The two lists merged the way the projection merges them. */
  function MergedSteps(p: Prefix, k: nat): seq<Row>
    requires k <= |p.proposals|
  {
    if k == 0 then []
    else
      MergedSteps(p, k - 1) + SteeringRows(p.steering[Flushed(p, k - 1)..Flushed(p, k)]) +
      [ProposalOf(p.proposals[k - 1])]
  }

  function Merged(p: Prefix): seq<Row> {
    var n := |p.proposals|;
    MergedSteps(p, n) + SteeringRows(p.steering[Flushed(p, n)..]) +
      (if p.final.Some? then [FinalRow(p.decisions, p.final.value)] else [])
  }

  // ----- Merging undoes the split -----

  lemma {:induction false} FlushesAll(steering: seq<AcceptedSteering>, from: nat, through: int)
    requires from <= |steering| && forall i | 0 <= i < |steering| :: steering[i].no <= through
    ensures Flush(steering, from, through) == |steering|
    decreases |steering| - from
  {
    if from < |steering| {
      FlushesAll(steering, from + 1, through);
    }
  }

  lemma {:induction false} FlushStopsBefore(
    steering: seq<AcceptedSteering>, s: AcceptedSteering, from: nat, through: int)
    requires from <= |steering| && s.no > through
    ensures Flush(steering + [s], from, through) == Flush(steering, from, through)
    decreases |steering| - from
  {
    if from < |steering| {
      FlushStopsBefore(steering, s, from + 1, through);
    }
  }

  lemma {:induction false} SameSteps(p: Prefix, q: Prefix, k: nat)
    requires k <= |p.proposals| && k <= |q.proposals| && p.steering == q.steering
    requires forall j | 0 <= j < k :: ProposalOf(p.proposals[j]) == ProposalOf(q.proposals[j])
    ensures Flushed(p, k) == Flushed(q, k) && MergedSteps(p, k) == MergedSteps(q, k)
  {
    hide AsProposed;
    if k > 0 {
      assert ProposalOf(p.proposals[k - 1]) == ProposalOf(q.proposals[k - 1]);
      SameSteps(p, q, k - 1);
    }
  }

  lemma {:induction false} StepsBeforeMessage(p: Prefix, q: Prefix, s: AcceptedSteering, k: nat)
    requires k <= |p.proposals| && q.proposals == p.proposals && q.steering == p.steering + [s]
    requires forall j | 0 <= j < k :: p.proposals[j].no < s.no
    ensures Flushed(q, k) == Flushed(p, k) && MergedSteps(q, k) == MergedSteps(p, k)
  {
    hide ProposalOf, Flush;
    if k > 0 {
      StepsBeforeMessage(p, q, s, k - 1);
      FlushStopsBefore(p.steering, s, Flushed(p, k - 1), p.proposals[k - 1].no);
      assert q.steering[Flushed(p, k - 1)..Flushed(p, k)] == p.steering[Flushed(p, k - 1)..Flushed(p, k)];
    }
  }

  /** A step after all delivered messages takes every message not yet shown. */
  lemma MergeOneMoreStep(p: Prefix, q: Prefix, row: Row)
    requires q.steering == p.steering && p.final.None? && q.final.None? && |q.proposals| == |p.proposals| + 1
    requires q.proposals[..|p.proposals|] == p.proposals && ProposalOf(q.proposals[|p.proposals|]) == row
    requires forall i | 0 <= i < |p.steering| :: p.steering[i].no <= q.proposals[|p.proposals|].no
    ensures Merged(q) == Merged(p) + [row]
  {
    hide ProposalOf, Flush;
    var n := |p.proposals|;
    assert forall j | 0 <= j < n :: q.proposals[j] == q.proposals[..n][j];
    SameSteps(p, q, n);
    FlushesAll(q.steering, Flushed(q, n), q.proposals[n].no);
    assert Flushed(q, n + 1) == |q.steering|;
    assert q.steering[Flushed(q, n)..|q.steering|] == p.steering[Flushed(p, n)..];
    assert SteeringRows(q.steering[|q.steering|..]) == [];
  }

  lemma MergeProposal(p: Prefix, row: Row)
    requires Shape(p) && row.ProposalRow? && Accept(p, row).Some?
    ensures Merged(Accept(p, row).value) == Merged(p) + [row]
  {
    hide WellFormed, HasIncompleteProposal, Merged;
    var q := Accept(p, row).value;
    assert ProposalOf(q.proposals[|p.proposals|]) == row by {
      assert AsProposed(q.proposals[|p.proposals|]) == row.actions; }
    MergeOneMoreStep(p, q, row);
  }

  lemma MergeSteering(p: Prefix, row: Row)
    requires Shape(p) && row.SteeringRow? && Accept(p, row).Some?
    ensures Merged(Accept(p, row).value) == Merged(p) + [row]
  {
    hide WellFormed, HasIncompleteProposal;
    var q := Accept(p, row).value;
    var n := |p.proposals|;
    assert forall j | 0 <= j < n :: ProposalShape(p.proposals[j], j + 1);
    var s := q.steering[|p.steering|];
    StepsBeforeMessage(p, q, s, n);
    assert SteeringRows(q.steering[Flushed(p, n)..]) == SteeringRows(p.steering[Flushed(p, n)..]) + [row];
  }

  lemma MergeResult(p: Prefix, row: Row)
    requires row.ResultRow? && Accept(p, row).Some?
    ensures Merged(Accept(p, row).value) == Merged(p)
  {
    hide ActionResult.Valid;
    var q := Accept(p, row).value;
    ProposedAfterResult(p, row.index, row.result);
    SameSteps(p, q, |p.proposals|);
  }

  lemma MergeFinal(p: Prefix, row: Row)
    requires row.FinalRow? && Accept(p, row).Some?
    ensures Merged(Accept(p, row).value) == Merged(p) + [row]
  {
    hide WellFormed, HasIncompleteProposal;
    var q := Accept(p, row).value;
    SameSteps(p, q, |p.proposals|);
  }

  /** Merging the two lists gives back the log's own subsequence of steering,
      proposal and Final rows. */
  lemma {:induction false} MergeRecoversTheLog(rows: seq<Row>)
    requires Load(rows).Some?
    ensures Merged(Load(rows).value) == Milestones(rows)
    decreases |rows|
  {
    hide Accept, Merged, Load;
    if rows == [] {
      EmptyMerge();
    } else {
      var front, last := rows[..|rows| - 1], rows[|rows| - 1];
      assert rows == front + [last];
      LoadOneMore(front, last);
      LoadHasShape(front);
      MergeRecoversTheLog(front);
      match last
      case ProposalRow(_, _) => MergeProposal(Load(front).value, last);
      case ResultRow(_, _, _) => MergeResult(Load(front).value, last);
      case FinalRow(_, _) => MergeFinal(Load(front).value, last);
      case SteeringRow(_, _, _) => MergeSteering(Load(front).value, last);
    }
  }

  lemma EmptyMerge()
    ensures Load([]) == Some(EMPTY) && Merged(EMPTY) == []
  {
  }

  // ----- Units show rows -----

  /** The unit that stands for a row. */
  function UnitOf(project: Projector, run: LaneRun, turn: string, p: Prefix, row: Row): Option<ContextUnit> {
    match row
    case ProposalRow(no, _) =>
      if 1 <= no <= |p.proposals| && row == ProposalOf(p.proposals[no - 1])
      then StepUnit(project, run, turn, p.proposals[no - 1]) else None
    case ResultRow(_, _, _) => None
    case FinalRow(no, text) => Some(FinalUnit(run, turn, no, text))
    case SteeringRow(no, messageId, content) => Some(SteeringUnit(run, AcceptedSteering(no, messageId, content)))
  }

  ghost predicate Show(
    project: Projector, run: LaneRun, turn: string, p: Prefix, units: seq<ContextUnit>, rows: seq<Row>) {
    |units| == |rows| && forall i | 0 <= i < |rows| :: UnitOf(project, run, turn, p, rows[i]) == Some(units[i])
  }

  lemma ShowBoth(
    project: Projector, run: LaneRun, turn: string, p: Prefix, units: seq<ContextUnit>, rows: seq<Row>,
    more: seq<ContextUnit>, moreRows: seq<Row>)
    requires Show(project, run, turn, p, units, rows) && Show(project, run, turn, p, more, moreRows)
    ensures Show(project, run, turn, p, units + more, rows + moreRows)
  {
    hide UnitOf;
  }

  lemma SteeringShown(project: Projector, run: LaneRun, turn: string, p: Prefix, steering: seq<AcceptedSteering>)
    ensures Show(project, run, turn, p, SteeringUnits(run, steering), SteeringRows(steering))
  {
  }

  lemma {:induction false} StepsShown(project: Projector, run: LaneRun, turn: string, p: Prefix, k: nat)
    requires Shape(p) && k <= |p.proposals| && StepUnits(project, run, turn, p, k).Some?
    ensures Show(project, run, turn, p, StepUnits(project, run, turn, p, k).value, MergedSteps(p, k))
  {
    hide StepUnit, AsProposed, Flush;
    if k > 0 {
      StepsShown(project, run, turn, p, k - 1);
      var before := StepUnits(project, run, turn, p, k - 1).value;
      var between := p.steering[Flushed(p, k - 1)..Flushed(p, k)];
      var proposal := p.proposals[k - 1];
      assert ProposalShape(proposal, k);
      var step := StepUnit(project, run, turn, proposal).value;
      SteeringShown(project, run, turn, p, between);
      ShowBoth(project, run, turn, p, before, MergedSteps(p, k - 1), SteeringUnits(run, between),
        SteeringRows(between));
      assert Show(project, run, turn, p, [step], [ProposalOf(proposal)]);
      ShowBoth(project, run, turn, p, before + SteeringUnits(run, between),
        MergedSteps(p, k - 1) + SteeringRows(between), [step], [ProposalOf(proposal)]);
    }
  }

  lemma PrefixShown(project: Projector, run: LaneRun, turn: string, p: Prefix)
    requires Shape(p) && PrefixUnits(project, run, turn, p).Some? && (p.final.Some? || IsBlank(run.legacyFinal))
    ensures Show(project, run, turn, p, PrefixUnits(project, run, turn, p).value, Merged(p))
  {
    hide StepUnits, MergedSteps, Shape, IsBlank, StepUnit;
    var n := |p.proposals|;
    StepsShown(project, run, turn, p, n);
    var rest := p.steering[Flushed(p, n)..];
    SteeringShown(project, run, turn, p, rest);
    ShowBoth(project, run, turn, p, StepUnits(project, run, turn, p, n).value, MergedSteps(p, n),
      SteeringUnits(run, rest), SteeringRows(rest));
    var ending := Ending(run, turn, p);
    var final := if p.final.Some? then [FinalRow(p.decisions, p.final.value)] else [];
    assert Show(project, run, turn, p, ending, final);
    ShowBoth(project, run, turn, p, StepUnits(project, run, turn, p, n).value + SteeringUnits(run, rest),
      MergedSteps(p, n) + SteeringRows(rest), ending, final);
  }

  /** A projected Run shows, unit by unit, the steering, proposal and Final rows
      of its log in the log's order. */
  lemma ProjectionFollowsTheLog(project: Projector, run: LaneRun, turn: string, rows: seq<Row>)
    requires Load(rows).Some? && PrefixUnits(project, run, turn, Load(rows).value).Some?
    requires Load(rows).value.final.Some? || IsBlank(run.legacyFinal)
    ensures Show(project, run, turn, Load(rows).value, PrefixUnits(project, run, turn, Load(rows).value).value,
      Milestones(rows))
  {
    hide Load, PrefixUnits, Merged, Shape, IsBlank;
    LoadHasShape(rows);
    MergeRecoversTheLog(rows);
    PrefixShown(project, run, turn, Load(rows).value);
  }

  // ----- What a Run's units depend on -----

  lemma {:induction false} StepsOfSameRun(project: Projector, r: LaneRun, s: LaneRun, turn: string, p: Prefix, k: nat)
    requires r.runId == s.runId && k <= |p.proposals|
    ensures StepUnits(project, r, turn, p, k) == StepUnits(project, s, turn, p, k)
  {
    hide Flush, AnswerMessages;
    if k > 0 {
      StepsOfSameRun(project, r, s, turn, p, k - 1);
      var steering := p.steering[Flushed(p, k - 1)..Flushed(p, k)];
      assert SteeringUnits(r, steering) == SteeringUnits(s, steering);
    }
  }

  /** The published message of a Run whose log has a Final is not shown again. */
  lemma UnitsOfSameRun(project: Projector, r: LaneRun, s: LaneRun, turn: string, p: Prefix)
    requires r.runId == s.runId && (r.legacyFinal == s.legacyFinal || p.final.Some?)
    ensures PrefixUnits(project, r, turn, p) == PrefixUnits(project, s, turn, p)
  {
    hide Flush, StepUnits;
    StepsOfSameRun(project, r, s, turn, p, |p.proposals|);
    var steering := p.steering[Flushed(p, |p.proposals|)..];
    assert SteeringUnits(r, steering) == SteeringUnits(s, steering);
  }

  // ----- A lane only grows at its end -----

  lemma {:induction false} FinishedProposalsStay(rows: seq<Row>, more: seq<Row>, k: nat)
    requires Load(rows).Some? && Load(rows + more).Some? && k < |Load(rows).value.proposals|
    requires Complete(Load(rows).value.proposals[k])
    ensures k < |Load(rows + more).value.proposals|
    ensures Load(rows + more).value.proposals[k] == Load(rows).value.proposals[k]
    decreases |more|
  {
    hide Load;
    if more == [] {
      assert rows + more == rows;
    } else {
      var front, last := more[..|more| - 1], more[|more| - 1];
      assert rows + more == rows + front + [last];
      LoadOneMore(rows + front, last);
      FinishedProposalsStay(rows, front, k);
      AcceptLeavesFinished(Load(rows + front).value, last, k);
    }
  }

  lemma AcceptLeavesFinished(p: Prefix, row: Row, k: nat)
    requires Accept(p, row).Some? && k < |p.proposals| && Complete(p.proposals[k])
    ensures k < |Accept(p, row).value.proposals| && Accept(p, row).value.proposals[k] == p.proposals[k]
  {
    hide ActionResult.Valid, HasIncompleteProposal;
  }

  lemma {:induction false} MilestonesGrow(rows: seq<Row>, more: seq<Row>)
    ensures Milestones(rows) <= Milestones(rows + more)
    decreases |more|
  {
    if more == [] {
      assert rows + more == rows;
    } else {
      MilestonesGrow(rows, more[..|more| - 1]);
      assert (rows + more)[..|rows + more| - 1] == rows + more[..|more| - 1];
    }
  }

  lemma NothingOpenAllComplete(p: Prefix)
    requires Shape(p) && !HasIncompleteProposal(p)
    ensures forall k | 0 <= k < |p.proposals| :: Complete(p.proposals[k])
  {
  }

  /** From one decision boundary to a later one a Run's units only grow at their
      end: what the model saw before stays, in place and unchanged. */
  lemma LaneGrowsAtItsEnd(project: Projector, run: LaneRun, turn: string, rows: seq<Row>, more: seq<Row>)
    requires Load(rows).Some? && Load(rows + more).Some? && !HasIncompleteProposal(Load(rows).value)
    requires IsBlank(run.legacyFinal)
    requires PrefixUnits(project, run, turn, Load(rows).value).Some?
    requires PrefixUnits(project, run, turn, Load(rows + more).value).Some?
    ensures PrefixUnits(project, run, turn, Load(rows).value).value <=
      PrefixUnits(project, run, turn, Load(rows + more).value).value
  {
    hide Load, PrefixUnits, IsBlank, StepUnit, Shape, Complete, AsProposed;
    var p, q := Load(rows).value, Load(rows + more).value;
    var before, after := PrefixUnits(project, run, turn, p).value, PrefixUnits(project, run, turn, q).value;
    LoadHasShape(rows);
    NothingOpenAllComplete(p);
    ProjectionFollowsTheLog(project, run, turn, rows);
    ProjectionFollowsTheLog(project, run, turn, rows + more);
    MilestonesGrow(rows, more);
    forall i | 0 <= i < |before| ensures before[i] == after[i] {
      var row := Milestones(rows)[i];
      assert UnitOf(project, run, turn, p, row) == Some(before[i]);
      assert Milestones(rows + more)[i] == row;
      if row.ProposalRow? {
        FinishedProposalsStay(rows, more, row.no - 1);
      }
    }
  }

  // ----- Terminal runs -----

  /** The projector gives a valid result for an action that has one. */
  ghost predicate Answered(project: Projector, runId: string, action: AcceptedAction) {
    action.result.Some? && project(runId, action).Some? && project(runId, action).value.Valid()
  }

  lemma {:induction false} AnswersExactlyWhenAnswered(
    project: Projector, runId: string, no: int, actions: seq<AcceptedAction>)
    requires forall i | 0 <= i < |actions| :: actions[i].actionId == OfAction(no, i) && actions[i].index == i
    requires no >= 1
    ensures AnswerMessages(project, runId, no, actions).Some? <==>
      forall i | 0 <= i < |actions| :: Answered(project, runId, actions[i])
    decreases |actions|
  {
    hide ActionResult.Valid;
    if actions != [] {
      AnswersExactlyWhenAnswered(project, runId, no, actions[..|actions| - 1]);
    }
  }

  ghost predicate AllAnswered(project: Projector, runId: string, proposal: AcceptedProposal) {
    forall i | 0 <= i < |proposal.actions| :: Answered(project, runId, proposal.actions[i])
  }

  lemma StepExactlyWhenAnswered(project: Projector, run: LaneRun, turn: string, proposal: AcceptedProposal, no: int)
    requires ProposalShape(proposal, no) && no >= 1
    ensures StepUnit(project, run, turn, proposal).Some? <==> AllAnswered(project, run.runId, proposal)
  {
    hide ActionResult.Valid;
    AnswersExactlyWhenAnswered(project, run.runId, no, proposal.actions);
  }

  lemma {:induction false} StepsExactlyWhenAnswered(project: Projector, run: LaneRun, turn: string, p: Prefix, k: nat)
    requires k <= |p.proposals| && forall j | 0 <= j < |p.proposals| :: ProposalShape(p.proposals[j], j + 1)
    ensures StepUnits(project, run, turn, p, k).Some? <==>
      forall j | 0 <= j < k :: AllAnswered(project, run.runId, p.proposals[j])
  {
    hide Flush, StepUnit, ProposalShape, AllAnswered;
    if k > 0 {
      StepsExactlyWhenAnswered(project, run, turn, p, k - 1);
      StepExactlyWhenAnswered(project, run, turn, p.proposals[k - 1], k);
    }
  }

  /** A log projects exactly when every action in it has a result for which the
      projector gives a valid one. */
  lemma ProjectsExactlyWhenAnswered(project: Projector, run: LaneRun, turn: string, rows: seq<Row>)
    requires Load(rows).Some?
    ensures PrefixUnits(project, run, turn, Load(rows).value).Some? <==>
      forall j | 0 <= j < |Load(rows).value.proposals| ::
        AllAnswered(project, run.runId, Load(rows).value.proposals[j])
  {
    hide Load, StepUnits, Ending, AllAnswered;
    var p := Load(rows).value;
    LoadHasShape(rows);
    StepsExactlyWhenAnswered(project, run, turn, p, |p.proposals|);
  }

  lemma AsStoredAnswersAll(runId: string, proposal: AcceptedProposal, no: int)
    requires ProposalShape(proposal, no)
    ensures AllAnswered(AsStored, runId, proposal) <==> Complete(proposal)
  {
    hide ActionResult.Valid;
  }

  /** With results shown as they are stored, a log projects exactly when no
      action in it is open. */
  lemma ProjectsExactlyWhenNothingIsOpen(run: LaneRun, turn: string, rows: seq<Row>)
    requires Load(rows).Some?
    ensures PrefixUnits(AsStored, run, turn, Load(rows).value).Some? <==> !HasIncompleteProposal(Load(rows).value)
  {
    hide Load, PrefixUnits, AllAnswered, Complete, ProposalShape;
    var p := Load(rows).value;
    LoadHasShape(rows);
    ProjectsExactlyWhenAnswered(AsStored, run, turn, rows);
    forall j | 0 <= j < |p.proposals|
      ensures AllAnswered(AsStored, run.runId, p.proposals[j]) <==> Complete(p.proposals[j])
    {
      AsStoredAnswersAll(run.runId, p.proposals[j], j + 1);
    }
    if !HasIncompleteProposal(p) {
      NothingOpenAllComplete(p);
    }
  }

  /** Closing a terminal Run's open actions makes its log projectable. */
  lemma TerminalRunsProject(tree: Tree, db: Db, run: LaneRun, turn: string)
    requires Load(db.rows).Some? && AllAsShown(tree.shown, db.rows) && !db.run.RunQueued? && !db.run.RunRunning?
    ensures var rows := ClosedTerminal(tree, db).rows;
      Load(rows).Some? && PrefixUnits(AsStored, run, turn, Load(rows).value).Some?
  {
    hide Load, PrefixUnits, Closings, RowAsShown;
    OpenExactlyWhenIncomplete(Load(db.rows).value);
    if OpenActions(Load(db.rows).value).Some? {
      ClosingFinishesTheBatch(db.rows);
    }
    ProjectsExactlyWhenNothingIsOpen(run, turn, ClosedTerminal(tree, db).rows);
  }
}

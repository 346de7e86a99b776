/** From the logs of a chat to what the model sees. */
module ContextProjection {
  import opened Basics
  import opened Json
  import opened Identities
  import opened Checkpoints
  import opened CheckpointPrefixes
  import opened CheckpointGrammar

  datatype Role = User | Assistant | Action
  datatype Content = Text(text: string) | ResultText(payload: Payload)
  datatype ActionCall = ActionCall(id: Identity, name: string, input: Raw)
  datatype ModelMessage = ModelMessage(role: Role, content: Content, calls: seq<ActionCall>, answers: Identity)

  datatype UnitKind = UserMessage | AgentStep
  datatype ContextUnit = ContextUnit(kind: UnitKind, messageId: string, runId: string, decisionNo: int,
    messages: seq<ModelMessage>)

  /** The log of a Run, as rows to be loaded or already decoded. */
  datatype RunLog = Stored(checkpoints: seq<Checkpoint>) | Loaded(prefix: Prefix)
  datatype LaneRun = LaneRun(runId: string, log: RunLog, legacyFinal: string)
  datatype LaneTurn = LaneTurn(messageId: string, content: string, runs: seq<LaneRun>)

  /** How a stored result is shown to the model; None is an error. */
  type Projector = (string, AcceptedAction) -> Option<ActionResult>

  /** Results as they are stored. */
  function AsStored(runId: string, action: AcceptedAction): Option<ActionResult> {
    action.result
  }

  const STEERING_NOTICE := "[Steering from the Member]\n"

  // ----- One unit -----

  function Calls(actions: seq<AcceptedAction>): (r: seq<ActionCall>)
    ensures |r| == |actions|
    ensures forall i | 0 <= i < |r| :: r[i] == ActionCall(actions[i].actionId, actions[i].name, actions[i].input)
  {
    seq(|actions|, i requires 0 <= i < |actions| => ActionCall(actions[i].actionId, actions[i].name, actions[i].input))
  }

  /** The message that answers one call. */
  function AnswerMessage(project: Projector, runId: string, no: int, action: AcceptedAction): Option<ModelMessage> {
    if action.result.None? then None
    else
      var shown := project(runId, action);
      if shown.None? then None
      else
        var checkpoint := NewActionResultCheckpoint(no, action.index, action.actionId, shown.value);
        if checkpoint.None? then None
        else Some(ModelMessage(Action, ResultText(checkpoint.value.payload), [], action.actionId))
  }

  function AnswerMessages(
    project: Projector, runId: string, no: int, actions: seq<AcceptedAction>): Option<seq<ModelMessage>> {
    if actions == [] then Some([])
    else
      var n := |actions| - 1;
      var front := AnswerMessages(project, runId, no, actions[..n]);
      var last := AnswerMessage(project, runId, no, actions[n]);
      if front.None? || last.None? then None else Some(front.value + [last.value])
  }

  function StepUnit(project: Projector, run: LaneRun, turn: string, proposal: AcceptedProposal): Option<ContextUnit> {
    var answers := AnswerMessages(project, run.runId, proposal.no, proposal.actions);
    if answers.None? then None
    else Some(ContextUnit(AgentStep, turn, run.runId, proposal.no,
      [ModelMessage(Assistant, Text(""), Calls(proposal.actions), Blank)] + answers.value))
  }

  function SteeringUnit(run: LaneRun, s: AcceptedSteering): ContextUnit {
    ContextUnit(UserMessage, s.messageId, run.runId, s.no,
      [ModelMessage(User, Text(STEERING_NOTICE + s.content), [], Blank)])
  }

  function SteeringUnits(run: LaneRun, steering: seq<AcceptedSteering>): (r: seq<ContextUnit>)
    ensures |r| == |steering| && forall i | 0 <= i < |r| :: r[i] == SteeringUnit(run, steering[i])
  {
    seq(|steering|, i requires 0 <= i < |steering| => SteeringUnit(run, steering[i]))
  }

  function FinalUnit(run: LaneRun, turn: string, no: int, text: string): ContextUnit {
    ContextUnit(AgentStep, turn, run.runId, no, [ModelMessage(Assistant, Text(text), [], Blank)])
  }

  // ----- One Run -----

  /** The first steering message from `from` on that belongs after `through`. */
  function Flush(steering: seq<AcceptedSteering>, from: nat, through: int): (r: nat)
    requires from <= |steering|
    ensures from <= r <= |steering|
    decreases |steering| - from
  {
    if from < |steering| && steering[from].no <= through then Flush(steering, from + 1, through) else from
  }

  /** How many steering messages stand before the end of the first k steps. */
  function Flushed(p: Prefix, k: nat): (r: nat)
    requires k <= |p.proposals|
    ensures r <= |p.steering|
  {
    if k == 0 then 0 else Flush(p.steering, Flushed(p, k - 1), p.proposals[k - 1].no)
  }

  function StepUnits(project: Projector, run: LaneRun, turn: string, p: Prefix, k: nat): Option<seq<ContextUnit>>
    requires k <= |p.proposals|
  {
    if k == 0 then Some([])
    else
      var before := StepUnits(project, run, turn, p, k - 1);
      var step := StepUnit(project, run, turn, p.proposals[k - 1]);
      if before.None? || step.None? then None
      else Some(before.value + SteeringUnits(run, p.steering[Flushed(p, k - 1)..Flushed(p, k)]) + [step.value])
  }

  function Ending(run: LaneRun, turn: string, p: Prefix): seq<ContextUnit> {
    if p.final.Some? then [FinalUnit(run, turn, p.decisions, p.final.value)]
    else if !IsBlank(run.legacyFinal) then [FinalUnit(run, turn, 0, run.legacyFinal)]
    else []
  }

  function PrefixUnits(project: Projector, run: LaneRun, turn: string, p: Prefix): Option<seq<ContextUnit>> {
    var n := |p.proposals|;
    var steps := StepUnits(project, run, turn, p, n);
    if steps.None? then None
    else Some(steps.value + SteeringUnits(run, p.steering[Flushed(p, n)..]) + Ending(run, turn, p))
  }

  function Decoded(log: RunLog): Option<Prefix> {
    match log
    case Stored(checkpoints) => LoadStored(checkpoints)
    case Loaded(prefix) => Some(prefix)
  }

  function RunUnits(project: Projector, run: LaneRun, turn: string): Option<seq<ContextUnit>> {
    var p := Decoded(run.log);
    if p.None? then None else PrefixUnits(project, run, turn, p.value)
  }

  /** Moves the steering index past every message that belongs before a step. */
  method FlushSteering(run: LaneRun, steering: seq<AcceptedSteering>, from: nat, through: int)
    returns (steeringIndex: nat, flushed: seq<ContextUnit>)
    requires from <= |steering|
    ensures steeringIndex == Flush(steering, from, through)
    ensures flushed == SteeringUnits(run, steering[from..steeringIndex])
  {
    steeringIndex, flushed := from, [];
    while steeringIndex < |steering| && steering[steeringIndex].no <= through
      invariant from <= steeringIndex <= |steering|
      invariant Flush(steering, steeringIndex, through) == Flush(steering, from, through)
      invariant flushed == SteeringUnits(run, steering[from..steeringIndex])
    {
      flushed := flushed + [SteeringUnit(run, steering[steeringIndex])];
      steeringIndex := steeringIndex + 1;
    }
  }

  method ProjectRun(project: Projector, run: LaneRun, turn: string) returns (r: Option<seq<ContextUnit>>)
    ensures r == RunUnits(project, run, turn)
  {
    hide LoadStored, PrefixUnits;
    match run.log {
      case Loaded(p) => r := ProjectPrefix(project, run, turn, p);
      case Stored(checkpoints) =>
        var loaded := LoadCheckpointPrefix(checkpoints);
        if loaded.None? {
          return None;
        }
        r := ProjectPrefix(project, run, turn, loaded.value);
    }
  }

  method ProjectPrefix(project: Projector, run: LaneRun, turn: string, prefix: Prefix)
    returns (r: Option<seq<ContextUnit>>)
    ensures r == PrefixUnits(project, run, turn, prefix)
  {
    hide AnswerMessages, Flush;
    var units: seq<ContextUnit> := [];
    var steeringIndex := 0;
    for k := 0 to |prefix.proposals|
      invariant steeringIndex == Flushed(prefix, k)
      invariant StepUnits(project, run, turn, prefix, k) == Some(units)
    {
      StepsOrNothing(project, run, turn, prefix, k + 1);
      var proposal := prefix.proposals[k];
      var flushed;
      steeringIndex, flushed := FlushSteering(run, prefix.steering, steeringIndex, proposal.no);
      var messages := ProjectStep(project, run.runId, proposal);
      if messages.None? {
        return None;
      }
      units := units + flushed + [ContextUnit(AgentStep, turn, run.runId, proposal.no, messages.value)];
    }
    var rest := RemainingSteering(run, prefix.steering, steeringIndex);
    units := units + rest;
    if prefix.final.Some? {
      units := units + [FinalUnit(run, turn, prefix.decisions, prefix.final.value)];
    } else if !IsBlank(run.legacyFinal) {
      units := units + [FinalUnit(run, turn, 0, run.legacyFinal)];
    } else {
      assert units + [] == units;
    }
    return Some(units);
  }

  method RemainingSteering(run: LaneRun, steering: seq<AcceptedSteering>, first: nat) returns (units: seq<ContextUnit>)
    requires first <= |steering|
    ensures units == SteeringUnits(run, steering[first..])
  {
    units := [];
    for steeringIndex := first to |steering|
      invariant units == SteeringUnits(run, steering[first..steeringIndex])
    {
      assert steering[first..steeringIndex + 1] == steering[first..steeringIndex] + [steering[steeringIndex]];
      units := units + [SteeringUnit(run, steering[steeringIndex])];
    }
    assert steering[first..|steering|] == steering[first..];
  }

  /** The messages of one step: the calls, then an answer to each. */
  method ProjectStep(project: Projector, runId: string, proposal: AcceptedProposal)
    returns (r: Option<seq<ModelMessage>>)
    ensures var answers := AnswerMessages(project, runId, proposal.no, proposal.actions);
      r == if answers.None? then None
      else Some([ModelMessage(Assistant, Text(""), Calls(proposal.actions), Blank)] + answers.value)
  {
    hide NewActionResultCheckpoint, AnswerMessages, Calls;
    NoCallsYet(project, runId, proposal.no);
    var actions := proposal.actions;
    var calls: seq<ActionCall> := [];
    assert actions[..0] == [];
    for i := 0 to |actions|
      invariant calls == Calls(actions[..i])
      invariant forall j | 0 <= j < i :: actions[j].result.Some?
    {
      OneMoreCall(project, runId, proposal.no, actions, i);
      if actions[i].result.None? {
        AnswersOrNothing(project, runId, proposal.no, actions, i + 1);
        return None;
      }
      calls := calls + [ActionCall(actions[i].actionId, actions[i].name, actions[i].input)];
    }
    assert actions[..|actions|] == actions;
    var messages := [ModelMessage(Assistant, Text(""), calls, Blank)];
    for i := 0 to |actions|
      invariant AnswerMessages(project, runId, proposal.no, actions[..i]).Some?
      invariant messages == [ModelMessage(Assistant, Text(""), calls, Blank)] +
        AnswerMessages(project, runId, proposal.no, actions[..i]).value
    {
      OneMoreCall(project, runId, proposal.no, actions, i);
      AnswersOrNothing(project, runId, proposal.no, actions, i + 1);
      var shown := project(runId, actions[i]);
      if shown.None? {
        return None;
      }
      var checkpoint := NewActionResultCheckpoint(proposal.no, actions[i].index, actions[i].actionId, shown.value);
      if checkpoint.None? {
        return None;
      }
      messages := messages + [ModelMessage(Action, ResultText(checkpoint.value.payload), [], actions[i].actionId)];
    }
    return Some(messages);
  }

  lemma NoCallsYet(project: Projector, runId: string, no: int)
    ensures Calls([]) == [] && AnswerMessages(project, runId, no, []) == Some([])
  {
  }

  /** The calls and the answers of the first i + 1 actions. */
  lemma OneMoreCall(project: Projector, runId: string, no: int, actions: seq<AcceptedAction>, i: nat)
    requires i < |actions|
    ensures Calls(actions[..i + 1]) ==
      Calls(actions[..i]) + [ActionCall(actions[i].actionId, actions[i].name, actions[i].input)]
    ensures var front := AnswerMessages(project, runId, no, actions[..i]);
      var last := AnswerMessage(project, runId, no, actions[i]);
      AnswerMessages(project, runId, no, actions[..i + 1]) ==
      (if front.None? || last.None? then None else Some(front.value + [last.value]))
  {
    hide AnswerMessage;
    assert actions[..i + 1][..i] == actions[..i];
  }

  lemma {:induction false} StepsOrNothing(project: Projector, run: LaneRun, turn: string, p: Prefix, k: nat)
    requires k <= |p.proposals|
    ensures StepUnits(project, run, turn, p, |p.proposals|).Some? ==> StepUnits(project, run, turn, p, k).Some?
    decreases |p.proposals| - k
  {
    hide StepUnit;
    if k < |p.proposals| {
      StepsOrNothing(project, run, turn, p, k + 1);
    }
  }

  lemma {:induction false} AnswersOrNothing(
    project: Projector, runId: string, no: int, actions: seq<AcceptedAction>, k: nat)
    requires k <= |actions|
    ensures AnswerMessages(project, runId, no, actions).Some? ==> AnswerMessages(project, runId, no, actions[..k]).Some?
    decreases |actions|
  {
    hide AnswerMessage;
    if k < |actions| {
      AnswersOrNothing(project, runId, no, actions[..|actions| - 1], k);
      assert actions[..|actions| - 1][..k] == actions[..k];
    } else {
      assert actions[..k] == actions;
    }
  }

  // ----- The whole lane -----

  function RunsUnits(project: Projector, turn: string, runs: seq<LaneRun>): Option<seq<ContextUnit>> {
    if runs == [] then Some([])
    else
      var n := |runs| - 1;
      var before := RunsUnits(project, turn, runs[..n]);
      var last := RunUnits(project, runs[n], turn);
      if before.None? || last.None? then None else Some(before.value + last.value)
  }

  function Question(turn: LaneTurn): ContextUnit {
    ContextUnit(UserMessage, turn.messageId, "", 0, [ModelMessage(User, Text(turn.content), [], Blank)])
  }

  function TurnUnits(project: Projector, turn: LaneTurn): Option<seq<ContextUnit>> {
    var runs := RunsUnits(project, turn.messageId, turn.runs);
    if runs.None? then None
    else Some([Question(turn)] + runs.value)
  }

  function TurnsUnits(project: Projector, turns: seq<LaneTurn>): Option<seq<ContextUnit>> {
    if turns == [] then Some([])
    else
      var n := |turns| - 1;
      var before := TurnsUnits(project, turns[..n]);
      var last := TurnUnits(project, turns[n]);
      if before.None? || last.None? then None else Some(before.value + last.value)
  }

  function RunIds(runs: seq<LaneRun>): (r: seq<string>)
    ensures |r| == |runs| && forall i | 0 <= i < |r| :: r[i] == runs[i].runId
  {
    seq(|runs|, i requires 0 <= i < |runs| => runs[i].runId)
  }

  function AllRunIds(turns: seq<LaneTurn>): seq<string> {
    if turns == [] then [] else AllRunIds(turns[..|turns| - 1]) + RunIds(turns[|turns| - 1].runs)
  }

  function MessageIds(turns: seq<LaneTurn>): (r: seq<string>)
    ensures |r| == |turns| && forall i | 0 <= i < |r| :: r[i] == turns[i].messageId
  {
    seq(|turns|, i requires 0 <= i < |turns| => turns[i].messageId)
  }

  /** Ids and texts are there, and no message and no Run comes twice. */
  ghost predicate Orderly(turns: seq<LaneTurn>) {
    && (forall i | 0 <= i < |turns| :: !IsBlank(turns[i].messageId) && !IsBlank(turns[i].content))
    && (forall i | 0 <= i < |AllRunIds(turns)| :: !IsBlank(AllRunIds(turns)[i]))
    && Distinct(MessageIds(turns)) && Distinct(AllRunIds(turns))
  }

  ghost function LaneUnits(project: Projector, turns: seq<LaneTurn>): Option<seq<ContextUnit>> {
    if Orderly(turns) then TurnsUnits(project, turns) else None
  }

  lemma {:induction false} RunsOrNothing(project: Projector, turn: string, runs: seq<LaneRun>, k: nat)
    requires k <= |runs|
    ensures RunsUnits(project, turn, runs).Some? ==> RunsUnits(project, turn, runs[..k]).Some?
    decreases |runs|
  {
    hide RunUnits;
    if k < |runs| {
      RunsOrNothing(project, turn, runs[..|runs| - 1], k);
      assert runs[..|runs| - 1][..k] == runs[..k];
    } else {
      assert runs[..k] == runs;
    }
  }

  lemma {:induction false} TurnsOrNothing(project: Projector, turns: seq<LaneTurn>, k: nat)
    requires k <= |turns|
    ensures TurnsUnits(project, turns).Some? ==> TurnsUnits(project, turns[..k]).Some?
    decreases |turns|
  {
    hide TurnUnits;
    if k < |turns| {
      TurnsOrNothing(project, turns[..|turns| - 1], k);
      assert turns[..|turns| - 1][..k] == turns[..k];
    } else {
      assert turns[..k] == turns;
    }
  }

  lemma {:induction false} RunIdsInFront(turns: seq<LaneTurn>, k: nat)
    requires k <= |turns|
    ensures AllRunIds(turns[..k]) <= AllRunIds(turns)
    decreases |turns|
  {
    if k < |turns| {
      RunIdsInFront(turns[..|turns| - 1], k);
      assert turns[..|turns| - 1][..k] == turns[..k];
    } else {
      assert turns[..k] == turns;
    }
  }

  /** A new run id among those seen before breaks the order. */
  lemma RepeatedRun(turns: seq<LaneTurn>, k: nat, runs: seq<LaneRun>, j: nat)
    requires k < |turns| && runs == turns[k].runs && j < |runs|
    requires IsBlank(runs[j].runId) || runs[j].runId in AllRunIds(turns[..k]) + RunIds(runs[..j])
    ensures !Orderly(turns)
  {
    var before := AllRunIds(turns[..k]);
    assert turns[..k + 1][..k] == turns[..k];
    RunIdsInFront(turns, k + 1);
    var all := AllRunIds(turns);
    var here := before + RunIds(runs);
    assert here <= all;
    var at := |before| + j;
    assert all[at] == here[at] == runs[j].runId;
    if runs[j].runId in before + RunIds(runs[..j]) {
      var i :| 0 <= i < |before| + j && (before + RunIds(runs[..j]))[i] == runs[j].runId;
      assert here[i] == (before + RunIds(runs[..j]))[i];
      assert all[i] == all[at];
    }
  }

  lemma OneMoreId(ids: seq<string>, id: string)
    requires Distinct(ids) && id !in ids
    ensures Distinct(ids + [id])
  {
  }

  /** The runs of one turn, with the ids of all runs seen so far. */
  method ProjectRuns(project: Projector, ghost turns: seq<LaneTurn>, ghost k: nat, turn: LaneTurn, seen: set<string>)
    returns (r: Option<seq<ContextUnit>>, seenRuns: set<string>)
    requires k < |turns| && turns[k] == turn && Distinct(AllRunIds(turns[..k]))
    requires forall id :: id in seen <==> id in AllRunIds(turns[..k])
    ensures r.Some? ==> forall id :: id in seenRuns <==> id in AllRunIds(turns[..k + 1])
    ensures r.Some? ==> Distinct(AllRunIds(turns[..k + 1]))
    ensures r.Some? ==> forall j | 0 <= j < |turn.runs| :: !IsBlank(turn.runs[j].runId)
    ensures r == RunsUnits(project, turn.messageId, turn.runs) || (r.None? && !Orderly(turns))
  {
    hide RunUnits, IsBlank, Orderly, Distinct, AllRunIds;
    seenRuns := seen;
    var runs := turn.runs;
    var units: seq<ContextUnit> := [];
    ghost var ids := AllRunIds(turns[..k]);
    for j := 0 to |runs|
      invariant ids == AllRunIds(turns[..k]) + RunIds(runs[..j]) && Distinct(ids)
      invariant forall id :: id in seenRuns <==> id in ids
      invariant forall i | 0 <= i < j :: !IsBlank(runs[i].runId)
      invariant RunsUnits(project, turn.messageId, runs[..j]) == Some(units)
    {
      RunsOrNothing(project, turn.messageId, runs, j + 1);
      if IsBlank(runs[j].runId) || runs[j].runId in seenRuns {
        RepeatedRun(turns, k, runs, j);
        return None, seenRuns;
      }
      seenRuns := seenRuns + {runs[j].runId};
      OneMoreId(ids, runs[j].runId);
      ids := ids + [runs[j].runId];
      assert RunIds(runs[..j + 1]) == RunIds(runs[..j]) + [runs[j].runId];
      var run := ProjectRun(project, runs[j], turn.messageId);
      OneMoreRun(project, turn.messageId, runs, j);
      if run.None? {
        return None, seenRuns;
      }
      units := units + run.value;
    }
    assert runs[..|runs|] == runs;
    RunIdsOfOneMore(turns, k);
    return Some(units), seenRuns;
  }

  lemma RunIdsOfOneMore(turns: seq<LaneTurn>, k: nat)
    requires k < |turns|
    ensures AllRunIds(turns[..k + 1]) == AllRunIds(turns[..k]) + RunIds(turns[k].runs)
  {
    assert turns[..k + 1][..k] == turns[..k];
  }

  lemma OneMoreRun(project: Projector, turn: string, runs: seq<LaneRun>, j: nat)
    requires j < |runs|
    ensures RunsUnits(project, turn, runs[..j + 1]) ==
      (if RunsUnits(project, turn, runs[..j]).None? || RunUnits(project, runs[j], turn).None? then None
       else Some(RunsUnits(project, turn, runs[..j]).value + RunUnits(project, runs[j], turn).value))
  {
    hide RunUnits;
    assert runs[..j + 1][..j] == runs[..j];
  }

  lemma OneMoreTurnShown(project: Projector, turns: seq<LaneTurn>, k: nat)
    requires k < |turns| && TurnsUnits(project, turns[..k]).Some?
    ensures TurnsUnits(project, turns[..k + 1]) ==
      (if RunsUnits(project, turns[k].messageId, turns[k].runs).None? then None
       else Some(TurnsUnits(project, turns[..k]).value +
         ([Question(turns[k])] + RunsUnits(project, turns[k].messageId, turns[k].runs).value)))
  {
    hide RunsUnits;
    assert turns[..k + 1][..k] == turns[..k];
  }

  /** A lane is shown exactly when its ids and texts are in order and each of its Runs can be
      shown. */
  lemma {:induction false} TurnsShownExactlyWhenRunsAre(project: Projector, turns: seq<LaneTurn>)
    ensures TurnsUnits(project, turns).Some? <==>
      forall k, j | 0 <= k < |turns| && 0 <= j < |turns[k].runs| ::
        RunUnits(project, turns[k].runs[j], turns[k].messageId).Some?
    decreases |turns|
  {
    hide RunUnits;
    if turns != [] {
      var n := |turns| - 1;
      TurnsShownExactlyWhenRunsAre(project, turns[..n]);
      RunsShownExactlyWhenAllAre(project, turns[n].messageId, turns[n].runs);
      assert forall k | 0 <= k < n :: turns[..n][k] == turns[k];
    }
  }

  lemma {:induction false} RunsShownExactlyWhenAllAre(project: Projector, turn: string, runs: seq<LaneRun>)
    ensures RunsUnits(project, turn, runs).Some? <==>
      forall j | 0 <= j < |runs| :: RunUnits(project, runs[j], turn).Some?
    decreases |runs|
  {
    hide RunUnits;
    if runs != [] {
      RunsShownExactlyWhenAllAre(project, turn, runs[..|runs| - 1]);
    }
  }

  lemma NoTurns(project: Projector)
    ensures Orderly([]) && TurnsUnits(project, []) == Some([])
  {
  }

  lemma OrderlyRuns(turns: seq<LaneTurn>)
    requires Orderly(turns)
    ensures Distinct(AllRunIds(turns))
  {
  }

  method ProjectChatLane(project: Projector, turns: seq<LaneTurn>) returns (r: Option<seq<ContextUnit>>)
    ensures r == LaneUnits(project, turns)
  {
    hide RunsUnits, TurnsUnits, Orderly, AllRunIds, IsBlank, Distinct;
    var units: seq<ContextUnit> := [];
    var seenMessages, seenRuns := {}, {};
    NoTurns(project);
    assert turns[..0] == [] && AllRunIds([]) == [] by { NoRuns(); }
    for k := 0 to |turns|
      invariant forall id :: id in seenMessages <==> id in MessageIds(turns[..k])
      invariant forall id :: id in seenRuns <==> id in AllRunIds(turns[..k])
      invariant Orderly(turns[..k]) && TurnsUnits(project, turns[..k]) == Some(units)
    {
      TurnsOrNothing(project, turns, k + 1);
      OrderlyRuns(turns[..k]);
      var turn := turns[k];
      if IsBlank(turn.messageId) || IsBlank(turn.content) || turn.messageId in seenMessages {
        RepeatedMessage(turns, k);
        return None;
      }
      seenMessages := seenMessages + {turn.messageId};
      assert MessageIds(turns[..k + 1]) == MessageIds(turns[..k]) + [turn.messageId];
      var runs;
      runs, seenRuns := ProjectRuns(project, turns, k, turn, seenRuns);
      OneMoreTurnShown(project, turns, k);
      if runs.None? {
        return None;
      }
      units := units + ([Question(turn)] + runs.value);
      OneMoreTurn(turns, k);
    }
    assert turns[..|turns|] == turns;
    return Some(units);
  }

  lemma NoRuns()
    ensures AllRunIds([]) == []
  {
  }

  lemma RepeatedMessage(turns: seq<LaneTurn>, k: nat)
    requires k < |turns|
    requires IsBlank(turns[k].messageId) || IsBlank(turns[k].content) || turns[k].messageId in MessageIds(turns[..k])
    ensures !Orderly(turns)
  {
    if turns[k].messageId in MessageIds(turns[..k]) {
      var i :| 0 <= i < k && MessageIds(turns[..k])[i] == turns[k].messageId;
      assert MessageIds(turns)[i] == MessageIds(turns)[k];
    }
  }

  lemma OneMoreTurn(turns: seq<LaneTurn>, k: nat)
    requires k < |turns| && Orderly(turns[..k]) && Distinct(AllRunIds(turns[..k + 1]))
    requires !IsBlank(turns[k].messageId) && !IsBlank(turns[k].content) && turns[k].messageId !in MessageIds(turns[..k])
    requires forall j | 0 <= j < |turns[k].runs| :: !IsBlank(turns[k].runs[j].runId)
    ensures Orderly(turns[..k + 1])
  {
    hide IsBlank;
    var front := turns[..k];
    assert turns[..k + 1][..k] == front;
    assert MessageIds(turns[..k + 1]) == MessageIds(front) + [turns[k].messageId];
  }
}

/** What a projected lane guarantees to the model: every tool call is answered
    once, right after the step that made it. */
module ProjectionMessages {
  import opened Basics
  import opened Identities
  import opened Checkpoints
  import opened CheckpointPrefixes
  import opened ContextProjection

  // ----- Calls and answers -----

  function Messages(units: seq<ContextUnit>): seq<ModelMessage> {
    if units == [] then [] else Messages(units[..|units| - 1]) + units[|units| - 1].messages
  }

  method FlattenContextUnits(units: seq<ContextUnit>) returns (messages: seq<ModelMessage>)
    ensures messages == Messages(units)
  {
    messages := [];
    for i := 0 to |units|
      invariant messages == Messages(units[..i])
    {
      assert units[..i + 1][..i] == units[..i];
      ghost var before := messages;
      var unit := units[i];
      for j := 0 to |unit.messages|
        invariant messages == before + unit.messages[..j]
      {
        messages := messages + [unit.messages[j]];
      }
      assert unit.messages[..|unit.messages|] == unit.messages;
    }
    assert units[..|units|] == units;
  }

  /** The messages of each unit stand together, right after those of the units before it. */
  lemma {:induction false} EveryUnitIsFlattened(units: seq<ContextUnit>, k: nat)
    requires k < |units|
    ensures var at, next := |Messages(units[..k])|, |Messages(units[..k + 1])|;
      next == at + |units[k].messages| <= |Messages(units)| && Messages(units)[at..next] == units[k].messages
    ensures units[..|units|] == units
    decreases |units|
  {
    var n := |units| - 1;
    if k < n {
      EveryUnitIsFlattened(units[..n], k);
      assert units[..n][..k] == units[..k] && units[..n][..k + 1] == units[..k + 1];
      assert Messages(units[..n]) <= Messages(units);
    } else {
      assert units[..n + 1] == units;
    }
  }

  predicate AnswersCalls(calls: seq<ActionCall>, answers: seq<ModelMessage>) {
    |answers| == |calls| &&
    (forall i | 0 <= i < |calls| :: answers[i].role.Action? && answers[i].answers == calls[i].id) &&
    (forall i, j | 0 <= i < j < |calls| :: calls[i].id != calls[j].id)
  }

  /** Each message that calls tools is followed by one answer for each call, in the
      order of the calls, and answers stand nowhere else. */
  predicate Paired(messages: seq<ModelMessage>)
    decreases |messages|
  {
    messages == [] ||
    (!messages[0].role.Action? &&
     var n := |messages[0].calls|;
     n < |messages| && AnswersCalls(messages[0].calls, messages[1..1 + n]) && Paired(messages[1 + n..]))
  }

  lemma {:induction false} PairedBoth(a: seq<ModelMessage>, b: seq<ModelMessage>)
    requires Paired(a) && Paired(b)
    ensures Paired(a + b)
    decreases |a|
  {
    hide AnswersCalls;
    if a == [] {
      assert a + b == b;
    } else {
      var n := |a[0].calls|;
      PairedBoth(a[1 + n..], b);
      assert (a + b)[1..1 + n] == a[1..1 + n];
      assert (a + b)[1 + n..] == a[1 + n..] + b;
    }
  }

  ghost predicate AllPaired(units: seq<ContextUnit>) {
    forall i | 0 <= i < |units| :: Paired(units[i].messages)
  }

  lemma {:induction false} PairedUnitsFlatten(units: seq<ContextUnit>)
    requires AllPaired(units)
    ensures Paired(Messages(units))
    decreases |units|
  {
    hide Paired;
    if units != [] {
      PairedUnitsFlatten(units[..|units| - 1]);
      PairedBoth(Messages(units[..|units| - 1]), units[|units| - 1].messages);
    } else {
      NothingIsPaired();
    }
  }

  lemma NothingIsPaired()
    ensures Paired([])
  {
  }

  lemma PairedAlone(message: ModelMessage)
    requires !message.role.Action? && message.calls == []
    ensures Paired([message])
  {
    assert [message][1..] == [];
  }

  lemma PairedStep(message: ModelMessage, answers: seq<ModelMessage>)
    requires !message.role.Action? && AnswersCalls(message.calls, answers)
    ensures Paired([message] + answers)
  {
    assert ([message] + answers)[1..1 + |answers|] == answers;
    assert ([message] + answers)[1 + |answers|..] == [];
  }

  lemma {:induction false} AnswersInIndexOrder(project: Projector, runId: string, no: int, actions: seq<AcceptedAction>)
    requires AnswerMessages(project, runId, no, actions).Some?
    ensures var answers := AnswerMessages(project, runId, no, actions).value;
      |answers| == |actions| && forall i | 0 <= i < |actions| ::
        answers[i].role.Action? && answers[i].answers == actions[i].actionId
    decreases |actions|
  {
    hide NewActionResultCheckpoint;
    if actions != [] {
      AnswersInIndexOrder(project, runId, no, actions[..|actions| - 1]);
    }
  }

  lemma StepUnitIsPaired(project: Projector, run: LaneRun, turn: string, proposal: AcceptedProposal, no: int)
    requires ProposalShape(proposal, no) && StepUnit(project, run, turn, proposal).Some?
    ensures Paired(StepUnit(project, run, turn, proposal).value.messages)
  {
    hide Paired, ActionResult.Valid, IsActionName;
    AnswersInIndexOrder(project, run.runId, proposal.no, proposal.actions);
    var message := ModelMessage(Assistant, Text(""), Calls(proposal.actions), Blank);
    PairedStep(message, AnswerMessages(project, run.runId, proposal.no, proposal.actions).value);
  }

  lemma AllPairedBoth(a: seq<ContextUnit>, b: seq<ContextUnit>)
    requires AllPaired(a) && AllPaired(b)
    ensures AllPaired(a + b)
  {
    hide Paired;
  }

  lemma SteeringIsPaired(run: LaneRun, steering: seq<AcceptedSteering>)
    ensures AllPaired(SteeringUnits(run, steering))
  {
    hide Paired;
    forall i | 0 <= i < |steering| ensures Paired(SteeringUnits(run, steering)[i].messages) {
      PairedAlone(SteeringUnit(run, steering[i]).messages[0]);
    }
  }

  lemma {:induction false} StepsArePaired(project: Projector, run: LaneRun, turn: string, p: Prefix, k: nat)
    requires k <= |p.proposals| && StepUnits(project, run, turn, p, k).Some?
    requires forall j | 0 <= j < |p.proposals| :: ProposalShape(p.proposals[j], j + 1)
    ensures AllPaired(StepUnits(project, run, turn, p, k).value)
  {
    hide Paired, StepUnit, ProposalShape, Flush;
    if k > 0 {
      StepsArePaired(project, run, turn, p, k - 1);
      SteeringIsPaired(run, p.steering[Flushed(p, k - 1)..Flushed(p, k)]);
      StepUnitIsPaired(project, run, turn, p.proposals[k - 1], k);
    }
  }

  lemma PrefixIsPaired(project: Projector, run: LaneRun, turn: string, p: Prefix)
    requires Shape(p) && PrefixUnits(project, run, turn, p).Some?
    ensures AllPaired(PrefixUnits(project, run, turn, p).value)
  {
    hide Paired, StepUnits, Flush, IsBlank;
    StepsArePaired(project, run, turn, p, |p.proposals|);
    SteeringIsPaired(run, p.steering[Flushed(p, |p.proposals|)..]);
    if Ending(run, turn, p) != [] {
      PairedAlone(Ending(run, turn, p)[0].messages[0]);
    }
  }

  /** Logs that are given already decoded came from the decoder. */
  ghost predicate Decent(turns: seq<LaneTurn>) {
    forall k, j | 0 <= k < |turns| && 0 <= j < |turns[k].runs| && turns[k].runs[j].log.Loaded? ::
      Shape(turns[k].runs[j].log.prefix)
  }

  lemma DecodedHasShape(log: RunLog)
    requires Decoded(log).Some? && (log.Loaded? ==> Shape(log.prefix))
    ensures Shape(Decoded(log).value)
  {
    if log.Stored? {
      LoadHasShape(Outcomes(log.checkpoints));
    }
  }

  lemma {:induction false} RunsArePaired(project: Projector, turn: string, runs: seq<LaneRun>)
    requires RunsUnits(project, turn, runs).Some?
    requires forall j | 0 <= j < |runs| && runs[j].log.Loaded? :: Shape(runs[j].log.prefix)
    ensures AllPaired(RunsUnits(project, turn, runs).value)
    decreases |runs|
  {
    hide Paired, PrefixUnits, Shape, Decoded;
    if runs != [] {
      var last := runs[|runs| - 1];
      RunsArePaired(project, turn, runs[..|runs| - 1]);
      DecodedHasShape(last.log);
      PrefixIsPaired(project, last, turn, Decoded(last.log).value);
    }
  }

  lemma {:induction false} TurnsArePaired(project: Projector, turns: seq<LaneTurn>)
    requires Decent(turns) && TurnsUnits(project, turns).Some?
    ensures AllPaired(TurnsUnits(project, turns).value)
    decreases |turns|
  {
    hide Paired, RunsUnits, Shape;
    if turns != [] {
      var last := turns[|turns| - 1];
      TurnsArePaired(project, turns[..|turns| - 1]);
      RunsArePaired(project, last.messageId, last.runs);
      var question := Question(last);
      PairedAlone(question.messages[0]);
      AllPairedBoth([question], RunsUnits(project, last.messageId, last.runs).value);
      AllPairedBoth(TurnsUnits(project, turns[..|turns| - 1]).value, TurnUnits(project, last).value);
    }
  }

  /** In what the model is given, every tool call is answered exactly once, right
      after its proposal and in index order. */
  lemma EveryCallIsAnsweredOnce(project: Projector, turns: seq<LaneTurn>)
    requires Decent(turns) && LaneUnits(project, turns).Some?
    ensures Paired(Messages(LaneUnits(project, turns).value))
  {
    hide Paired, TurnsUnits, Shape;
    TurnsArePaired(project, turns);
    PairedUnitsFlatten(LaneUnits(project, turns).value);
  }
}

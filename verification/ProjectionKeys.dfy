/** The keys of context units, which compactions use to say where they end. */
module ProjectionKeys {
  import opened Basics
  import opened Identities
  import opened Checkpoints
  import opened CheckpointPrefixes
  import opened ContextProjection
  import opened ProjectionMessages

  function Decimal(n: int): string {
    if n < 0 then "-" + Itoa(-n) else Itoa(n)
  }

  function StepKey(runId: string, no: int): string {
    "run:" + (runId + ("/decision:" + Decimal(no)))
  }

  function ContextUnitKey(unit: ContextUnit): string {
    match unit.kind
    case UserMessage => "message:" + unit.messageId
    case AgentStep => StepKey(unit.runId, unit.decisionNo)
  }

  lemma CancelSuffix<T>(a: seq<T>, b: seq<T>, x: seq<T>, y: seq<T>)
    requires a + x == b + y && |x| == |y|
    ensures a == b && x == y
  {
    assert a == (a + x)[..|a|];
    assert b == (b + y)[..|b|];
    assert x == (a + x)[|a|..];
    assert y == (b + y)[|b|..];
  }

  /** The digits after the last colon have a length that the text fixes. */
  lemma LongerDigitsDiffer(a: string, x: string, b: string, y: string)
    requires |x| > |y| && ':' !in x
    ensures a + ("/decision:" + x) != b + ("/decision:" + y)
  {
    var left, right := a + ("/decision:" + x), b + ("/decision:" + y);
    if |left| == |right| {
      var at := |right| - |y| - 1;
      assert right[at] == ("/decision:" + y)[9] == ':';
      assert left[at] == x[at - |a| - 10];
      assert left[at] in x;
    }
  }

  lemma DecimalHasNoColon(n: int)
    ensures ':' !in Decimal(n)
  {
    var digits := Itoa(if n < 0 then -n else n);
    assert forall i | 0 <= i < |digits| :: IsDigit(digits[i]);
  }

  lemma SignsDiffer(m: nat, n: nat)
    ensures "-" + Itoa(m) != Itoa(n)
  {
    var digits := Itoa(n);
    assert IsDigit(digits[0]);
    assert ("-" + Itoa(m))[0] == '-';
  }

  lemma DecimalInjective(m: int, n: int)
    requires Decimal(m) == Decimal(n)
    ensures m == n
  {
    hide Itoa;
    if m < 0 && n < 0 {
      CancelPrefix("-", Itoa(-m), Itoa(-n));
      ItoaInjective(-m, -n);
    } else if m < 0 {
      SignsDiffer(-m, n);
    } else if n < 0 {
      SignsDiffer(-n, m);
    } else {
      ItoaInjective(m, n);
    }
  }

  /** A step's key names its Run and decision, whatever the run id contains. */
  lemma StepKeyInjective(a: string, m: int, b: string, n: int)
    requires StepKey(a, m) == StepKey(b, n)
    ensures a == b && m == n
  {
    CancelPrefix("run:", a + ("/decision:" + Decimal(m)), b + ("/decision:" + Decimal(n)));
    DecimalHasNoColon(m);
    DecimalHasNoColon(n);
    if |Decimal(m)| > |Decimal(n)| {
      LongerDigitsDiffer(a, Decimal(m), b, Decimal(n));
    } else if |Decimal(m)| < |Decimal(n)| {
      LongerDigitsDiffer(b, Decimal(n), a, Decimal(m));
    }
    assert |Decimal(m)| == |Decimal(n)|;
    CancelSuffix(a, b, "/decision:" + Decimal(m), "/decision:" + Decimal(n));
    CancelPrefix("/decision:", Decimal(m), Decimal(n));
    DecimalInjective(m, n);
  }

  /** Keys are never empty, and equal only for one message or one step. */
  lemma KeysNameUnits(a: ContextUnit, b: ContextUnit)
    ensures ContextUnitKey(a) != ""
    ensures ContextUnitKey(a) == ContextUnitKey(b) <==>
      a.kind == b.kind &&
      (if a.kind.UserMessage? then a.messageId == b.messageId else a.runId == b.runId && a.decisionNo == b.decisionNo)
  {
    if a.kind == b.kind && ContextUnitKey(a) == ContextUnitKey(b) {
      if a.kind.UserMessage? {
        CancelPrefix("message:", a.messageId, b.messageId);
      } else {
        StepKeyInjective(a.runId, a.decisionNo, b.runId, b.decisionNo);
      }
    }
    assert ContextUnitKey(a)[0] == (if a.kind.UserMessage? then 'm' else 'r');
    assert ContextUnitKey(b)[0] == (if b.kind.UserMessage? then 'm' else 'r');
  }

  // ----- No two units of a lane share a key -----

  datatype StepName = StepName(runId: string, no: int)

  /** The steps among the units, by Run and decision. */
  function StepNames(units: seq<ContextUnit>): seq<StepName> {
    if units == [] then []
    else
      var last := units[|units| - 1];
      StepNames(units[..|units| - 1]) + (if last.kind.AgentStep? then [StepName(last.runId, last.decisionNo)] else [])
  }

  /** The messages of the member among the units, questions and steering alike. */
  function UserIds(units: seq<ContextUnit>): seq<string> {
    if units == [] then []
    else
      var last := units[|units| - 1];
      UserIds(units[..|units| - 1]) + (if last.kind.UserMessage? then [last.messageId] else [])
  }

  lemma {:induction false} StepNamesBoth(a: seq<ContextUnit>, b: seq<ContextUnit>)
    ensures StepNames(a + b) == StepNames(a) + StepNames(b)
    decreases |b|
  {
    if b == [] {
      assert a + b == a;
    } else {
      StepNamesBoth(a, b[..|b| - 1]);
      assert (a + b)[..|a + b| - 1] == a + b[..|b| - 1];
    }
  }

  lemma {:induction false} NoStepsAmongMessages(units: seq<ContextUnit>)
    requires forall i | 0 <= i < |units| :: units[i].kind.UserMessage?
    ensures StepNames(units) == []
    decreases |units|
  {
    if units != [] {
      NoStepsAmongMessages(units[..|units| - 1]);
    }
  }

  /** The steps 1 to k of a Run. */
  function StepsUpTo(runId: string, k: nat): (r: seq<StepName>)
    ensures |r| == k && forall i | 0 <= i < k :: r[i] == StepName(runId, i + 1)
  {
    seq(k, i => StepName(runId, i + 1))
  }

  lemma OneStepName(unit: ContextUnit)
    requires unit.kind.AgentStep?
    ensures StepNames([unit]) == [StepName(unit.runId, unit.decisionNo)]
  {
    assert [unit][..0] == [];
  }

  lemma StepUnitName(project: Projector, run: LaneRun, turn: string, proposal: AcceptedProposal)
    requires StepUnit(project, run, turn, proposal).Some?
    ensures StepNames([StepUnit(project, run, turn, proposal).value]) == [StepName(run.runId, proposal.no)]
  {
    hide AnswerMessages;
    OneStepName(StepUnit(project, run, turn, proposal).value);
  }

  lemma {:induction false} StepsAreNumbered(project: Projector, run: LaneRun, turn: string, p: Prefix, k: nat)
    requires k <= |p.proposals| && StepUnits(project, run, turn, p, k).Some?
    requires forall j | 0 <= j < |p.proposals| :: p.proposals[j].no == j + 1
    ensures StepNames(StepUnits(project, run, turn, p, k).value) == StepsUpTo(run.runId, k)
  {
    hide StepUnit, Flush, StepNames;
    if k > 0 {
      StepsAreNumbered(project, run, turn, p, k - 1);
      var before := StepUnits(project, run, turn, p, k - 1).value;
      var between := SteeringUnits(run, p.steering[Flushed(p, k - 1)..Flushed(p, k)]);
      NoStepsAmongMessages(between);
      StepNamesBoth(before, between);
      StepNamesBoth(before + between, [StepUnit(project, run, turn, p.proposals[k - 1]).value]);
      StepUnitName(project, run, turn, p.proposals[k - 1]);
    } else {
      assert StepNames([]) == [] by { NoStepsAmongMessages([]); }
    }
  }

  lemma EndingName(run: LaneRun, turn: string, p: Prefix)
    requires Shape(p)
    ensures var names := StepNames(Ending(run, turn, p));
      |names| <= 1 && (names != [] ==> names[0].runId == run.runId && (names[0].no == 0 || names[0].no > |p.proposals|))
  {
    hide IsBlank, HasIncompleteProposal, Complete, StepNames;
    var ending := Ending(run, turn, p);
    if ending != [] {
      OneStepName(ending[0]);
    } else {
      NoStepsAmongMessages([]);
    }
  }

  lemma ProposalsAreNumbered(p: Prefix)
    requires Shape(p)
    ensures forall j | 0 <= j < |p.proposals| :: p.proposals[j].no == j + 1
  {
    assert forall j | 0 <= j < |p.proposals| :: ProposalShape(p.proposals[j], j + 1);
  }

  /** The steps of a Run: its decisions in order, then the Final, or number 0 for
      a Final published before checkpoints were kept. */
  lemma RunStepsDiffer(project: Projector, run: LaneRun, turn: string, p: Prefix)
    requires Shape(p) && PrefixUnits(project, run, turn, p).Some?
    ensures var names := StepNames(PrefixUnits(project, run, turn, p).value);
      Distinct(names) && forall i | 0 <= i < |names| :: names[i].runId == run.runId
  {
    hide StepUnits, Flush, Shape, Ending, StepNames;
    var n := |p.proposals|;
    ProposalsAreNumbered(p);
    StepsAreNumbered(project, run, turn, p, n);
    var steps := StepUnits(project, run, turn, p, n).value;
    var rest := SteeringUnits(run, p.steering[Flushed(p, n)..]);
    var ending := Ending(run, turn, p);
    NoStepsAmongMessages(rest);
    StepNamesBoth(steps, rest);
    StepNamesBoth(steps + rest, ending);
    EndingName(run, turn, p);
  }

  /** Names of steps of different Runs put together. */
  ghost predicate Of(names: seq<StepName>, runIds: seq<string>) {
    Distinct(names) && forall i | 0 <= i < |names| :: names[i].runId in runIds
  }

  lemma OfBoth(a: seq<StepName>, x: seq<string>, b: seq<StepName>, y: seq<string>)
    requires Of(a, x) && Of(b, y) && Distinct(x + y)
    ensures Of(a + b, x + y)
  {
    forall i, j | 0 <= i < |a| && 0 <= j < |b| ensures a[i] != b[j] {
      var m :| 0 <= m < |x| && x[m] == a[i].runId;
      var n :| 0 <= n < |y| && y[n] == b[j].runId;
      assert (x + y)[m] != (x + y)[|x| + n];
    }
  }

  lemma {:induction false} RunsStepsDiffer(project: Projector, turn: string, runs: seq<LaneRun>)
    requires RunsUnits(project, turn, runs).Some? && Distinct(RunIds(runs))
    requires forall j | 0 <= j < |runs| && runs[j].log.Loaded? :: Shape(runs[j].log.prefix)
    ensures Of(StepNames(RunsUnits(project, turn, runs).value), RunIds(runs))
    decreases |runs|
  {
    hide PrefixUnits, Shape, Decoded, Of;
    if runs == [] {
      assert Of([], RunIds(runs)) by { NobodysSteps(RunIds(runs)); }
    } else {
      var front, last := runs[..|runs| - 1], runs[|runs| - 1];
      assert RunIds(runs) == RunIds(front) + [last.runId];
      RunsStepsDiffer(project, turn, front);
      DecodedHasShape(last.log);
      RunStepsDiffer(project, last, turn, Decoded(last.log).value);
      StepNamesBoth(RunsUnits(project, turn, front).value, RunUnits(project, last, turn).value);
      OneRunsSteps(StepNames(RunUnits(project, last, turn).value), last.runId);
      OfBoth(StepNames(RunsUnits(project, turn, front).value), RunIds(front),
        StepNames(RunUnits(project, last, turn).value), [last.runId]);
    }
  }

  lemma NobodysSteps(runIds: seq<string>)
    ensures Of([], runIds)
  {
  }

  lemma OneRunsSteps(names: seq<StepName>, runId: string)
    requires Distinct(names) && forall i | 0 <= i < |names| :: names[i].runId == runId
    ensures Of(names, [runId])
  {
  }

  lemma {:induction false} TurnsStepsDiffer(project: Projector, turns: seq<LaneTurn>)
    requires TurnsUnits(project, turns).Some? && Distinct(AllRunIds(turns)) && Decent(turns)
    ensures Of(StepNames(TurnsUnits(project, turns).value), AllRunIds(turns))
    decreases |turns|
  {
    hide RunsUnits, Shape, Of;
    if turns == [] {
      NobodysSteps(AllRunIds(turns));
    } else {
      var front, last := turns[..|turns| - 1], turns[|turns| - 1];
      assert forall i | 0 <= i < |AllRunIds(front)| :: AllRunIds(turns)[i] == AllRunIds(front)[i];
      assert forall i | 0 <= i < |RunIds(last.runs)| ::
        AllRunIds(turns)[|AllRunIds(front)| + i] == RunIds(last.runs)[i];
      TurnsStepsDiffer(project, front);
      RunsStepsDiffer(project, last.messageId, last.runs);
      var before, runs := TurnsUnits(project, front).value, RunsUnits(project, last.messageId, last.runs).value;
      var question := Question(last);
      NoStepsAmongMessages([question]);
      StepNamesBoth([question], runs);
      StepNamesBoth(before, [question] + runs);
      OfBoth(StepNames(before), AllRunIds(front), StepNames(runs), RunIds(last.runs));
      assert TurnsUnits(project, turns).value == before + ([question] + runs);
      assert StepNames(before) + ([] + StepNames(runs)) == StepNames(before) + StepNames(runs);
    }
  }

  lemma {:induction false} NamedUnit(units: seq<ContextUnit>, j: nat)
    requires j < |units|
    ensures units[j].kind.AgentStep? ==> StepName(units[j].runId, units[j].decisionNo) in StepNames(units)
    ensures units[j].kind.UserMessage? ==> units[j].messageId in UserIds(units)
    decreases |units|
  {
    if j < |units| - 1 {
      NamedUnit(units[..|units| - 1], j);
    }
  }

  ghost predicate DistinctKeys(units: seq<ContextUnit>) {
    forall i, j | 0 <= i < j < |units| :: ContextUnitKey(units[i]) != ContextUnitKey(units[j])
  }

  lemma {:induction false} NamesDecideKeys(units: seq<ContextUnit>)
    requires Distinct(StepNames(units)) && Distinct(UserIds(units))
    ensures DistinctKeys(units)
    decreases |units|
  {
    hide ContextUnitKey;
    if units != [] {
      var n := |units| - 1;
      var front, last := units[..n], units[n];
      assert forall i | 0 <= i < |StepNames(front)| :: StepNames(units)[i] == StepNames(front)[i];
      assert forall i | 0 <= i < |UserIds(front)| :: UserIds(units)[i] == UserIds(front)[i];
      NamesDecideKeys(front);
      forall i | 0 <= i < n ensures ContextUnitKey(units[i]) != ContextUnitKey(last) {
        KeysNameUnits(units[i], last);
        assert front[i] == units[i];
        NamedUnit(front, i);
        LastNameIsNew(units);
      }
    }
  }

  lemma LastNameIsNew(units: seq<ContextUnit>)
    requires units != [] && Distinct(StepNames(units)) && Distinct(UserIds(units))
    ensures var front, last := units[..|units| - 1], units[|units| - 1];
      (last.kind.AgentStep? ==> StepName(last.runId, last.decisionNo) !in StepNames(front)) &&
      (last.kind.UserMessage? ==> last.messageId !in UserIds(front))
  {
    var front, last := units[..|units| - 1], units[|units| - 1];
    if last.kind.AgentStep? {
      assert StepNames(units) == StepNames(front) + [StepName(last.runId, last.decisionNo)];
      forall i | 0 <= i < |StepNames(front)| ensures StepNames(front)[i] != StepName(last.runId, last.decisionNo) {
        assert StepNames(units)[i] != StepNames(units)[|StepNames(front)|];
      }
    } else {
      assert UserIds(units) == UserIds(front) + [last.messageId];
      forall i | 0 <= i < |UserIds(front)| ensures UserIds(front)[i] != last.messageId {
        assert UserIds(units)[i] != UserIds(units)[|UserIds(front)|];
      }
    }
  }

  /** The units of a projected lane have pairwise different keys, given that no
      message of the member appears twice among its questions and steering. */
  lemma LaneKeysAreDistinct(project: Projector, turns: seq<LaneTurn>)
    requires Decent(turns) && LaneUnits(project, turns).Some? && Distinct(UserIds(LaneUnits(project, turns).value))
    ensures DistinctKeys(LaneUnits(project, turns).value)
  {
    hide TurnsUnits, Shape, DistinctKeys, UserIds, StepNames;
    TurnsStepsDiffer(project, turns);
    NamesDecideKeys(LaneUnits(project, turns).value);
  }
}

/** Actions that still wait for a result, and closing them. */
module PendingActions {
  import opened Basics
  import opened Json
  import opened Identities
  import opened Checkpoints
  import opened CheckpointPrefixes
  import opened CheckpointGrammar

  function PendingOf(actions: seq<AcceptedAction>): (r: seq<AcceptedAction>)
    ensures forall a :: a in r <==> a in actions && a.result.None?
  {
    if actions == [] then []
    else
      var last := actions[|actions| - 1];
      PendingOf(actions[..|actions| - 1]) + (if last.result.None? then [last] else [])
  }

  /** The open batch and its unanswered actions in index order, if there are any. */
  function OpenActions(p: Prefix): Option<seq<AcceptedAction>> {
    if |p.proposals| > 0 && |PendingOf(Last(p).actions)| > 0 then Some(PendingOf(Last(p).actions)) else None
  }

  method IncompleteActions(p: Prefix) returns (r: Option<seq<AcceptedAction>>)
    ensures r == OpenActions(p)
    ensures r.Some? <==> HasIncompleteProposal(p)
  {
    if |p.proposals| == 0 {
      return None;
    }
    var proposal := Last(p);
    var pending: seq<AcceptedAction> := [];
    for i := 0 to |proposal.actions|
      invariant pending == PendingOf(proposal.actions[..i])
    {
      assert proposal.actions[..i + 1][..i] == proposal.actions[..i];
      if proposal.actions[i].result.None? {
        pending := pending + [proposal.actions[i]];
      }
    }
    assert proposal.actions[..|proposal.actions|] == proposal.actions;
    if !Complete(proposal) {
      var i :| 0 <= i < |proposal.actions| && proposal.actions[i].result.None?;
      assert proposal.actions[i] in pending;
    }
    if |pending| == 0 {
      return None;
    }
    assert pending[0] in pending;
    return Some(pending);
  }

  /** Pending actions stand in index order, so no index comes twice. */
  lemma {:induction false} PendingInIndexOrder(actions: seq<AcceptedAction>, i: nat, j: nat)
    requires forall k | 0 <= k < |actions| :: actions[k].index == k
    requires i < j < |PendingOf(actions)|
    ensures 0 <= PendingOf(actions)[i].index < PendingOf(actions)[j].index < |actions|
    decreases |actions|
  {
    var front := actions[..|actions| - 1];
    var before := PendingOf(front);
    if j < |before| {
      PendingInIndexOrder(front, i, j);
    } else {
      assert before[i] in before;
    }
  }

  function Answer(no: int, action: AcceptedAction, result: ActionResult): Row {
    ResultRow(no, action.index, result)
  }

  /** An interrupted result for every given action. */
  function Closings(no: int, pending: seq<AcceptedAction>): (r: seq<Row>)
    ensures |r| == |pending|
    ensures forall i | 0 <= i < |r| :: r[i] == Answer(no, pending[i], INTERRUPTED)
  {
    seq(|pending|, i requires 0 <= i < |pending| => Answer(no, pending[i], INTERRUPTED))
  }

  lemma InterruptedIsValid()
    ensures INTERRUPTED.Valid()
  {
    var e := INTERRUPTED.error.value;
    assert IsActionCode(e.kind);
    assert IsActionCode(e.code);
    assert e.message[0] == 'i';
  }

  /** Well-formed answers to different open actions may follow, in any order and
      in any number. */
  lemma AnswersMayFollow(rows: seq<Row>, answers: seq<Row>)
    requires Load(rows).Some? && AllWellFormed(answers)
    requires var p := Load(rows).value;
      |answers| > 0 ==> |p.proposals| > 0 && AnswersIn(answers, |p.proposals|, Missing(p))
    ensures Load(rows + answers).Some?
  {
    var p := Load(rows).value;
    LoadHasShape(rows);
    LoadFromConcat(EMPTY, rows, answers);
    if |answers| > 0 {
      assert answers[0].index in Missing(p);
      MissingMeansIncomplete(p);
      UnfinishedBatch(p, answers);
      AnswersFit(answers, |p.proposals|, Missing(p));
      if |answers| == |Missing(p)| {
        assert answers[..|answers|] == answers && answers[|answers|..] == [];
      }
    }
  }

  lemma {:induction false} AnswersFit(answers: seq<Row>, no: int, missing: set<int>)
    requires AnswersIn(answers, no, missing)
    ensures |answers| <= |missing|
    decreases |answers|
  {
    if answers != [] {
      AnswersInStep(answers, no, missing);
      AnswersFit(answers[1..], no, missing - {answers[0].index});
    }
  }

  lemma PendingIsMissing(p: Prefix)
    requires Shape(p) && |p.proposals| > 0
    ensures forall a :: a in PendingOf(Last(p).actions) ==>
      a.index in Missing(p) && 0 <= a.index < |Last(p).actions| && Last(p).actions[a.index] == a
  {
    assert ProposalShape(Last(p), |p.proposals|);
  }

  /** With every open action answered, each action of the batch has a result. */
  lemma AnsweredAt(rows: seq<Row>, answers: seq<Row>, i: nat)
    requires Load(rows).Some? && Load(rows + answers).Some? && AllResults(answers)
    requires |Load(rows).value.proposals| > 0 && i < |Last(Load(rows).value).actions|
    requires Last(Load(rows).value).actions[i].result.None? ==>
      exists k :: 0 <= k < |answers| && answers[k].no == |Load(rows).value.proposals| && answers[k].index == i
    ensures |Load(rows + answers).value.proposals| == |Load(rows).value.proposals|
    ensures i < |Last(Load(rows + answers).value).actions| && Last(Load(rows + answers).value).actions[i].result.Some?
  {
    hide Load;
    var p := Load(rows).value;
    LengthAfterAnswers(rows, answers);
    LoadHasShape(rows);
    var all := rows + answers;
    var row: Row;
    if Last(p).actions[i].result.None? {
      var k :| 0 <= k < |answers| && answers[k].no == |p.proposals| && answers[k].index == i;
      row := answers[k];
      assert all[|rows| + k] == row;
    } else {
      row := ResultRow(|p.proposals|, i, Last(p).actions[i].result.value);
      LoadRecordsTheLog(rows, row);
    }
    assert row in all;
    LoadRecordsTheLog(all, row);
  }

  /** Closing the open actions of a log gives a log with no open action. */
  lemma ClosingFinishesTheBatch(rows: seq<Row>)
    requires Load(rows).Some? && OpenActions(Load(rows).value).Some?
    ensures var p := Load(rows).value;
      var closed := Load(rows + Closings(|p.proposals|, OpenActions(p).value));
      closed.Some? && !HasIncompleteProposal(closed.value)
  {
    hide Load, Accept, INTERRUPTED;
    var p := Load(rows).value;
    var pending := OpenActions(p).value;
    var no := |p.proposals|;
    var answers := Closings(no, pending);
    LoadHasShape(rows);
    PendingIsMissing(p);
    InterruptedIsValid();
    PendingAnswersAreDistinct(p, answers);
    AnswersMayFollow(rows, answers);
    LengthAfterAnswers(rows, answers);
    var q := Load(rows + answers).value;
    assert |Last(q).actions| == |Last(p).actions|;
    assert ProposalShape(Last(p), no);
    forall i | 0 <= i < |Last(q).actions| ensures Last(q).actions[i].result.Some? {
      var a := Last(p).actions[i];
      if a.result.None? {
        assert a in pending;
        var k :| 0 <= k < |pending| && pending[k] == a;
        assert answers[k].no == no && answers[k].index == i;
      }
      AnsweredAt(rows, answers, i);
    }
  }

  lemma PendingAnswersAreDistinct(p: Prefix, answers: seq<Row>)
    requires Shape(p) && |p.proposals| > 0
    requires |answers| == |PendingOf(Last(p).actions)|
    requires forall i | 0 <= i < |answers| ::
      answers[i].ResultRow? && answers[i].no == |p.proposals| && answers[i].index == PendingOf(Last(p).actions)[i].index
    ensures AnswersIn(answers, |p.proposals|, Missing(p))
  {
    PendingIsMissing(p);
    assert ProposalShape(Last(p), |p.proposals|);
    var pending := PendingOf(Last(p).actions);
    forall i, j | 0 <= i < j < |answers| ensures answers[i].index != answers[j].index {
      PendingInIndexOrder(Last(p).actions, i, j);
    }
    forall i | 0 <= i < |answers| ensures answers[i].index in Missing(p) {
      assert pending[i] in pending;
    }
  }

  /** Answers add no proposal. */
  lemma {:induction false} LengthAfterAnswers(rows: seq<Row>, answers: seq<Row>)
    requires AllResults(answers) && Load(rows + answers).Some? && Load(rows).Some?
    ensures |Load(rows + answers).value.proposals| == |Load(rows).value.proposals|
    ensures |Load(rows).value.proposals| > 0 && |Load(rows + answers).value.proposals| > 0 ==>
      |Last(Load(rows + answers).value).actions| == |Last(Load(rows).value).actions|
    ensures Load(rows + answers).value.final == Load(rows).value.final
    ensures Load(rows + answers).value.steering == Load(rows).value.steering
    ensures Load(rows + answers).value.decisions == Load(rows).value.decisions
    decreases |answers|
  {
    if answers == [] {
      assert rows + answers == rows;
    } else {
      var front := answers[..|answers| - 1];
      assert rows + answers == rows + front + [answers[|answers| - 1]];
      LoadOneMore(rows + front, answers[|answers| - 1]);
      LengthAfterAnswers(rows, front);
    }
  }
}

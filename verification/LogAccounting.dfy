/** How one more row of a log changes the sums the controller keeps over it. */
module LogAccounting {
  import opened Basics
  import opened Identities
  import opened Checkpoints
  import opened CheckpointPrefixes
  import opened CheckpointGrammar
  import opened PendingActions
  import opened Controller

  lemma ProposedAfterResult(p: Prefix, index: nat, result: ActionResult)
    requires |p.proposals| > 0 && index < |Last(p).actions|
    ensures var q := WithResult(p, index, result); AsProposed(Last(q)) == AsProposed(Last(p))
  {
    var q := WithResult(p, index, result);
    assert |AsProposed(Last(q))| == |AsProposed(Last(p))|;
  }

  lemma {:induction false} OneMoreAnswered(
    size: Row -> nat, no: int, actions: seq<AcceptedAction>, index: nat, answered: AcceptedAction)
    requires index < |actions| && actions[index].result.None? && answered.result.Some?
    ensures ResultBytesOf(size, no, actions[index := answered]) ==
      ResultBytesOf(size, no, actions) + size(ResultRow(no, answered.index, answered.result.value))
    decreases |actions|
  {
    var n := |actions| - 1;
    if index < n {
      OneMoreAnswered(size, no, actions[..n], index, answered);
      assert actions[index := answered][..n] == actions[..n][index := answered];
    } else {
      assert actions[index := answered][..n] == actions[..n];
    }
  }

  lemma AnswerKeepsBudgets(p: Prefix, row: Row)
    requires row.ResultRow? && Accept(p, row).Some?
    ensures var q := Accept(p, row).value;
      |q.proposals| == |p.proposals| > 0 && AsProposed(Last(q)) == AsProposed(Last(p)) &&
      BusinessActions(q.proposals) == BusinessActions(p.proposals) &&
      BusinessDecisions(q.proposals) == BusinessDecisions(p.proposals)
  {
    hide ActionResult.Valid, BusinessOf;
    var q := Accept(p, row).value;
    ProposedAfterResult(p, row.index, row.result);
    assert q.proposals[..|p.proposals| - 1] == p.proposals[..|p.proposals| - 1];
  }

  lemma AnswerAddsItsBytes(size: Row -> nat, p: Prefix, row: Row)
    requires Shape(p) && row.ResultRow? && Accept(p, row).Some?
    ensures row.no == |p.proposals| > 0 && 0 <= row.index < |Last(p).actions|
    ensures ResultBytes(size, Accept(p, row).value.proposals) == ResultBytes(size, p.proposals) + size(row)
  {
    hide ActionResult.Valid;
    var q := Accept(p, row).value;
    var n := |p.proposals| - 1;
    assert ProposalShape(Last(p), |p.proposals|);
    assert q.proposals[..n] == p.proposals[..n];
    OneMoreAnswered(size, row.no, Last(p).actions, row.index, Last(q).actions[row.index]);
  }

  lemma {:induction false} UnansweredBytes(size: Row -> nat, no: int, actions: seq<AcceptedAction>)
    requires forall i | 0 <= i < |actions| :: actions[i].result.None?
    ensures ResultBytesOf(size, no, actions) == 0
    decreases |actions|
  {
    if actions != [] {
      UnansweredBytes(size, no, actions[..|actions| - 1]);
    }
  }

  lemma ProposalCounts(size: Row -> nat, p: Prefix, row: Row)
    requires row.ProposalRow? && Accept(p, row).Some?
    ensures var q := Accept(p, row).value;
      q.proposals[..|q.proposals| - 1] == p.proposals && AsProposed(Last(q)) == row.actions &&
      ResultBytes(size, q.proposals) == ResultBytes(size, p.proposals) &&
      BusinessActions(q.proposals) == BusinessActions(p.proposals) + BusinessOf(row.actions) &&
      BusinessDecisions(q.proposals) == BusinessDecisions(p.proposals) + (if BusinessOf(row.actions) > 0 then 1 else 0)
  {
    var q := Accept(p, row).value;
    assert q.proposals[..|q.proposals| - 1] == p.proposals;
    assert AsProposed(Last(q)) == row.actions;
    UnansweredBytes(size, row.no, Last(q).actions);
  }

  /** Answers change neither what was proposed nor the budgets spent, and add
      exactly their own bytes. */
  lemma {:induction false} AnswersOnlyAddBytes(size: Row -> nat, rows: seq<Row>, answers: seq<Row>)
    requires AllResults(answers) && Load(rows + answers).Some? && Load(rows).Some? && |Load(rows).value.proposals| > 0
    ensures var p, q := Load(rows).value, Load(rows + answers).value;
      |q.proposals| == |p.proposals| && AsProposed(Last(q)) == AsProposed(Last(p)) &&
      ResultBytes(size, q.proposals) == ResultBytes(size, p.proposals) + RowBytes(size, answers)
    decreases |answers|
  {
    hide Load, Accept, ResultBytes;
    if answers == [] {
      assert rows + answers == rows;
    } else {
      var front, last := answers[..|answers| - 1], answers[|answers| - 1];
      assert rows + answers == rows + front + [last];
      LoadOneMore(rows + front, last);
      AnswersOnlyAddBytes(size, rows, front);
      LoadHasShape(rows + front);
      AnswerKeepsBudgets(Load(rows + front).value, last);
      AnswerAddsItsBytes(size, Load(rows + front).value, last);
    }
  }

  lemma {:induction false} RowBytesGrow(size: Row -> nat, rows: seq<Row>, k: nat)
    requires k < |rows|
    ensures RowBytes(size, rows[..k]) + size(rows[k]) == RowBytes(size, rows[..k + 1]) <= RowBytes(size, rows)
    decreases |rows|
  {
    assert rows[..k + 1][..k] == rows[..k];
    var front := rows[..|rows| - 1];
    if k < |rows| - 1 {
      RowBytesGrow(size, front, k);
      assert front[..k + 1] == rows[..k + 1];
      assert front[..k] == rows[..k];
    } else {
      assert rows[..k + 1] == rows;
    }
  }
}

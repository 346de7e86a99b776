/** Crashes leave no trace: with replay-safe, deterministic tools and a model that
    looks only at the decoded log, all schedules that reach a Final agree on it
    and on everything before it. */
module Transparency {
  import opened Basics
  import opened Identities
  import opened Checkpoints
  import opened CheckpointPrefixes
  import opened CheckpointGrammar
  import opened PendingActions
  import opened Controller
  import opened RunStore
  import opened RunProtocol
  import opened RunInvariants
  import opened LogAccounting
  import opened Provenance
  import Budgets

  /** One answer for each question, no messages from the member, and only tools
      that may be run again. */
  ghost predicate Repeatable(env: Env) {
    && !env.steers
    && (forall p: Prefix, d: Decision, e: Decision :: env.decides(p, d) && env.decides(p, e) ==> d == e)
    && (forall a: Proposed, r: ActionResult, s: ActionResult :: env.gives(a, r) && env.gives(a, s) ==> r == s)
    && (forall p, actions: seq<Proposed>, i :: env.decides(p, ProposalDecision(actions)) && 0 <= i < |actions| ==>
      actions[i].name in env.safe)
  }

  function ActionCount(proposals: seq<AcceptedProposal>): nat {
    if proposals == [] then 0
    else ActionCount(proposals[..|proposals| - 1]) + |proposals[|proposals| - 1].actions|
  }

  /** The decoded log as the model saw it before decision k + 1. */
  function Cut(p: Prefix, k: nat): Prefix
    requires k <= |p.proposals|
  {
    Prefix(p.proposals[..k], [], None, k, ActionCount(p.proposals[..k]))
  }

  /** Everything in `p` is what model and tools answer. */
  ghost predicate Explained(env: Env, p: Prefix) {
    && p.steering == [] && p.actions == ActionCount(p.proposals)
    && (forall k | 0 <= k < |p.proposals| :: env.decides(Cut(p, k), ProposalDecision(AsProposed(p.proposals[k]))))
    && (forall k, i | 0 <= k < |p.proposals| && 0 <= i < |p.proposals[k].actions| &&
      p.proposals[k].actions[i].result.Some? ::
          env.gives(AsProposed(p.proposals[k])[i], p.proposals[k].actions[i].result.value))
    && (p.final.Some? ==> env.decides(Cut(p, |p.proposals|), FinalDecision(p.final.value)))
  }

  // ----- Deterministic answers leave no choice -----

  lemma SameBatch(env: Env, p: Prefix, q: Prefix, k: nat)
    requires Repeatable(env) && Explained(env, p) && Explained(env, q) && Shape(p) && Shape(q)
    requires k < |p.proposals| && k < |q.proposals| && Cut(p, k) == Cut(q, k)
    requires Complete(p.proposals[k]) && Complete(q.proposals[k])
    ensures p.proposals[k] == q.proposals[k]
  {
    var a, b := p.proposals[k], q.proposals[k];
    assert ProposalShape(a, k + 1) && ProposalShape(b, k + 1);
    assert AsProposed(a) == AsProposed(b);
    forall i | 0 <= i < |a.actions| ensures a.actions[i] == b.actions[i] {
      assert AsProposed(a)[i] == AsProposed(b)[i];
      assert env.gives(AsProposed(a)[i], a.actions[i].result.value);
      assert env.gives(AsProposed(b)[i], b.actions[i].result.value);
    }
  }

  /** Two explained logs agree on every batch finished in both. */
  lemma {:induction false} FinishedBatchesAgree(env: Env, p: Prefix, q: Prefix, k: nat)
    requires Repeatable(env) && Explained(env, p) && Explained(env, q) && Shape(p) && Shape(q)
    requires k <= |p.proposals| && k <= |q.proposals|
    requires forall j | 0 <= j < k :: Complete(p.proposals[j]) && Complete(q.proposals[j])
    ensures p.proposals[..k] == q.proposals[..k]
  {
    hide Repeatable, Explained, Shape, Complete;
    if k > 0 {
      FinishedBatchesAgree(env, p, q, k - 1);
      SameBatch(env, p, q, k - 1);
      assert p.proposals[..k] == p.proposals[..k - 1] + [p.proposals[k - 1]];
      assert q.proposals[..k] == q.proposals[..k - 1] + [q.proposals[k - 1]];
    }
  }

  lemma FinalMeansFinished(p: Prefix)
    requires Shape(p) && p.final.Some?
    ensures forall k | 0 <= k < |p.proposals| :: Complete(p.proposals[k])
  {
  }

  lemma FinalAndProposalDiffer(env: Env, p: Prefix, q: Prefix)
    requires Repeatable(env) && Explained(env, p) && Explained(env, q) && p.final.Some? && |p.proposals| < |q.proposals|
    ensures Cut(p, |p.proposals|) != Cut(q, |p.proposals|)
  {
    var n := |p.proposals|;
    assert env.decides(Cut(p, n), FinalDecision(p.final.value));
    assert env.decides(Cut(q, n), ProposalDecision(AsProposed(q.proposals[n])));
  }

  lemma NoLongerLog(env: Env, p: Prefix, q: Prefix)
    requires Repeatable(env) && Explained(env, p) && Explained(env, q) && Shape(p) && Shape(q)
    requires p.final.Some? && q.final.Some?
    ensures |q.proposals| <= |p.proposals|
  {
    hide Shape, Explained, Repeatable;
    FinalMeansFinished(p);
    FinalMeansFinished(q);
    if |p.proposals| < |q.proposals| {
      FinalAndProposalDiffer(env, p, q);
      FinishedBatchesAgree(env, p, q, |p.proposals|);
    }
  }

  lemma FinalDeterminesAll(env: Env, p: Prefix, q: Prefix)
    requires Repeatable(env) && Explained(env, p) && Explained(env, q) && Shape(p) && Shape(q)
    requires p.final.Some? && q.final.Some?
    ensures p == q
  {
    NoLongerLog(env, p, q);
    NoLongerLog(env, q, p);
    FinalMeansFinished(p);
    FinalMeansFinished(q);
    var n := |p.proposals|;
    FinishedBatchesAgree(env, p, q, n);
    assert p.proposals[..n] == p.proposals && q.proposals[..n] == q.proposals;
    assert Cut(p, n) == Cut(q, n);
  }

  // ----- Every log of a run that was not cut off is explained -----

  lemma CutOfAll(env: Env, p: Prefix)
    requires Explained(env, p) && Shape(p) && p.final.None?
    ensures Cut(p, |p.proposals|) == p
  {
    hide HasIncompleteProposal, Complete;
    assert p.proposals[..|p.proposals|] == p.proposals;
  }

  lemma ProposalStaysExplained(env: Env, p: Prefix, row: Row)
    requires Explained(env, p) && Cut(p, |p.proposals|) == p && row.ProposalRow? && Accept(p, row).Some?
    requires env.decides(p, ProposalDecision(row.actions))
    ensures Explained(env, Accept(p, row).value)
  {
    hide WellFormed, HasIncompleteProposal;
    var q := Accept(p, row).value;
    var n := |p.proposals|;
    assert q.proposals[..n] == p.proposals;
    assert AsProposed(q.proposals[n]) == row.actions;
    forall k | 0 <= k <= n ensures Cut(q, k) == Cut(p, k) {
      assert q.proposals[..k] == p.proposals[..k];
    }
  }

  lemma {:induction false} CountAfterResult(p: Prefix, index: nat, result: ActionResult)
    requires |p.proposals| > 0 && index < |Last(p).actions|
    ensures ActionCount(WithResult(p, index, result).proposals) == ActionCount(p.proposals)
  {
    assert WithResult(p, index, result).proposals[..|p.proposals| - 1] == p.proposals[..|p.proposals| - 1];
  }

  lemma ResultStaysExplained(env: Env, p: Prefix, row: Row)
    requires Explained(env, p) && row.ResultRow? && Accept(p, row).Some?
    requires Answers(p, row) && env.gives(Answered(p, row), row.result)
    ensures Explained(env, Accept(p, row).value)
  {
    hide WellFormed;
    var q := Accept(p, row).value;
    var n := |p.proposals| - 1;
    ProposedAfterResult(p, row.index, row.result);
    CountAfterResult(p, row.index, row.result);
    forall k | 0 <= k <= n ensures Cut(q, k) == Cut(p, k) {
      assert q.proposals[..k] == p.proposals[..k];
    }
    forall k, i | 0 <= k <= n && 0 <= i < |q.proposals[k].actions| && q.proposals[k].actions[i].result.Some?
      ensures env.gives(AsProposed(q.proposals[k])[i], q.proposals[k].actions[i].result.value)
    {
      if k < n || i != row.index {
        assert q.proposals[k].actions[i] == p.proposals[k].actions[i];
      }
    }
  }

  lemma FinalStaysExplained(env: Env, p: Prefix, row: Row)
    requires Explained(env, p) && Cut(p, |p.proposals|) == p && row.FinalRow? && Accept(p, row).Some?
    requires env.decides(p, FinalDecision(row.text))
    ensures Explained(env, Accept(p, row).value)
  {
    hide WellFormed, HasIncompleteProposal;
    var q := Accept(p, row).value;
    assert forall k | 0 <= k <= |p.proposals| :: Cut(q, k) == Cut(p, k);
  }

  lemma NotYetFinal(p: Prefix, row: Row)
    requires Accept(p, row).Some?
    ensures p.final.None?
  {
  }

  /** An action of an explained log is replay-safe, so no attempt closes it. */
  lemma NothingIsClosed(env: Env, p: Prefix, row: Row)
    requires Repeatable(env) && Explained(env, p) && Answers(p, row)
    ensures Answered(p, row).name in env.safe
  {
    var n := |p.proposals| - 1;
    assert env.decides(Cut(p, n), ProposalDecision(AsProposed(p.proposals[n])));
  }

  lemma OneMoreRowExplained(env: Env, rows: seq<Row>, row: Row, author: nat, execs: seq<Exec>)
    requires Repeatable(env) && Load(rows + [row]).Some? && Built(env, rows, row, author, execs) && author >= 1
    requires Explained(env, Load(rows).value)
    ensures Explained(env, Load(rows + [row]).value)
  {
    hide Load, Accept, Explained, Shape, WithinBudget, ResultBytes, Answered, Cut;
    var p := Load(rows).value;
    LoadOneMore(rows, row);
    LoadHasShape(rows);
    match row
    case ProposalRow(_, _) => NotYetFinal(p, row); CutOfAll(env, p); ProposalStaysExplained(env, p, row);
    case FinalRow(_, _) => NotYetFinal(p, row); CutOfAll(env, p); FinalStaysExplained(env, p, row);
    case SteeringRow(_, _, _) =>
    case ResultRow(_, _, _) => NothingIsClosed(env, p, row); ResultStaysExplained(env, p, row);
  }

  lemma {:induction false} BuiltLogsAreExplained(env: Env, rows: seq<Row>, authors: seq<nat>, execs: seq<Exec>)
    requires Repeatable(env) && Load(rows).Some? && LogBuilt(env, rows, authors, execs) && ByAttempts(authors)
    ensures Explained(env, Load(rows).value)
    decreases |rows|
  {
    hide Built, Load, Repeatable;
    if rows == [] {
      EmptyLogIsExplained(env);
    } else {
      var n := |rows| - 1;
      AcceptedLogsArePrefixClosed(rows, n);
      assert rows == rows[..n] + [rows[n]];
      forall k | 0 <= k < n ensures Built(env, rows[..n][..k], rows[..n][k], authors[..n][k], execs) {
        assert rows[..n][..k] == rows[..k];
      }
      BuiltLogsAreExplained(env, rows[..n], authors[..n], execs);
      OneMoreRowExplained(env, rows[..n], rows[n], authors[n], execs);
    }
  }

  lemma EmptyLogIsExplained(env: Env)
    ensures Load([]).Some? && Explained(env, Load([]).value)
  {
  }

  // ----- A Run that goes on was not closed -----

  ghost predicate ByAttempts(authors: seq<nat>) {
    forall i | 0 <= i < |authors| :: authors[i] >= 1
  }

  /** Only a Run that ended without a Final has rows no attempt wrote. */
  ghost predicate ClosedOnlyAtTheEnd(db: Db) {
    Unfinished(db) || (Load(db.rows).Some? && Load(db.rows).value.final.Some?) ==> ByAttempts(db.authors)
  }

  lemma NextClosesOnlyAtTheEnd(env: Env, sys: System, event: Event)
    requires Invariant(sys) && ClosedOnlyAtTheEnd(sys.db)
    ensures ClosedOnlyAtTheEnd(Next(env, sys, event).db)
  {
    hide LocalOk, Load, Move, ClosedTerminal;
    if event.ByAttempt? && 1 <= event.no <= |sys.locals| {
      AttemptSignsItsRows(env, sys, event.no, event.step);
    }
    if event.CloseTerminal? {
      ClosingComesAtTheEnd(env.tree, sys.db);
    }
  }

  lemma ClosingComesAtTheEnd(tree: Tree, db: Db)
    requires DbOk(db) && ClosedOnlyAtTheEnd(db)
    ensures ClosedOnlyAtTheEnd(ClosedTerminal(tree, db))
  {
    hide Load, Closings;
    var after := ClosedTerminal(tree, db);
    if after != db {
      var p := Load(db.rows).value;
      var closings := Closings(|p.proposals|, OpenActions(p).value);
      LoadHasShape(db.rows);
      TerminalClosingsMayFollow(db.rows);
      OpenExactlyWhenIncomplete(p);
      LengthAfterAnswers(db.rows, closings);
    }
  }

  lemma AttemptSignsItsRows(env: Env, sys: System, no: nat, step: Step)
    requires Invariant(sys) && ClosedOnlyAtTheEnd(sys.db) && 1 <= no <= |sys.locals|
    ensures ClosedOnlyAtTheEnd(Move(env, sys.db, sys.locals[no - 1], step).db)
  {
    hide LocalOk, Load, Move;
    var l := sys.locals[no - 1];
    MoveIsOk(env, sys.db, l, step);
    Budgets.MoveWritesOneRow(env, sys.db, l, step);
  }

  lemma {:induction false} EveryRunClosesOnlyAtTheEnd(env: Env, events: seq<Event>)
    ensures ClosedOnlyAtTheEnd(Run(env, events).db)
    decreases |events|
  {
    hide Next;
    if events != [] {
      EveryRunClosesOnlyAtTheEnd(env, events[..|events| - 1]);
      EveryRunKeepsInvariant(env, events[..|events| - 1]);
      NextClosesOnlyAtTheEnd(env, Run(env, events[..|events| - 1]), events[|events| - 1]);
    }
  }

  lemma ReachableLogsAreExplained(env: Env, events: seq<Event>)
    requires Repeatable(env)
    requires var db := Run(env, events).db; Unfinished(db) || (Load(db.rows).Some? && Load(db.rows).value.final.Some?)
    ensures Load(Run(env, events).db.rows).Some? && Explained(env, Load(Run(env, events).db.rows).value)
  {
    hide Run, Load, Built, LocalBuilds, LocalOk, Repeatable;
    EveryRunKeepsInvariant(env, events);
    EveryRowIsBuilt(env, events);
    EveryRunClosesOnlyAtTheEnd(env, events);
    var sys := Run(env, events);
    BuiltLogsAreExplained(env, sys.db.rows, sys.db.authors, sys.execs);
  }

  /** Any two schedules that reach a Final reach the same decoded proposals,
      results and Final, whatever crashes, partial batches, lost leases and
      retries happened on the way. */
  lemma CrashesLeaveNoTrace(env: Env, a: seq<Event>, b: seq<Event>)
    requires Repeatable(env)
    requires Load(Run(env, a).db.rows).Some? && Load(Run(env, a).db.rows).value.final.Some?
    requires Load(Run(env, b).db.rows).Some? && Load(Run(env, b).db.rows).value.final.Some?
    ensures Load(Run(env, a).db.rows) == Load(Run(env, b).db.rows)
  {
    hide Run, Load, Repeatable, Explained, Shape;
    ReachableLogsAreExplained(env, a);
    ReachableLogsAreExplained(env, b);
    LoadHasShape(Run(env, a).db.rows);
    LoadHasShape(Run(env, b).db.rows);
    FinalDeterminesAll(env, Load(Run(env, a).db.rows).value, Load(Run(env, b).db.rows).value);
  }
}

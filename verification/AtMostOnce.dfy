/** A tool that may not be run again is started at most once for each accepted
    action, by the attempt that proposed it. */
module AtMostOnce {
  import opened Basics
  import opened Identities
  import opened Checkpoints
  import opened CheckpointPrefixes
  import opened CheckpointGrammar
  import opened PendingActions
  import opened Controller
  import opened RunStore
  import opened RunProtocol
  import opened RunInvariants
  import opened LogAccounting
  import opened Provenance
  import Budgets

  // ----- Who proposed an action -----

  /** Row k proposes action `index` of decision `no`. */
  predicate ProposesAt(rows: seq<Row>, authors: seq<nat>, k: int, no: int, index: int) {
    0 <= k < |rows| && k < |authors| && rows[k].ProposalRow? && rows[k].no == no && 0 <= index < |rows[k].actions|
  }

  ghost predicate IsSafe(env: Env, rows: seq<Row>, authors: seq<nat>, no: int, index: int) {
    exists k :: ProposesAt(rows, authors, k, no, index) && rows[k].actions[index].name in env.safe
  }

  ghost predicate Proposer(rows: seq<Row>, authors: seq<nat>, no: int, index: int, who: nat) {
    exists k :: ProposesAt(rows, authors, k, no, index) && authors[k] == who
  }

  lemma ProposedOnce(rows: seq<Row>, authors: seq<nat>, j: int, k: int, no: int, index: int)
    requires Load(rows).Some? && ProposesAt(rows, authors, j, no, index) && ProposesAt(rows, authors, k, no, index)
    ensures j == k
  {
    hide Load;
    if j < k { IdentityKeysAreDistinct(rows, j, k); }
    if k < j { IdentityKeysAreDistinct(rows, k, j); }
  }

  lemma OneProposer(rows: seq<Row>, authors: seq<nat>, no: int, index: int, a: nat, b: nat)
    requires Load(rows).Some? && Proposer(rows, authors, no, index, a) && Proposer(rows, authors, no, index, b)
    ensures a == b
  {
    hide Load;
    var j :| ProposesAt(rows, authors, j, no, index) && authors[j] == a;
    var k :| ProposesAt(rows, authors, k, no, index) && authors[k] == b;
    ProposedOnce(rows, authors, j, k, no, index);
  }

  lemma StaysProposed(
    env: Env, rows: seq<Row>, authors: seq<nat>, rows': seq<Row>, authors': seq<nat>, no: int, index: int, who: nat)
    requires rows <= rows' && authors <= authors'
    ensures IsSafe(env, rows, authors, no, index) ==> IsSafe(env, rows', authors', no, index)
    ensures Proposer(rows, authors, no, index, who) ==> Proposer(rows', authors', no, index, who)
  {
    if IsSafe(env, rows, authors, no, index) {
      var k :| ProposesAt(rows, authors, k, no, index) && rows[k].actions[index].name in env.safe;
      assert ProposesAt(rows', authors', k, no, index) && rows'[k] == rows[k];
    }
    if Proposer(rows, authors, no, index, who) {
      var k :| ProposesAt(rows, authors, k, no, index) && authors[k] == who;
      assert ProposesAt(rows', authors', k, no, index) && authors'[k] == authors[k];
    }
  }

  /** The decoded batch stands in the log as one row. */
  lemma BatchStandsInLog(rows: seq<Row>, authors: seq<nat>, index: int) returns (k: nat)
    requires Load(rows).Some? && |authors| == |rows| && |Load(rows).value.proposals| > 0
    requires 0 <= index < |Last(Load(rows).value).actions|
    ensures ProposesAt(rows, authors, k, |Load(rows).value.proposals|, index)
    ensures rows[k].actions[index].name == Last(Load(rows).value).actions[index].name
  {
    hide Load;
    var p := Load(rows).value;
    var row := ProposalRow(|p.proposals|, AsProposed(Last(p)));
    assert Records(p, row);
    LoadRecordsTheLog(rows, row);
    k :| 0 <= k < |rows| && rows[k] == row;
  }

  // ----- The invariant -----

  ghost predicate Attributed(env: Env, rows: seq<Row>, authors: seq<nat>, e: Exec) {
    IsSafe(env, rows, authors, e.no, e.index) || Proposer(rows, authors, e.no, e.index, e.attempt)
  }

  ghost predicate StartsOk(env: Env, rows: seq<Row>, authors: seq<nat>, execs: seq<Exec>) {
    && (forall i | 0 <= i < |execs| :: Attributed(env, rows, authors, execs[i]))
    && (forall i, j | 0 <= i < j < |execs| && execs[i].no == execs[j].no && execs[i].index == execs[j].index ::
          IsSafe(env, rows, authors, execs[i].no, execs[i].index))
  }

  predicate StartedBefore(execs: seq<Exec>, no: int, index: int) {
    exists i :: 0 <= i < |execs| && execs[i].no == no && execs[i].index == index
  }

  /** An action this attempt may still start: replay-safe, or its own and not
      started yet. */
  ghost predicate MayStart(env: Env, rows: seq<Row>, authors: seq<nat>, l: Local, execs: seq<Exec>, no: int, index: int)
    requires l.pc.Running?
  {
    IsSafe(env, rows, authors, no, index) ||
    (Proposer(rows, authors, no, index, l.attempt.no) && (StartedBefore(execs, no, index) ==> index in l.pc.started))
  }

  ghost predicate ToolsOk(env: Env, rows: seq<Row>, authors: seq<nat>, l: Local, execs: seq<Exec>) {
    l.pc.Running? ==>
      Load(l.pc.seen).Some? && (forall t | t in l.pc.started :: t in l.pc.todo) &&
      forall t | t in l.pc.todo :: MayStart(env, rows, authors, l, execs, |Load(l.pc.seen).value.proposals|, t)
  }

  /** Whatever this attempt started is replay-safe or answered in `log`, except
      for the tools in `started` of decision `no`. */
  ghost predicate DoneBut(env: Env, db: Db, log: seq<Row>, who: nat, execs: seq<Exec>, no: int, started: set<int>) {
    forall i | 0 <= i < |execs| && execs[i].attempt == who ::
      IsSafe(env, db.rows, db.authors, execs[i].no, execs[i].index) ||
      HasKey(log, OfAction(execs[i].no, execs[i].index)) ||
      (execs[i].no == no && execs[i].index in started)
  }

  /** Every open action of the log is replay-safe or proposed by `who`. */
  ghost predicate OwnOpen(env: Env, rows: seq<Row>, authors: seq<nat>, who: nat) {
    Load(rows).Some? &&
    (|Load(rows).value.proposals| > 0 ==>
      forall i | i in Missing(Load(rows).value) ::
        IsSafe(env, rows, authors, |Load(rows).value.proposals|, i) ||
        Proposer(rows, authors, |Load(rows).value.proposals|, i, who))
  }

  function AuthorsWith(authors: seq<nat>, n: nat, more: nat, who: nat): seq<nat> {
    (if n <= |authors| then authors[..n] else authors) + seq(more, i => who)
  }

  ghost predicate HolderOk(env: Env, db: Db, l: Local, execs: seq<Exec>) {
    match l.pc
    case Top => db.inDoubt.None? && DoneBut(env, db, db.rows, l.attempt.no, execs, 0, {}) &&
      (l.boundary || OwnOpen(env, db.rows, db.authors, l.attempt.no))
    case Running(seen, _, started) =>
      Load(seen).Some? && DoneBut(env, db, db.rows, l.attempt.no, execs, |Load(seen).value.proposals|, started) &&
      OwnOpen(env, db.rows, db.authors, l.attempt.no)
    case Steerable(_) => DoneBut(env, db, db.rows, l.attempt.no, execs, 0, {})
    case Deciding(_) => DoneBut(env, db, db.rows, l.attempt.no, execs, 0, {})
    case Appending(view, queue, _, _, after) =>
      (db.rows != view ==> |db.authors| == |view| + 1 && db.authors[|view|] == l.attempt.no) &&
      (after.BackToTop? ==>
         DoneBut(env, db, view + queue, l.attempt.no, execs, 0, {}) &&
         OwnOpen(env, view + queue, AuthorsWith(db.authors, |view|, |queue|, l.attempt.no), l.attempt.no))
    case Failing => true
    case Publishing(_, _, _) => true
    case Stopped(_) => true
  }

  ghost predicate Once(env: Env, sys: System) {
    && StartsOk(env, sys.db.rows, sys.db.authors, sys.execs)
    && (forall i | 0 <= i < |sys.execs| :: 1 <= sys.execs[i].attempt <= sys.db.attemptNo)
    && (forall i | 0 <= i < |sys.locals| :: ToolsOk(env, sys.db.rows, sys.db.authors, sys.locals[i], sys.execs))
    && (forall i | 0 <= i < |sys.locals| && Owns(sys.db, sys.locals[i]) ::
      HolderOk(env, sys.db, sys.locals[i], sys.execs))
  }

  // ----- A growing log -----

  lemma StartsOkGrows(
    env: Env, rows: seq<Row>, authors: seq<nat>, rows': seq<Row>, authors': seq<nat>, execs: seq<Exec>)
    requires StartsOk(env, rows, authors, execs) && rows <= rows' && authors <= authors'
    ensures StartsOk(env, rows', authors', execs)
  {
    hide IsSafe, Proposer;
    forall i | 0 <= i < |execs| ensures Attributed(env, rows', authors', execs[i]) {
      assert Attributed(env, rows, authors, execs[i]);
      StaysProposed(env, rows, authors, rows', authors', execs[i].no, execs[i].index, execs[i].attempt);
    }
    forall i, j | 0 <= i < j < |execs| && execs[i].no == execs[j].no && execs[i].index == execs[j].index
      ensures IsSafe(env, rows', authors', execs[i].no, execs[i].index)
    {
      StaysProposed(env, rows, authors, rows', authors', execs[i].no, execs[i].index, execs[i].attempt);
    }
  }

  lemma ToolsOkGrows(
    env: Env, rows: seq<Row>, authors: seq<nat>, rows': seq<Row>, authors': seq<nat>, l: Local, execs: seq<Exec>)
    requires ToolsOk(env, rows, authors, l, execs) && rows <= rows' && authors <= authors'
    ensures ToolsOk(env, rows', authors', l, execs)
  {
    hide IsSafe, Proposer, Load, StartedBefore;
    if l.pc.Running? {
      forall t | t in l.pc.todo ensures MayStart(env, rows', authors', l, execs, |Load(l.pc.seen).value.proposals|, t) {
        StaysProposed(env, rows, authors, rows', authors', |Load(l.pc.seen).value.proposals|, t, l.attempt.no);
      }
    }
  }

  lemma DoneGrows(
    env: Env, db: Db, after: Db, log: seq<Row>, log': seq<Row>, who: nat, execs: seq<Exec>, no: int, started: set<int>)
    requires DoneBut(env, db, log, who, execs, no, started) && db.rows <= after.rows && db.authors <= after.authors
    requires forall key :: HasKey(log, key) ==> HasKey(log', key)
    ensures DoneBut(env, after, log', who, execs, no, started)
  {
    hide IsSafe, HasKey;
    forall i | 0 <= i < |execs| && execs[i].attempt == who
      ensures IsSafe(env, db.rows, db.authors, execs[i].no, execs[i].index) ==>
        IsSafe(env, after.rows, after.authors, execs[i].no, execs[i].index)
    {
      StaysProposed(env, db.rows, db.authors, after.rows, after.authors, execs[i].no, execs[i].index, who);
    }
  }

  lemma KeysStay(log: seq<Row>, more: seq<Row>)
    ensures forall key :: HasKey(log, key) ==> HasKey(log + more, key)
  {
    forall key | HasKey(log, key) ensures HasKey(log + more, key) {
      var i :| 0 <= i < |log| && Key(log[i]) == key;
      assert (log + more)[i] == log[i];
    }
  }

  // ----- Which open actions an attempt answers for -----

  lemma MissingIsUnanswered(rows: seq<Row>, index: int)
    requires Load(rows).Some? && |Load(rows).value.proposals| > 0 && index in Missing(Load(rows).value)
    ensures !HasKey(rows, OfAction(|Load(rows).value.proposals|, index))
  {
    hide Load;
    var p := Load(rows).value;
    forall i | 0 <= i < |rows| ensures Key(rows[i]) != OfAction(|p.proposals|, index) {
      LoadRecordsTheLog(rows, rows[i]);
    }
  }

  lemma NothingMissing(env: Env, rows: seq<Row>, authors: seq<nat>, who: nat)
    requires Load(rows).Some? && !HasIncompleteProposal(Load(rows).value)
    ensures OwnOpen(env, rows, authors, who)
  {
    hide Load;
    var p := Load(rows).value;
    if |p.proposals| > 0 {
      MissingMeansIncomplete(p);
    }
  }

  lemma FirstAttemptOwnsAll(env: Env, db: Db, execs: seq<Exec>)
    requires DbOk(db) && DbBuilt(env, db, execs) && db.attemptNo == 1
    ensures OwnOpen(env, db.rows, db.authors, 1)
  {
    hide Load;
    var p := Load(db.rows).value;
    if |p.proposals| > 0 {
      forall i | i in Missing(p) ensures Proposer(db.rows, db.authors, |p.proposals|, i, 1) {
        var k := BatchStandsInLog(db.rows, db.authors, i);
        assert Built(env, db.rows[..k], db.rows[k], db.authors[k], execs);
      }
    }
  }

  lemma SafeInLog(env: Env, rows: seq<Row>, authors: seq<nat>, i: int)
    requires Load(rows).Some? && |authors| == |rows| && |Load(rows).value.proposals| > 0
    requires 0 <= i < |Last(Load(rows).value).actions|
    requires Last(Load(rows).value).actions[i].name in env.safe
    ensures IsSafe(env, rows, authors, |Load(rows).value.proposals|, i)
  {
    hide Load;
    var k := BatchStandsInLog(rows, authors, i);
  }

  lemma SafeRestIsOwn(env: Env, rows: seq<Row>, authors: seq<nat>, who: nat)
    requires Load(rows).Some? && |authors| == |rows| && OpenActions(Load(rows).value).Some?
    requires Unsafe(env.safe, OpenActions(Load(rows).value).value) == []
    ensures OwnOpen(env, rows, authors, who)
  {
    hide Load;
    var p := Load(rows).value;
    forall i | i in Missing(p) ensures IsSafe(env, rows, authors, |p.proposals|, i) {
      assert Last(p).actions[i] in OpenActions(p).value;
      assert Last(p).actions[i] !in Unsafe(env.safe, OpenActions(p).value);
      SafeInLog(env, rows, authors, i);
    }
  }

  lemma StillMissing(rows: seq<Row>, answers: seq<Row>, i: int)
    requires Load(rows).Some? && Load(rows + answers).Some? && AllResults(answers) && |Load(rows).value.proposals| > 0
    requires |Load(rows + answers).value.proposals| > 0 && i in Missing(Load(rows + answers).value)
    ensures |Load(rows + answers).value.proposals| == |Load(rows).value.proposals| && i in Missing(Load(rows).value)
    ensures forall k | 0 <= k < |answers| && answers[k].no == |Load(rows).value.proposals| :: answers[k].index != i
  {
    hide Load;
    LengthAfterAnswers(rows, answers);
    if i !in Missing(Load(rows).value) || exists k ::
      0 <= k < |answers| && answers[k].no == |Load(rows).value.proposals| && answers[k].index == i {
      AnsweredAt(rows, answers, i);
    }
  }

  /** Answers leave open only what was open before. */
  lemma OwnAfterAnswers(env: Env, rows: seq<Row>, authors: seq<nat>, answers: seq<Row>, who: nat)
    requires OwnOpen(env, rows, authors, who) && |authors| == |rows|
    requires AllResults(answers) && Load(rows + answers).Some? && |Load(rows).value.proposals| > 0
    ensures OwnOpen(env, rows + answers, AuthorsWith(authors, |rows|, |answers|, who), who)
  {
    hide Load, IsSafe, Proposer, Missing;
    var all, signed := rows + answers, AuthorsWith(authors, |rows|, |answers|, who);
    if |Load(all).value.proposals| > 0 {
      forall i | i in Missing(Load(all).value)
        ensures IsSafe(env, all, signed, |Load(all).value.proposals|, i) ||
          Proposer(all, signed, |Load(all).value.proposals|, i, who)
      {
        StillMissing(rows, answers, i);
        StaysProposed(env, rows, authors, all, signed, |Load(rows).value.proposals|, i, who);
      }
    }
  }

  /** Once the unsafe open actions are closed, what is left open is replay-safe. */
  lemma OwnAfterClosings(env: Env, rows: seq<Row>, authors: seq<nat>, who: nat)
    requires Load(rows).Some? && |authors| == |rows| && OpenActions(Load(rows).value).Some?
    requires var p := Load(rows).value;
      Load(rows + Closings(|p.proposals|, Unsafe(env.safe, OpenActions(p).value))).Some?
    ensures var p := Load(rows).value;
      var closings := Closings(|p.proposals|, Unsafe(env.safe, OpenActions(p).value));
      OwnOpen(env, rows + closings, AuthorsWith(authors, |rows|, |closings|, who), who)
  {
    hide Load, IsSafe, Proposer, INTERRUPTED;
    var p := Load(rows).value;
    var unknown := Unsafe(env.safe, OpenActions(p).value);
    var closings := Closings(|p.proposals|, unknown);
    var all, signed := rows + closings, AuthorsWith(authors, |rows|, |closings|, who);
    LoadHasShape(rows);
    if |Load(all).value.proposals| > 0 {
      forall i | i in Missing(Load(all).value) ensures IsSafe(env, all, signed, |Load(all).value.proposals|, i) {
        StillMissing(rows, closings, i);
        NotClosedIsSafe(env.safe, p, i, closings);
        SafeInLog(env, rows, authors, i);
        StaysProposed(env, rows, authors, all, signed, |p.proposals|, i, who);
      }
    }
  }

  lemma NotClosedIsSafe(safe: set<string>, p: Prefix, i: int, closings: seq<Row>)
    requires Shape(p) && OpenActions(p).Some? && i in Missing(p)
    requires closings == Closings(|p.proposals|, Unsafe(safe, OpenActions(p).value))
    requires forall k | 0 <= k < |closings| && closings[k].no == |p.proposals| :: closings[k].index != i
    ensures Last(p).actions[i].name in safe
  {
    hide INTERRUPTED;
    var a := Last(p).actions[i];
    var unknown := Unsafe(safe, OpenActions(p).value);
    assert ProposalShape(Last(p), |p.proposals|);
    assert a in OpenActions(p).value;
    forall k | 0 <= k < |unknown| ensures unknown[k] != a {
      assert closings[k].index != i;
    }
  }

  lemma {:induction false} SteeringKeepsProposals(rows: seq<Row>, queue: seq<Row>)
    requires Load(rows).Some? && Load(rows + queue).Some? && forall i | 0 <= i < |queue| :: queue[i].SteeringRow?
    ensures Load(rows + queue).value.proposals == Load(rows).value.proposals
    decreases |queue|
  {
    hide Load;
    if queue == [] {
      assert rows + queue == rows;
    } else {
      var n := |queue| - 1;
      assert rows + queue == rows + queue[..n] + [queue[n]];
      LoadOneMore(rows + queue[..n], queue[n]);
      SteeringKeepsProposals(rows, queue[..n]);
    }
  }

  lemma OwnAfterProposal(env: Env, rows: seq<Row>, authors: seq<nat>, row: Row, who: nat)
    requires Load(rows).Some? && |authors| == |rows| && Load(rows + [row]).Some? && row.ProposalRow?
    ensures OwnOpen(env, rows + [row], AuthorsWith(authors, |rows|, 1, who), who)
  {
    hide Load, WellFormed, HasIncompleteProposal;
    LoadOneMore(rows, row);
    LoadHasShape(rows + [row]);
    var all, signed := rows + [row], AuthorsWith(authors, |rows|, 1, who);
    var p := Load(all).value;
    forall i | i in Missing(p) ensures Proposer(all, signed, |p.proposals|, i, who) {
      assert ProposalShape(Last(p), |p.proposals|);
      assert ProposesAt(all, signed, |rows|, |p.proposals|, i);
    }
  }

  // ----- Steps of the holder -----

  /** What one step may add to the starts: nothing, or one start of a tool the
      attempt may start. */
  ghost predicate MayAdd(env: Env, db: Db, l: Local, more: seq<Exec>, execs: seq<Exec>) {
    more == [] ||
    (l.pc.Running? && Load(l.pc.seen).Some? && |more| == 1 && more[0].no == |Load(l.pc.seen).value.proposals| &&
     more[0].attempt == l.attempt.no && more[0].index !in l.pc.started &&
     MayStart(env, db.rows, db.authors, l, execs, more[0].no, more[0].index))
  }

  ghost predicate StepOk(env: Env, db: Db, l: Local, m: Moved, execs: seq<Exec>) {
    var next := l.(boundary := m.boundary, pc := m.pc);
    MayAdd(env, db, l, m.execs, execs) && ToolsOk(env, m.db.rows, m.db.authors, next, execs + m.execs) &&
    (Owns(m.db, next) ==> HolderOk(env, m.db, next, execs + m.execs))
  }

  lemma ChosenMayStart(env: Env, db: Db, l: Local, execs: seq<Exec>)
    requires DbOk(db) && l.pc.Running? && l.pc.seen == db.rows && l.pc.started == {}
    requires Todo(Load(db.rows).value, l.pc.todo)
    requires StartsOk(env, db.rows, db.authors, execs) && DoneBut(env, db, db.rows, l.attempt.no, execs, 0, {})
    requires OwnOpen(env, db.rows, db.authors, l.attempt.no)
    ensures ToolsOk(env, db.rows, db.authors, l, execs)
  {
    hide Load, IsSafe, Proposer, HasKey, Missing;
    var no := |Load(db.rows).value.proposals|;
    forall t | t in l.pc.todo ensures MayStart(env, db.rows, db.authors, l, execs, no, t) {
      MissingIsUnanswered(db.rows, t);
      forall i | 0 <= i < |execs| && execs[i].no == no && execs[i].index == t
        ensures IsSafe(env, db.rows, db.authors, no, t) {
        assert Attributed(env, db.rows, db.authors, execs[i]);
        if !IsSafe(env, db.rows, db.authors, no, t) {
          OneProposer(db.rows, db.authors, no, t, execs[i].attempt, l.attempt.no);
        }
      }
    }
  }

  lemma DoneButNobody(env: Env, db: Db, log: seq<Row>, who: nat, execs: seq<Exec>, no: int)
    requires DoneBut(env, db, log, who, execs, 0, {})
    ensures DoneBut(env, db, log, who, execs, no, {})
  {
    hide IsSafe, HasKey;
  }

  lemma LoadedStepOk(env: Env, db: Db, l: Local, execs: seq<Exec>)
    requires DbOk(db) && DbBuilt(env, db, execs) && l.pc.Top? && db.inDoubt.None? && l.attempt.no >= 1
    requires StartsOk(env, db.rows, db.authors, execs) && (Owns(db, l) ==> HolderOk(env, db, l, execs))
    ensures StepOk(env, db, l, Loaded(env, db, l), execs)
  {
    hide Load, Todo, IsSafe, Proposer, HasKey, Closings, Unsafe, Chosen, DoneBut, OwnOpen, DbBuilt;
    assert execs + [] == execs;
    if CheckAuthority(db, l.attempt) == Held && ReadLog(env.tree.shown, db.rows).Some? {
      var p := Load(db.rows).value;
      LoadHasShape(db.rows);
      if p.final.None? && OpenActions(p).Some? {
        OpenBatchStepOk(env, db, l, p, execs);
      }
    }
  }

  lemma OpenBatchStepOk(env: Env, db: Db, l: Local, p: Prefix, execs: seq<Exec>)
    requires DbOk(db) && DbBuilt(env, db, execs) && Owns(db, l) && l.pc.Top? && db.inDoubt.None? && l.attempt.no >= 1
    requires StartsOk(env, db.rows, db.authors, execs) && HolderOk(env, db, l, execs)
    requires Load(db.rows) == Some(p) && Shape(p) && p.final.None? && OpenActions(p).Some?
    ensures StepOk(env, db, l, LoadedWithOpenBatch(env, db, l, p, OpenActions(p).value), execs)
  {
    hide Load, Todo, IsSafe, Proposer, HasKey, Closings, Unsafe, Chosen, DoneBut, OwnOpen, DbBuilt;
    assert execs + [] == execs;
    var pending := OpenActions(p).value;
    var unknown := Unsafe(env.safe, pending);
    var who := l.attempt.no;
    if l.boundary && who > 1 && unknown != [] {
      PendingIncreases(p);
      UnsafeKeepOrder(env.safe, pending);
      ClosingsMayFollow(db.rows, unknown);
      OwnAfterClosings(env, db.rows, db.authors, who);
      KeysStay(db.rows, Closings(|p.proposals|, unknown));
      DoneGrows(env, db, db, db.rows, db.rows + Closings(|p.proposals|, unknown), who, execs, 0, {});
    } else {
      if l.boundary && who == 1 {
        FirstAttemptOwnsAll(env, db, execs);
      } else if l.boundary {
        SafeRestIsOwn(env, db.rows, db.authors, who);
      }
      ChosenAreMissing(env, p, pending);
      DoneButNobody(env, db, db.rows, who, execs, |p.proposals|);
      ChosenMayStart(env, db, l.(boundary := false, pc := Running(db.rows, Chosen(env, pending), {})), execs);
    }
  }

  /** Queued rows that are to be followed by another round. */
  lemma QueuedStepOk(env: Env, db: Db, l: Local, queue: seq<Row>, after: After, execs: seq<Exec>)
    requires DbOk(db) && db.inDoubt.None?
    requires Owns(db, l) && after.BackToTop? ==>
      DoneBut(env, db, db.rows + queue, l.attempt.no, execs, 0, {}) &&
      OwnOpen(env, db.rows + queue, AuthorsWith(db.authors, |db.rows|, |queue|, l.attempt.no), l.attempt.no)
    ensures StepOk(env, db, l, Goes(db, l, Queued(db.rows, queue, after)), execs)
  {
    hide Load, DoneBut, OwnOpen;
    assert execs + [] == execs;
    assert db.rows + [] == db.rows;
    assert AuthorsWith(db.authors, |db.rows|, 0, l.attempt.no) == db.authors;
  }

  lemma NotTheHolder(env: Env, db: Db, l: Local, m: Moved, execs: seq<Exec>)
    requires m.execs == [] && !m.pc.Running? && (Owns(m.db, l) ==> m.pc.Stopped? || m.pc.Failing? || m.pc.Publishing?)
    ensures StepOk(env, db, l, m, execs)
  {
  }

  lemma SteeredStepOk(env: Env, db: Db, l: Local, messages: seq<Message>, execs: seq<Exec>)
    requires DbOk(db) && LocalOk(db, l) && l.pc.Steerable? && (Owns(db, l) ==> HolderOk(env, db, l, execs))
    ensures StepOk(env, db, l, Steered(env, db, l, messages), execs)
  {
    hide Load, DoneBut, OwnOpen, SteeringQueue, Undelivered, HasIncompleteProposal;
    assert execs + [] == execs;
    var m := Steered(env, db, l, messages);
    if Owns(db, l) && m.pc != l.pc && messages != [] {
      SteeredIsOk(env, db, l, messages);
      var queue := SteeringQueue(Load(db.rows).value.decisions + 1, messages);
      if |queue| == |messages| {
        KeysStay(db.rows, queue);
        DoneGrows(env, db, db, db.rows, db.rows + queue, l.attempt.no, execs, 0, {});
        SteeringKeepsProposals(db.rows, queue);
        SameProposalsSameOpen(Load(db.rows).value, Load(db.rows + queue).value);
        NothingMissing(env, db.rows + queue, AuthorsWith(db.authors, |db.rows|, |queue|, l.attempt.no), l.attempt.no);
      }
      QueuedStepOk(env, db, l, queue, if |queue| == |messages| then BackToTop else ThenFail, execs);
    }
  }

  lemma SameProposalsSameOpen(p: Prefix, q: Prefix)
    requires p.proposals == q.proposals
    ensures HasIncompleteProposal(p) <==> HasIncompleteProposal(q)
  {
  }

  lemma ProposesStepOk(env: Env, db: Db, l: Local, row: Row, execs: seq<Exec>)
    requires DbOk(db) && LocalOk(db, l) && l.pc.Deciding? && (Owns(db, l) ==> HolderOk(env, db, l, execs))
    requires Load(l.pc.seen).Some? && (row.ProposalRow? || row.FinalRow?)
    requires row.no == Load(l.pc.seen).value.decisions + 1
    ensures StepOk(env, db, l, Proposes(db, l, row), execs)
  {
    hide Load, DoneBut, OwnOpen, HasIncompleteProposal, WellFormed;
    assert execs + [] == execs;
    if Owns(db, l) && WellFormed(row) {
      ProposesIsOk(db, l, row);
      KeysStay(db.rows, [row]);
      DoneGrows(env, db, db, db.rows, db.rows + [row], l.attempt.no, execs, 0, {});
      if row.ProposalRow? {
        OwnAfterProposal(env, db.rows, db.authors, row, l.attempt.no);
      } else {
        FinalLeavesNothingOpen(db.rows, row);
        NothingMissing(env, db.rows + [row], AuthorsWith(db.authors, |db.rows|, 1, l.attempt.no), l.attempt.no);
      }
      QueuedStepOk(env, db, l, [row], BackToTop, execs);
    }
  }

  lemma FinalLeavesNothingOpen(rows: seq<Row>, row: Row)
    requires Load(rows).Some? && Load(rows + [row]).Some? && row.FinalRow?
    ensures !HasIncompleteProposal(Load(rows + [row]).value)
  {
    hide Load, WellFormed;
    LoadOneMore(rows, row);
  }

  lemma DecisionStepOk(env: Env, db: Db, l: Local, step: Step, execs: seq<Exec>)
    requires DbOk(db) && LocalOk(db, l) && l.pc.Deciding? && (Owns(db, l) ==> HolderOk(env, db, l, execs))
    requires step.Decide? || step.Contextualize?
    ensures step.Decide? ==> StepOk(env, db, l, Decided(env, db, l, step), execs)
    ensures step.Contextualize? ==> StepOk(env, db, l, Contextualized(env, db, l, step), execs)
  {
    hide DbOk, LocalOk, Load, StepOk, HolderOk, Proposes, DecisionAllowed, OfferFor, Advertisable, CheckAuthority;
    StayStepOk(env, db, l, execs);
    NotTheHolder(env, db, l, Goes(db, l, Failing), execs);
    NotTheHolder(env, db, l, Goes(db, l, Stopped(false)), execs);
    if Load(l.pc.seen).Some? {
      var no := Load(l.pc.seen).value.decisions + 1;
      if step.Contextualize? {
        ProposesStepOk(env, db, l, ProposalRow(no, [step.search]), execs);
      } else {
        ProposesStepOk(env, db, l, FinalRow(no, step.prepared), execs);
        if step.answer.Accepted? && step.answer.decision.ProposalDecision? {
          ProposesStepOk(env, db, l, ProposalRow(no, step.answer.decision.actions), execs);
        }
      }
    }
  }

  lemma StayStepOk(env: Env, db: Db, l: Local, execs: seq<Exec>)
    requires ToolsOk(env, db.rows, db.authors, l, execs) || !l.pc.Running?
    requires Owns(db, l) ==> HolderOk(env, db, l, execs)
    ensures StepOk(env, db, l, Stay(db, l), execs)
  {
    hide HolderOk, MayStart;
    assert execs + [] == execs;
    assert l.(boundary := l.boundary, pc := l.pc) == l;
  }

  lemma StartedBeforeGrows(execs: seq<Exec>, e: Exec, no: int, index: int)
    ensures StartedBefore(execs + [e], no, index) <==>
      StartedBefore(execs, no, index) || (e.no == no && e.index == index)
  {
    if StartedBefore(execs, no, index) {
      var i :| 0 <= i < |execs| && execs[i].no == no && execs[i].index == index;
      assert (execs + [e])[i] == execs[i];
    }
    assert (execs + [e])[|execs|] == e;
  }

  lemma StartsStepOk(env: Env, db: Db, l: Local, index: int, execs: seq<Exec>)
    requires l.pc.Running? && ToolsOk(env, db.rows, db.authors, l, execs)
    requires (Owns(db, l) ==> HolderOk(env, db, l, execs))
    ensures StepOk(env, db, l, Starts(db, l, index), execs)
  {
    hide Load, IsSafe, Proposer, HasKey, OwnOpen, StartedBefore;
    var m := Starts(db, l, index);
    assert execs + [] == execs;
    if m.execs != [] {
      var no := |Load(l.pc.seen).value.proposals|;
      forall t | t in l.pc.todo ensures MayStart(env, db.rows, db.authors, l.(pc := m.pc), execs + m.execs, no, t) {
        assert MayStart(env, db.rows, db.authors, l, execs, no, t);
        StartedBeforeGrows(execs, m.execs[0], no, t);
      }
    }
  }

  /** A start adds no second start of an unsafe action. */
  lemma StartsStayOk(env: Env, db: Db, l: Local, more: seq<Exec>, execs: seq<Exec>)
    requires Load(db.rows).Some? && StartsOk(env, db.rows, db.authors, execs) && MayAdd(env, db, l, more, execs)
    ensures StartsOk(env, db.rows, db.authors, execs + more)
  {
    hide Load, IsSafe, Proposer;
    if more != [] {
      var e := more[0];
      var all := execs + more;
      forall i, j | 0 <= i < j < |all| && all[i].no == all[j].no && all[i].index == all[j].index
        ensures IsSafe(env, db.rows, db.authors, all[i].no, all[i].index)
      {
        if j == |execs| {
          assert all[i] == execs[i] && StartedBefore(execs, e.no, e.index);
        }
      }
    } else {
      assert execs + more == execs;
    }
  }

  lemma OtherToolsOk(env: Env, db: Db, l: Local, other: Local, more: seq<Exec>, execs: seq<Exec>)
    requires Load(db.rows).Some? && MayAdd(env, db, l, more, execs) && ToolsOk(env, db.rows, db.authors, other, execs)
    requires other.attempt.no != l.attempt.no
    ensures ToolsOk(env, db.rows, db.authors, other, execs + more)
  {
    hide Load, IsSafe, Proposer, StartedBefore;
    assert execs + [] == execs;
    if more != [] && other.pc.Running? {
      var no := |Load(other.pc.seen).value.proposals|;
      forall t | t in other.pc.todo ensures MayStart(env, db.rows, db.authors, other, execs + more, no, t) {
        assert more == [more[0]];
        StartedBeforeGrows(execs, more[0], no, t);
        if more[0].no == no && more[0].index == t && !IsSafe(env, db.rows, db.authors, no, t) {
          assert MayStart(env, db.rows, db.authors, other, execs, no, t);
          OneProposer(db.rows, db.authors, no, t, l.attempt.no, other.attempt.no);
        }
      }
    }
  }

  lemma OtherHolderOk(env: Env, db: Db, other: Local, more: seq<Exec>, execs: seq<Exec>)
    requires HolderOk(env, db, other, execs) && forall i | 0 <= i < |more| :: more[i].attempt != other.attempt.no
    ensures HolderOk(env, db, other, execs + more)
  {
    hide Load, IsSafe, HasKey, OwnOpen;
  }

  lemma AnsweredNow(
    env: Env, db: Db, view: seq<Row>, queue: seq<Row>, who: nat, execs: seq<Exec>, no: int, started: set<int>)
    requires DoneBut(env, db, view, who, execs, no, started)
    requires forall t | t in started :: HasKey(queue, OfAction(no, t))
    ensures DoneBut(env, db, view + queue, who, execs, 0, {})
  {
    hide IsSafe;
    forall key | HasKey(queue, key) ensures HasKey(view + queue, key) {
      var i :| 0 <= i < |queue| && Key(queue[i]) == key;
      assert (view + queue)[|view| + i] == queue[i];
    }
    KeysStay(view, queue);
  }

  lemma AllSelected(env: Env, used: nat, no: int, todo: seq<int>, outcomes: seq<ToolOutcome>)
    requires |outcomes| == |todo|
    requires var s := Select(env.limits, env.size, used, no, todo, outcomes); s.failure.None? && !s.overBudget
    ensures forall t | t in todo :: HasKey(Select(env.limits, env.size, used, no, todo, outcomes).rows, OfAction(no, t))
  {
    hide WellFormed, Select;
    SelectedWithoutTrouble(env.limits, env.size, used, no, todo, outcomes);
    var rows := Select(env.limits, env.size, used, no, todo, outcomes).rows;
    forall t | t in todo ensures HasKey(rows, OfAction(no, t)) {
      var i :| 0 <= i < |todo| && todo[i] == t;
      assert Key(rows[i]) == OfAction(no, t);
    }
  }

  lemma FinishedStepOk(env: Env, db: Db, l: Local, outcomes: seq<ToolOutcome>, execs: seq<Exec>)
    requires DbOk(db) && LocalOk(db, l) && l.pc.Running? && ToolsOk(env, db.rows, db.authors, l, execs)
    requires (Owns(db, l) ==> HolderOk(env, db, l, execs))
    ensures StepOk(env, db, l, Finished(env, db, l, outcomes), execs)
  {
    hide Load, DoneBut, OwnOpen, Select, ResultBytes, MayStart, Missing;
    assert execs + [] == execs;
    var p := Load(l.pc.seen).value;
    if Possible(env, p, l.pc.todo, l.pc.started, outcomes) {
      var used := ResultBytes(env.size, p.proposals);
      var s := Select(env.limits, env.size, used, |p.proposals|, l.pc.todo, outcomes);
      if Owns(db, l) {
        if AfterSelection(s).BackToTop? {
          AllSelected(env, used, |p.proposals|, l.pc.todo, outcomes);
          AnsweredNow(env, db, db.rows, s.rows, l.attempt.no, execs, |p.proposals|, l.pc.started);
          SelectionFits(env, l.pc.seen, l.pc.todo, outcomes);
          SelectedAreResults(env, used, |p.proposals|, l.pc.todo, outcomes);
          OwnAfterAnswers(env, db.rows, db.authors, s.rows, l.attempt.no);
        }
        QueuedStepOk(env, db, l, s.rows, AfterSelection(s), execs);
      }
    }
  }

  lemma SelectedAreResults(env: Env, used: nat, no: int, todo: seq<int>, outcomes: seq<ToolOutcome>)
    requires |outcomes| == |todo|
    ensures AllResults(Select(env.limits, env.size, used, no, todo, outcomes).rows)
  {
    hide WellFormed, Select;
    var rows := Select(env.limits, env.size, used, no, todo, outcomes).rows;
    SelectedWithinLimits(env.limits, env.size, used, no, todo, outcomes);
    forall i | 0 <= i < |rows| ensures rows[i].ResultRow? {
      assert rows[i] in rows;
      assert FromOutcome(no, todo, outcomes, rows[i]);
    }
  }

  lemma AdvancedStepOk(env: Env, db: Db, l: Local, execs: seq<Exec>)
    requires l.pc.Appending? && l.pc.queue != []
    requires Owns(db, l) ==> HolderOk(env, db, l, execs) && db.inDoubt.None? && db.rows == l.pc.view + [l.pc.queue[0]]
    ensures StepOk(env, db, l, Advanced(db, l), execs)
  {
    hide Load, DoneBut, OwnOpen;
    assert execs + [] == execs;
    var view, queue, who := l.pc.view, l.pc.queue, l.attempt.no;
    if Owns(db, l) && l.pc.after.BackToTop? {
      assert view + [queue[0]] + queue[1..] == view + queue;
      assert AuthorsWith(db.authors, |view| + 1, |queue| - 1, who) == AuthorsWith(db.authors, |view|, |queue|, who);
      if |queue| == 1 {
        assert view + queue == db.rows;
        assert AuthorsWith(db.authors, |view|, 1, who) == db.authors;
      }
    }
  }

  lemma AppendingHolderGrows(env: Env, tree: Tree, db: Db, l: Local, execs: seq<Exec>)
    requires l.pc.Appending? && l.pc.queue != [] && HolderOk(env, db, l, execs) && |db.authors| == |db.rows|
    requires db.rows == l.pc.view
    ensures HolderOk(env, Inserted(tree, db, l.pc.queue[0], l.attempt.no), l, execs)
  {
    hide Load, OwnOpen;
    var after := Inserted(tree, db, l.pc.queue[0], l.attempt.no);
    var view, queue, who := l.pc.view, l.pc.queue, l.attempt.no;
    if l.pc.after.BackToTop? {
      DoneGrows(env, db, after, view + queue, view + queue, who, execs, 0, {});
      assert AuthorsWith(after.authors, |view|, |queue|, who) == AuthorsWith(db.authors, |view|, |queue|, who);
    }
  }

  lemma SameLogSameHolder(env: Env, db: Db, after: Db, l: Local, next: Local, execs: seq<Exec>)
    requires HolderOk(env, db, l, execs) && after.rows == db.rows && after.authors == db.authors
    requires l.pc.Appending? && next.attempt == l.attempt && next.pc.Appending?
    requires next.pc == l.pc.(retried := next.pc.retried, checking := next.pc.checking)
    ensures HolderOk(env, after, next, execs)
  {
    hide Load, IsSafe, HasKey, OwnOpen;
  }

  lemma SentAppendStepOk(env: Env, db: Db, l: Local, commit: Commit, execs: seq<Exec>)
    requires DbOk(db) && LocalOk(db, l) && l.pc.Appending? && (Owns(db, l) ==> HolderOk(env, db, l, execs))
    ensures StepOk(env, db, l, SentAppend(env, db, l, commit), execs)
  {
    hide Load, AppendTx, Advanced, DoneBut, OwnOpen;
    assert execs + [] == execs;
    StayStepOk(env, db, l, execs);
    var asking := l.(pc := l.pc.(checking := true));
    if Owns(db, l) {
      SameLogSameHolder(env, db, db, l, asking, execs);
      SameLogSameHolder(env, db, db.(inDoubt := Some(DoubtfulAppend(l.pc.queue[0], l.attempt.no))), l, asking, execs);
    }
    if db.inDoubt.None? && !l.pc.checking {
      if CheckAuthority(db, l.attempt) == Held {
        HolderIsNeverRefused(env.tree, db, l);
        if l.pc.queue[0] !in db.rows {
          AppendingHolderGrows(env, env.tree, db, l, execs);
          AdvancedStepOk(env, Inserted(env.tree, db, l.pc.queue[0], l.attempt.no), l, execs);
        } else {
          AdvancedStepOk(env, db, l, execs);
        }
      } else {
        RefusedWithoutAuthority(env.tree, db, l);
      }
    }
  }

  lemma CheckedAppendStepOk(env: Env, db: Db, l: Local, readable: bool, execs: seq<Exec>)
    requires DbOk(db) && LocalOk(db, l) && l.pc.Appending? && (Owns(db, l) ==> HolderOk(env, db, l, execs))
    ensures StepOk(env, db, l, CheckedAppend(env, db, l, readable), execs)
  {
    hide Load, Advanced, DoneBut, OwnOpen, RowAsShown;
    assert execs + [] == execs;
    StayStepOk(env, db, l, execs);
    if Reconcile(env.tree, db, l.attempt, l.pc.queue[0]).Matched? {
      if Owns(db, l) {
        QueuedRowIsThereOnceWritten(db, l);
      }
      AdvancedStepOk(env, db, l, execs);
    }
  }

  lemma FailStepOk(env: Env, db: Db, l: Local, commit: Commit, execs: seq<Exec>)
    requires l.pc.Failing?
    ensures StepOk(env, db, l, SentFail(db, l, commit), execs)
  {
    hide FailTx;
  }

  lemma PublishStepOk(env: Env, db: Db, l: Local, commit: Commit, execs: seq<Exec>)
    requires l.pc.Publishing?
    ensures StepOk(env, db, l, SentPublish(env, db, l, commit), execs)
  {
    hide PublishTx, WellFormed;
  }

  lemma CheckedPublishStepOk(env: Env, db: Db, l: Local, readable: bool, execs: seq<Exec>)
    requires l.pc.Publishing?
    ensures StepOk(env, db, l, CheckedPublish(db, l, readable), execs)
  {
    hide ReconcilePublication;
  }

  lemma MoveStepOk(env: Env, db: Db, l: Local, step: Step, execs: seq<Exec>)
    requires DbOk(db) && LocalOk(db, l) && DbBuilt(env, db, execs) && l.attempt.no >= 1
    requires StartsOk(env, db.rows, db.authors, execs) && ToolsOk(env, db.rows, db.authors, l, execs)
    requires Owns(db, l) ==> HolderOk(env, db, l, execs)
    ensures StepOk(env, db, l, Move(env, db, l, step), execs)
  {
    hide DbOk, LocalOk, DbBuilt, StepOk, HolderOk, ToolsOk, StartsOk, MayAdd, Owns;
    hide Loaded, Steered, Decided, Contextualized, Starts, Finished, SentAppend, CheckedAppend, SentFail, SentPublish;
    hide CheckedPublish;
    StayStepOk(env, db, l, execs);
    match step
    case Crash => CrashStepOk(env, db, l, execs);
    case LoadLog => if l.pc.Top? && db.inDoubt.None? { LoadedStepOk(env, db, l, execs); }
    case ReadSteering(messages) => if l.pc.Steerable? { SteeredStepOk(env, db, l, messages, execs); }
    case Decide(_, _, _, _, _) => if l.pc.Deciding? { DecisionStepOk(env, db, l, step, execs); }
    case Contextualize(_, _, _, _) => if l.pc.Deciding? { DecisionStepOk(env, db, l, step, execs); }
    case StartTool(index) => if l.pc.Running? { StartsStepOk(env, db, l, index, execs); }
    case FinishTools(outcomes) => if l.pc.Running? { FinishedStepOk(env, db, l, outcomes, execs); }
    case SendAppend(commit) => if l.pc.Appending? && l.pc.queue != [] { SentAppendStepOk(env, db, l, commit, execs); }
    case CheckAppend(readable) =>
      if l.pc.Appending? && l.pc.queue != [] { CheckedAppendStepOk(env, db, l, readable, execs); }
    case SendFail(commit) => if l.pc.Failing? { FailStepOk(env, db, l, commit, execs); }
    case SendPublish(commit) => if l.pc.Publishing? { PublishStepOk(env, db, l, commit, execs); }
    case CheckPublish(readable) => if l.pc.Publishing? { CheckedPublishStepOk(env, db, l, readable, execs); }
  }

  lemma CrashStepOk(env: Env, db: Db, l: Local, execs: seq<Exec>)
    ensures StepOk(env, db, l, Goes(db, l, Stopped(false)), execs)
  {
  }

  // ----- The whole system -----

  lemma ByAttemptKeepsOnce(env: Env, sys: System, no: nat, step: Step)
    requires Invariant(sys) && Provenant(env, sys) && Once(env, sys) && 1 <= no <= |sys.locals|
    ensures Once(env, Next(env, sys, ByAttempt(no, step)))
  {
    hide DbOk, LocalOk, Move, DbBuilt, LocalBuilds, StartsOk, ToolsOk, HolderOk, MayStart;
    var l := sys.locals[no - 1];
    var m := Move(env, sys.db, l, step);
    var after := Next(env, sys, ByAttempt(no, step));
    MoveIsOk(env, sys.db, l, step);
    MoveStepOk(env, sys.db, l, step, sys.execs);
    OnlyGrows(env, sys.db, l, step);
    LogLoads(sys.db);
    LogLoads(m.db);
    StartsStayOk(env, sys.db, l, m.execs, sys.execs);
    StartsOkGrows(env, sys.db.rows, sys.db.authors, m.db.rows, m.db.authors, after.execs);
    forall i | 0 <= i < |after.locals| ensures ToolsOk(env, m.db.rows, m.db.authors, after.locals[i], after.execs) {
      if i != no - 1 {
        OtherToolsOk(env, sys.db, l, sys.locals[i], m.execs, sys.execs);
        ToolsOkGrows(env, sys.db.rows, sys.db.authors, m.db.rows, m.db.authors, sys.locals[i], after.execs);
      }
    }
    forall i | 0 <= i < |after.locals| && Owns(m.db, after.locals[i])
      ensures HolderOk(env, m.db, after.locals[i], after.execs) {
      if i != no - 1 {
        OtherHolderOk(env, sys.db, sys.locals[i], m.execs, sys.execs);
      }
    }
  }

  lemma LogLoads(db: Db)
    requires DbOk(db)
    ensures Load(db.rows).Some? && |db.authors| == |db.rows|
  {
  }

  lemma OnlyGrows(env: Env, db: Db, l: Local, step: Step)
    ensures var after := Move(env, db, l, step).db; db.rows <= after.rows && db.authors <= after.authors
  {
    hide Move;
    Budgets.MoveWritesOneRow(env, db, l, step);
  }

  lemma QuietDbKeepsOnce(env: Env, sys: System, db: Db)
    requires Once(env, sys) && db.rows == sys.db.rows && db.authors == sys.db.authors && db.inDoubt == sys.db.inDoubt
    requires db.attemptNo == sys.db.attemptNo && (db.lease.Some? ==> sys.db.lease.Some?)
    ensures forall calls, actions :: Once(env, sys.(db := db, otherCalls := calls, otherActions := actions))
  {
    hide Load, IsSafe, HasKey, OwnOpen, StartsOk, ToolsOk, HolderOk;
    forall i | 0 <= i < |sys.locals| && Owns(db, sys.locals[i]) ensures HolderOk(env, db, sys.locals[i], sys.execs) {
      QuietHolderOk(env, sys.db, db, sys.locals[i], sys.execs);
    }
  }

  lemma QuietHolderOk(env: Env, db: Db, after: Db, l: Local, execs: seq<Exec>)
    requires HolderOk(env, db, l, execs) && after.rows == db.rows && after.authors == db.authors
    requires after.inDoubt == db.inDoubt
    ensures HolderOk(env, after, l, execs)
  {
    hide Load, IsSafe, HasKey, OwnOpen;
  }

  /** A log that grows while nobody holds the lease. */
  lemma GrownLogKeepsOnce(env: Env, sys: System, db: Db)
    requires Once(env, sys) && sys.db.rows <= db.rows && sys.db.authors <= db.authors
    requires db.attemptNo == sys.db.attemptNo && db.lease.None?
    ensures Once(env, sys.(db := db))
  {
    hide StartsOk, ToolsOk, HolderOk;
    StartsOkGrows(env, sys.db.rows, sys.db.authors, db.rows, db.authors, sys.execs);
    forall i | 0 <= i < |sys.locals| ensures ToolsOk(env, db.rows, db.authors, sys.locals[i], sys.execs) {
      ToolsOkGrows(env, sys.db.rows, sys.db.authors, db.rows, db.authors, sys.locals[i], sys.execs);
    }
  }

  lemma ClosingKeepsOnce(env: Env, sys: System)
    requires Invariant(sys) && Once(env, sys)
    ensures Once(env, sys.(db := ClosedTerminal(env.tree, sys.db)))
  {
    hide Load, StartsOk, ToolsOk, HolderOk, LocalOk, Closings, OpenActions;
    var db := ClosedTerminal(env.tree, sys.db);
    if db != sys.db {
      GrownLogKeepsOnce(env, sys, db);
    }
  }

  lemma SettledHolderOk(env: Env, db: Db, l: Local, commits: bool, execs: seq<Exec>)
    requires DbOk(db) && LocalOk(db, l) && Owns(db, l) && HolderOk(env, db, l, execs)
    ensures var after := Settled(env.tree, db, commits); Owns(after, l) ==> HolderOk(env, after, l, execs)
  {
    hide Load, IsSafe, HasKey, OwnOpen, Todo, HasIncompleteProposal;
    var settled := db.(inDoubt := None);
    if l.pc.Appending? {
      SameLogSameHolder(env, db, settled, l, l, execs);
      if commits && db.inDoubt.Some? && db.inDoubt.value.DoubtfulAppend? {
        AppendingHolderGrows(env, env.tree, settled, l, execs);
      }
    }
  }

  lemma SettleKeepsOnce(env: Env, sys: System, commits: bool)
    requires Invariant(sys) && Once(env, sys)
    ensures Once(env, sys.(db := Settled(env.tree, sys.db, commits)))
  {
    hide Load, StartsOk, ToolsOk, HolderOk, LocalOk;
    var db := Settled(env.tree, sys.db, commits);
    StartsOkGrows(env, sys.db.rows, sys.db.authors, db.rows, db.authors, sys.execs);
    forall i | 0 <= i < |sys.locals| ensures ToolsOk(env, db.rows, db.authors, sys.locals[i], sys.execs) {
      ToolsOkGrows(env, sys.db.rows, sys.db.authors, db.rows, db.authors, sys.locals[i], sys.execs);
    }
    forall i | 0 <= i < |sys.locals| && Owns(db, sys.locals[i]) ensures HolderOk(env, db, sys.locals[i], sys.execs) {
      SettledHolderOk(env, sys.db, sys.locals[i], commits, sys.execs);
    }
  }

  lemma NewHolderOk(env: Env, db: Db, l: Local, execs: seq<Exec>)
    requires l.pc.Top? && l.boundary && db.inDoubt.None?
    requires forall i | 0 <= i < |execs| :: execs[i].attempt != l.attempt.no
    ensures HolderOk(env, db, l, execs) && ToolsOk(env, db.rows, db.authors, l, execs)
  {
  }

  lemma ClaimKeepsOnce(env: Env, sys: System, token: nat)
    requires Invariant(sys) && Once(env, sys)
    ensures Once(env, WithClaim(sys, token))
  {
    hide DbOk, LocalOk, StartsOk, ToolsOk, HolderOk;
    var after := WithClaim(sys, token);
    if after != sys {
      NewHolderOk(env, after.db, after.locals[|sys.locals|], sys.execs);
    }
  }

  lemma OutsideKeepsOnce(env: Env, sys: System, event: Event)
    requires Invariant(sys) && Once(env, sys)
    ensures var db := Outside(env.tree, sys.db, event);
      Once(env, sys.(db := db)) && forall calls, actions ::
        Once(env, sys.(db := db, otherCalls := calls, otherActions := actions))
  {
    hide DbOk, LocalOk, StartsOk, ToolsOk, HolderOk, Outside;
    var db := Outside(env.tree, sys.db, event);
    OutsideIsOk(env.tree, sys.db, event);
    QuietDbKeepsOnce(env, sys, db);
    assert sys.(db := db) == sys.(db := db, otherCalls := sys.otherCalls, otherActions := sys.otherActions);
  }

  lemma NextKeepsOnce(env: Env, sys: System, event: Event)
    requires Invariant(sys) && Provenant(env, sys) && Once(env, sys)
    ensures Once(env, Next(env, sys, event))
  {
    hide Invariant, Provenant, Once, Outside, WithClaim, Settled, ClosedTerminal, Move;
    match event
    case Claim(token) => ClaimKeepsOnce(env, sys, token);
    case Settle(commits) => SettleKeepsOnce(env, sys, commits);
    case CloseTerminal => ClosingKeepsOnce(env, sys);
    case ByAttempt(no, step) => if 1 <= no <= |sys.locals| { ByAttemptKeepsOnce(env, sys, no, step); }
    case OthersCharge(_, _) => OutsideKeepsOnce(env, sys, event);
    case LeaseExpires => OutsideKeepsOnce(env, sys, event);
    case DeadlinePasses => OutsideKeepsOnce(env, sys, event);
    case Membership(_, _) => OutsideKeepsOnce(env, sys, event);
    case Requeue => OutsideKeepsOnce(env, sys, event);
    case Abandon => OutsideKeepsOnce(env, sys, event);
    case Cancel => OutsideKeepsOnce(env, sys, event);
  }

  lemma {:induction false} EveryRunKeepsOnce(env: Env, events: seq<Event>)
    ensures Once(env, Run(env, events))
    decreases |events|
  {
    hide Next, Invariant, Provenant;
    if events != [] {
      EveryRunKeepsOnce(env, events[..|events| - 1]);
      EveryRunKeepsInvariant(env, events[..|events| - 1]);
      EveryRowIsBuilt(env, events[..|events| - 1]);
      NextKeepsOnce(env, Run(env, events[..|events| - 1]), events[|events| - 1]);
    }
  }

  // ----- Main results -----

  /** Over every schedule of crashes, lost leases, zombies and retries: if two
      starts are for the same action, its tool is replay-safe. */
  lemma StartedAtMostOnce(env: Env, events: seq<Event>, i: nat, j: nat, k: nat)
    requires var sys := Run(env, events);
      i < j < |sys.execs| && sys.execs[i].no == sys.execs[j].no && sys.execs[i].index == sys.execs[j].index &&
      ProposesAt(sys.db.rows, sys.db.authors, k, sys.execs[i].no, sys.execs[i].index)
    ensures var sys := Run(env, events); sys.db.rows[k].actions[sys.execs[i].index].name in env.safe
  {
    hide Run, DbOk, LocalOk, HolderOk, ToolsOk;
    EveryRunKeepsOnce(env, events);
    EveryRunKeepsInvariant(env, events);
    var sys := Run(env, events);
    LogLoads(sys.db);
    var no, index := sys.execs[i].no, sys.execs[i].index;
    assert IsSafe(env, sys.db.rows, sys.db.authors, no, index);
    var n :| ProposesAt(sys.db.rows, sys.db.authors, n, no, index) && sys.db.rows[n].actions[index].name in env.safe;
    ProposedOnce(sys.db.rows, sys.db.authors, n, k, no, index);
  }

  /** Every start is for an accepted action, and one that may not be run again is
      started by the attempt that proposed it. */
  lemma StartedByItsProposer(env: Env, events: seq<Event>, i: nat) returns (k: nat)
    requires i < |Run(env, events).execs|
    ensures var sys := Run(env, events);
      var e := sys.execs[i];
      ProposesAt(sys.db.rows, sys.db.authors, k, e.no, e.index) &&
      (sys.db.rows[k].actions[e.index].name in env.safe || sys.db.authors[k] == e.attempt)
  {
    hide Run, DbOk, LocalOk, HolderOk, ToolsOk;
    EveryRunKeepsOnce(env, events);
    var sys := Run(env, events);
    var e := sys.execs[i];
    var rows, authors := sys.db.rows, sys.db.authors;
    assert Attributed(env, rows, authors, e);
    if IsSafe(env, rows, authors, e.no, e.index) {
      k :| ProposesAt(rows, authors, k, e.no, e.index) && rows[k].actions[e.index].name in env.safe;
    } else {
      k :| ProposesAt(rows, authors, k, e.no, e.index) && authors[k] == e.attempt;
    }
  }

  /** A recorded result other than `interrupted` of a tool that may not be run
      again: the tool was started exactly once, by the attempt that proposed
      the action, and that attempt recorded the result. */
  lemma RecordedMeansRunExactlyOnce(env: Env, events: seq<Event>, r: nat, k: nat) returns (i: nat)
    requires var db := Run(env, events).db;
      r < |db.rows| && r < |db.authors| && db.rows[r].ResultRow? && db.rows[r].result != INTERRUPTED &&
      ProposesAt(db.rows, db.authors, k, db.rows[r].no, db.rows[r].index) &&
      db.rows[k].actions[db.rows[r].index].name !in env.safe
    ensures var sys := Run(env, events);
      i < |sys.execs| && sys.execs[i] == Exec(sys.db.rows[r].no, sys.db.rows[r].index, sys.db.authors[k]) &&
      sys.db.authors[r] == sys.db.authors[k] &&
      forall j | 0 <= j < |sys.execs| && sys.execs[j].no == sys.db.rows[r].no &&
        sys.execs[j].index == sys.db.rows[r].index :: j == i
  {
    hide Run, DbOk, LocalOk, HolderOk, ToolsOk, LocalBuilds, INTERRUPTED, Load, StartsOk;
    EveryRunKeepsOnce(env, events);
    EveryRunKeepsInvariant(env, events);
    EveryRowIsBuilt(env, events);
    var sys := Run(env, events);
    LogLoads(sys.db);
    var rows, authors := sys.db.rows, sys.db.authors;
    var no, index := rows[r].no, rows[r].index;
    assert Built(env, rows[..r], rows[r], authors[r], sys.execs);
    assert Exec(no, index, authors[r]) in sys.execs;
    i :| 0 <= i < |sys.execs| && sys.execs[i] == Exec(no, index, authors[r]);
    var n := StartedByItsProposer(env, events, i);
    ProposedOnce(rows, authors, n, k, no, index);
    forall j | 0 <= j < |sys.execs| && sys.execs[j].no == no && sys.execs[j].index == index ensures j == i {
      if i < j { StartedAtMostOnce(env, events, i, j, k); }
      if j < i { StartedAtMostOnce(env, events, j, i, k); }
    }
  }
}

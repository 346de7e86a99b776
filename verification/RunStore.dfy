/** The rows of one Run in the database and the transactions on them. Each
    transaction is one guarded atomic step, given here as a function of the
    database state; the classes that perform them are in PostgresRuntime. */
module RunStore {
  import opened Basics
  import opened Json
  import opened Identities
  import opened Checkpoints
  import opened CheckpointPrefixes
  import opened CheckpointGrammar
  import opened PendingActions

  datatype RunStatus = RunQueued | RunRunning | RunCompleted | RunFailed | RunCancelled
  datatype JobStatus = JobQueued | JobRunning | JobSucceeded | JobFailed | JobCancelled

  /** A worker's claim on the Run: which lease it is and the token it carries. */
  datatype Attempt = Attempt(no: nat, token: nat)

  /** A transaction whose commit was sent but not answered. It keeps its row
      locks until the server decides. */
  datatype InDoubt = DoubtfulAppend(row: Row, author: nat) | DoubtfulPublish(text: string) | DoubtfulFail

  /** A worker may act for a Run while the member still belongs to the notebook of
      its chat, or of the studio output it makes. `authors` records, for the proofs,
      which attempt appended each row; 0 stands for the closing of a terminal Run. */
  datatype Db = Db(
    rows: seq<Row>, authors: seq<nat>,
    run: RunStatus, job: JobStatus, lease: Option<nat>, attemptNo: nat, leaseLive: bool,
    deadlineOk: bool, chatMember: bool, studioMember: bool, messages: seq<string>,
    modelCalls: nat, actions: nat, inDoubt: Option<InDoubt>)

  /** Limits of the Agent Tree the Run is charged to, whether the Run is one of those
      that are charged (runtime kind `configured`), and how the server prints numbers. */
  datatype Tree = Tree(modelCallLimit: nat, actionLimit: nat, configured: bool, shown: string -> string)

  predicate AllAsShown(shown: string -> string, rows: seq<Row>) {
    forall i | 0 <= i < |rows| :: RowAsShown(shown, rows[i])
  }

  /** Loading the stored log; by ReadBackExactlyWhenNumbersAsShown a row whose
      numbers the server rewrites makes every load fail. */
  function ReadLog(shown: string -> string, rows: seq<Row>): Option<Prefix> {
    if AllAsShown(shown, rows) then Load(rows) else None
  }

  datatype Authority = Held | LeaseLost | DeadlinePassed | Unauthorized

  /** The check made, under row locks, at the start of every worker transaction. */
  function CheckAuthority(db: Db, a: Attempt): Authority {
    if db.lease != Some(a.token) || db.attemptNo != a.no then LeaseLost
    else if db.run != RunRunning || db.job != JobRunning || db.messages != [] || !db.leaseLive then LeaseLost
    else if !db.deadlineOk then DeadlinePassed
    else if !db.chatMember && !db.studioMember then Unauthorized
    else Held
  }

  predicate HasKey(rows: seq<Row>, key: Identity) {
    exists i | 0 <= i < |rows| :: Key(rows[i]) == key
  }

  /** What one row is charged as. */
  function CallCharge(row: Row): nat {
    if row.ProposalRow? || row.FinalRow? then 1 else 0
  }

  function ActionCharge(row: Row): nat {
    if row.ResultRow? then 1 else 0
  }

  /** The state once `row` is inserted and the tree is charged, if the Run is one that
      is charged and there is something to charge. Counters saturate at their limit
      instead of failing. */
  function Inserted(tree: Tree, db: Db, row: Row, author: nat): Db {
    var charged := tree.configured && !row.SteeringRow?;
    db.(rows := db.rows + [row], authors := db.authors + [author],
        modelCalls := if charged then Min(db.modelCalls + CallCharge(row), tree.modelCallLimit) else db.modelCalls,
        actions := if charged then Min(db.actions + ActionCharge(row), tree.actionLimit) else db.actions)
  }

  datatype Verdict = Refused(authority: Authority) | Invalid | AlreadyThere | Commits(after: Db)

  /** appendCheckpointOnce up to its commit. */
  function AppendTx(tree: Tree, db: Db, a: Attempt, row: Row): Verdict {
    var authority := CheckAuthority(db, a);
    if authority != Held then Refused(authority)
    else if ReadLog(tree.shown, db.rows).None? then Invalid
    else if HasKey(db.rows, Key(row)) then (if row in db.rows then AlreadyThere else Invalid)
    else if Load(db.rows + [row]).None? then Invalid
    else Commits(Inserted(tree, db, row, a.no))
  }

  datatype Reconciled = NotHeld | StillHeld | Matched | Late | Conflict

  /** reconcileCheckpoint: a read without locks after a failed append. Unlike the
      check at the start of a transaction it knows of chats only, so the append of
      a studio Run is never tried again. */
  function Reconcile(tree: Tree, db: Db, a: Attempt, row: Row): Reconciled {
    if HasKey(db.rows, Key(row)) then
      (if row in db.rows && RowAsShown(tree.shown, row) then Matched else Conflict)
    else if db.lease != Some(a.token) || db.attemptNo != a.no then NotHeld
    else
      var active := db.run == RunRunning && db.job == JobRunning && db.messages == [] && db.chatMember;
      if active && !db.deadlineOk then Late
      else if active && db.leaseLive then StillHeld
      else NotHeld
  }

  function Published(db: Db, text: string): Db {
    db.(messages := db.messages + [text], run := RunCompleted, job := JobSucceeded, lease := None)
  }

  /** publishOnce up to its commit. */
  function PublishTx(tree: Tree, db: Db, a: Attempt, text: string): Verdict {
    var authority := CheckAuthority(db, a);
    if authority != Held then Refused(authority)
    else
      var prefix := ReadLog(tree.shown, db.rows);
      if prefix.None? || prefix.value.final != Some(text) then Invalid
      else Commits(Published(db, text))
  }

  datatype Publication = NotPublishing | StillPublishing | PublishedAlready | PublicationLate

  function ReconcilePublication(db: Db, a: Attempt): Publication {
    var running := db.run == RunRunning && db.job == JobRunning && db.messages == [];
    if db.run == RunCompleted && db.messages != [] && db.job == JobSucceeded then PublishedAlready
    else if running && !db.deadlineOk then PublicationLate
    else if running && db.lease == Some(a.token) && db.leaseLive && db.deadlineOk then StillPublishing
    else NotPublishing
  }

  function Failed(db: Db): Db {
    db.(run := RunFailed, job := JobFailed, lease := None)
  }

  /** Fail: needs the live lease, but neither the deadline nor the membership. */
  function FailTx(db: Db, a: Attempt): Verdict {
    if db.lease != Some(a.token) || !db.leaseLive || db.run != RunRunning || db.job != JobRunning || db.messages != []
    then Refused(LeaseLost)
    else Commits(Failed(db))
  }

  function Zeros(n: nat): (r: seq<nat>)
    ensures |r| == n && forall i | 0 <= i < n :: r[i] == 0
  {
    seq(n, i => 0)
  }

  /** reconcileTerminalRunActions: the open actions of a Run that will not go on
      are closed as interrupted. The tree is not charged. */
  function ClosedTerminal(tree: Tree, db: Db): Db {
    if db.run == RunQueued || db.run == RunRunning then db
    else
      var prefix := ReadLog(tree.shown, db.rows);
      if prefix.None? || OpenActions(prefix.value).None? then db
      else
        var closings := Closings(|prefix.value.proposals|, OpenActions(prefix.value).value);
        db.(rows := db.rows + closings, authors := db.authors + Zeros(|closings|))
  }

  lemma RowOfKey(rows: seq<Row>, row: Row)
    requires Load(rows).Some? && row in rows
    ensures forall other :: other in rows && Key(other) == Key(row) ==> other == row
  {
    forall other | other in rows && Key(other) == Key(row) ensures other == row {
      var i :| 0 <= i < |rows| && rows[i] == row;
      var j :| 0 <= j < |rows| && rows[j] == other;
      if i < j { IdentityKeysAreDistinct(rows, i, j); }
      if j < i { IdentityKeysAreDistinct(rows, j, i); }
    }
  }

  /** A row that may come next has a key no earlier row has. */
  lemma NextRowHasNewKey(rows: seq<Row>, row: Row)
    requires Load(rows + [row]).Some?
    ensures !HasKey(rows, Key(row)) && row !in rows
  {
    var all := rows + [row];
    forall i | 0 <= i < |rows| ensures Key(rows[i]) != Key(row) {
      assert all[i] == rows[i] && all[|rows|] == row;
      IdentityKeysAreDistinct(all, i, |rows|);
    }
  }

  /** A studio Run that holds its lease is told it lost it when an append was not
      carried out, although the check of the next transaction would pass. */
  lemma StudioAppendsAreNotRetried(tree: Tree, db: Db, a: Attempt, row: Row)
    requires CheckAuthority(db, a) == Held && !HasKey(db.rows, Key(row))
    ensures Reconcile(tree, db, a, row) == (if db.chatMember then StillHeld else NotHeld)
  {
    hide HasKey, RowAsShown;
  }
}

/** The worker's transactions on one Run, as they are carried out. `State` is the
    abstract state that RunStore's functions speak of; each method is shown to
    do what its function says. */
module PostgresRuntime {
  import opened Basics
  import opened Identities
  import opened Checkpoints
  import opened CheckpointPrefixes
  import opened PendingActions
  import opened RunStore
  import opened StoredLogs
  import opened RunInvariants

  /** What becomes of a transaction that reaches its commit. A commit whose
      acknowledgement is lost has happened or not; the worker cannot tell. */
  datatype Commit = Answered | LostAfterCommit | NotCommitted

  datatype Outcome = Done | LostLease | MissedDeadline | CheckpointInvalid | Broken

  /** What a worker is told when the check at the start of a transaction fails. */
  function RefusalOf(authority: Authority): Outcome {
    if authority.LeaseLost? then LostLease else if authority.DeadlinePassed? then MissedDeadline else Broken
  }

  /** Some try's transaction is carried out; the second is made only if the first was
      not and `again` holds. */
  predicate Carried(commits: seq<Commit>, again: bool)
    requires |commits| == 2
  {
    !commits[0].NotCommitted? || (again && !commits[1].NotCommitted?)
  }

  /** What appending a row that may come next comes to. */
  function FreshOutcome(commits: seq<Commit>, readable: bool, chatMember: bool, asShown: bool): Outcome
    requires |commits| == 2
  {
    var found := if asShown then Done else CheckpointInvalid;
    match commits[0]
    case Answered => Done
    case LostAfterCommit => if readable then found else Broken
    case NotCommitted =>
      if !readable then Broken
      else if !chatMember then LostLease
      else match commits[1]
        case Answered => Done
        case LostAfterCommit => found
        case NotCommitted => Broken
  }

  /** What the attempt of a member who left is told: what the look finds, since the
      transaction itself is refused. */
  function UnauthorizedOutcome(readable: bool, keyThere: bool, found: bool): Outcome {
    if !readable then Broken else if found then Done else if keyThere then CheckpointInvalid else LostLease
  }

  class Runtime {
    const tree: Tree
    var checkpoints: seq<Checkpoint>
    var runStatus: RunStatus
    var jobStatus: JobStatus
    var leaseToken: Option<nat>
    var attemptNo: nat
    var leaseValid: bool
    var deadlineValid: bool
    var chatMember: bool
    var studioMember: bool
    var messages: seq<string>
    var modelCalls: nat
    var actions: nat
    ghost var rows: seq<Row>
    ghost var authors: seq<nat>

    constructor (tree: Tree)
      ensures Valid() && this.tree == tree && rows == [] && messages == []
    {
      this.tree := tree;
      checkpoints, rows, authors, messages := [], [], [], [];
      runStatus, jobStatus, leaseToken := RunQueued, JobQueued, None;
      attemptNo, modelCalls, actions := 0, 0, 0;
      leaseValid, deadlineValid, chatMember, studioMember := false, true, true, false;
    }

    ghost predicate Valid()
      reads this
    {
      Holds(checkpoints, rows) && |authors| == |rows| && Load(rows).Some?
    }

    ghost function State(): Db
      reads this
    {
      Db(rows, authors, runStatus, jobStatus, leaseToken, attemptNo, leaseValid, deadlineValid, chatMember,
        studioMember, messages, modelCalls, actions, None)
    }

    /** This attempt, and no other, may act for the Run, which is under way. */
    ghost predicate HoldsLease(a: Attempt)
      reads this
    {
      leaseToken == Some(a.token) && attemptNo == a.no && leaseValid && UnderWay()
    }

    ghost predicate UnderWay()
      reads this
    {
      runStatus == RunRunning && jobStatus == JobRunning && messages == []
    }

    method LockCheckpointAuthority(a: Attempt) returns (r: Authority)
      ensures r == CheckAuthority(State(), a)
      ensures r == Held <==> HoldsLease(a) && deadlineValid && (chatMember || studioMember)
      ensures r == LeaseLost <==> !HoldsLease(a)
      ensures r == DeadlinePassed <==> HoldsLease(a) && !deadlineValid
    {
      if leaseToken != Some(a.token) || attemptNo != a.no {
        return LeaseLost;
      }
      if runStatus != RunRunning || jobStatus != JobRunning || messages != [] || !leaseValid {
        return LeaseLost;
      }
      if !deadlineValid {
        return DeadlinePassed;
      }
      if !chatMember && !studioMember {
        return Unauthorized;
      }
      return Held;
    }

    method LoadRunCheckpoints() returns (scanned: seq<Checkpoint>)
      requires Valid()
      ensures ScannedFrom(tree.shown, scanned, checkpoints)
    {
      hide Scan, Seal, WellFormed, Load;
      scanned := [];
      for i := 0 to |checkpoints|
        invariant ScannedFrom(tree.shown, scanned, checkpoints[..i])
      {
        ScanRebuilds(tree.shown, rows[i]);
        var c := Scan(tree.shown, checkpoints[i].pending);
        scanned := scanned + [Checkpoint(checkpoints[i].sequenceNo, c.value)];
      }
      assert checkpoints[..|checkpoints|] == checkpoints;
    }

    /** The transaction of one append. */
    method AppendCheckpointOnce(a: Attempt, pending: Pending, ghost row: Row, commit: Commit) returns (r: Outcome)
      requires Valid() && WellFormed(row) && Seal(row) == Some(pending)
      modifies this
      ensures Valid()
      ensures match AppendTx(tree, old(State()), a, row)
        case Refused(authority) =>
          State() == old(State()) &&
          r == RefusalOf(authority)
        case Invalid => State() == old(State()) && r == CheckpointInvalid
        case AlreadyThere => State() == old(State()) && r == Done
        case Commits(after) =>
          State() == (if commit.NotCommitted? then old(State()) else after) &&
          r == (if commit.Answered? then Done else Broken)
    {
      hide Load, LoadStored, Seal, WellFormed, Scan, RowAsShown, Readable, Decode, Holds, ScannedFrom;
      var authority := LockCheckpointAuthority(a);
      if authority != Held {
        return RefusalOf(authority);
      }
      var scanned := LoadRunCheckpoints();
      var prefix := LoadCheckpointPrefix(scanned);
      LoadingTheTable(tree.shown, scanned, checkpoints, rows);
      if prefix.None? {
        return CheckpointInvalid;
      }
      var found := FindIdentity(scanned, pending);
      FoundMeans(tree.shown, scanned, checkpoints, rows, row, pending, found);
      if found < |scanned| {
        return if CheckpointMatches(scanned[found].pending, pending) then Done else CheckpointInvalid;
      }
      var checkpoint := Checkpoint(|scanned| + 1, pending);
      prefix := LoadCheckpointPrefix(scanned + [checkpoint]);
      LoadingOneMore(tree.shown, scanned, checkpoints, rows, row);
      if prefix.None? {
        return CheckpointInvalid;
      }
      if commit.NotCommitted? {
        return Broken;
      }
      ScannedLength(tree.shown, scanned, checkpoints, rows);
      OneMoreHeld(checkpoints, rows, row, checkpoint);
      InsertCheckpoint(a, checkpoint, row);
      return if commit.Answered? then Done else Broken;
    }

    /** Inserts a row and charges for it. */
    method InsertCheckpoint(a: Attempt, checkpoint: Checkpoint, ghost row: Row)
      requires Holds(checkpoints + [checkpoint], rows + [row]) && Seal(row) == Some(checkpoint.pending)
      modifies this
      ensures Holds(checkpoints, rows) && State() == Inserted(tree, old(State()), row, a.no)
    {
      hide Holds, Seal;
      checkpoints := checkpoints + [checkpoint];
      rows, authors := rows + [row], authors + [a.no];
      var kind := checkpoint.pending.kind;
      KindOfSealed(row, checkpoint.pending);
      ChargeConfiguredTree(if kind == ProposalKind ||
        kind == FinalKind then 1 else 0, if kind == ResultKind then 1 else 0);
    }

    /** The charge of one transaction; a Run that is not configured is not charged. */
    method ChargeConfiguredTree(calls: nat, acts: nat)
      modifies this`modelCalls, this`actions
      ensures var charged := tree.configured && calls + acts > 0;
        modelCalls == (if charged then Min(old(modelCalls) + calls, tree.modelCallLimit) else old(modelCalls)) &&
        actions == (if charged then Min(old(actions) + acts, tree.actionLimit) else old(actions))
    {
      if calls == 0 && acts == 0 {
        return;
      }
      if !tree.configured {
        return;
      }
      modelCalls := Min(modelCalls + calls, tree.modelCallLimit);
      actions := Min(actions + acts, tree.actionLimit);
    }

    /** A look without locks after an append whose result is unknown. */
    method ReconcileCheckpoint(a: Attempt, pending: Pending, ghost row: Row) returns (r: Reconciled)
      requires Valid() && WellFormed(row) && Seal(row) == Some(pending)
      ensures r == Reconcile(tree, State(), a, row)
      ensures r == StillHeld <==> !HasKey(rows, Key(row)) && HoldsLease(a) && deadlineValid && chatMember
      ensures r == Late <==>
        !HasKey(rows, Key(row)) && leaseToken == Some(a.token) && attemptNo == a.no && UnderWay() && chatMember &&
        !deadlineValid
      ensures r == Conflict <==> HasKey(rows, Key(row)) && !(row in rows && RowAsShown(tree.shown, row))
      ensures r == Matched ==> row in rows && RowAsShown(tree.shown, row)
      ensures HasKey(rows, Key(row)) <==> r == Matched || r == Conflict
    {
      hide Load, Seal, WellFormed, Scan, RowAsShown, CheckpointMatches;
      var i := 0;
      while i < |checkpoints| && checkpoints[i].pending.identity != pending.identity
        invariant 0 <= i <= |checkpoints|
        invariant forall j | 0 <= j < i :: checkpoints[j].pending.identity != pending.identity
      {
        i := i + 1;
      }
      IdentityIsKey(checkpoints, rows);
      KeysAreGenuine(row);
      if i < |checkpoints| {
        ScanRebuilds(tree.shown, rows[i]);
        var c := Scan(tree.shown, checkpoints[i].pending).value;
        MatchesExactly(tree.shown, rows[i], row, c);
        OnlyRowOfKey(rows, row, i);
        return if CheckpointMatches(c, pending) then Matched else Conflict;
      }
      assert !HasKey(rows, Key(row));
      if leaseToken != Some(a.token) || attemptNo != a.no {
        return NotHeld;
      }
      var active := runStatus == RunRunning && jobStatus == JobRunning && messages == [] && chatMember;
      if active && !deadlineValid {
        return Late;
      }
      return if active && leaseValid then StillHeld else NotHeld;
    }

    /** The check at the start of a transaction passes. */
    ghost predicate Authorized(a: Attempt)
      reads this
    {
      HoldsLease(a) && deadlineValid && (chatMember || studioMember)
    }

    /** The log can be read, and this row may come next. */
    ghost predicate Admits(row: Row)
      reads this
    {
      AllAsShown(tree.shown, rows) && !HasKey(rows, Key(row)) && Load(rows + [row]).Some?
    }

    /** Appends one accepted outcome; a second try follows a first whose commit was
        not acknowledged. Success means the log holds the outcome; in every
        case the log grew by nothing or by exactly that row, charged once. A
        repeated append changes nothing, and another outcome under the same
        identity is never accepted and never changes anything.

        What it comes to is determined by the state and by what becomes of the two
        commits. A row that may come next is written by the first commit that is
        carried out. The second try is made exactly if the first was not carried
        out, the store can be read and the Run has a chat the member belongs to. */
    method AppendCheckpoint(a: Attempt, pending: Pending, ghost row: Row, commits: seq<Commit>, readable: bool)
      returns (r: Outcome)
      requires Valid() && WellFormed(row) && Seal(row) == Some(pending) && |commits| == 2
      modifies this
      ensures Valid()
      ensures r == Done ==>
        row in rows && forall i, j | 0 <= i < |rows| && 0 <= j < |rows| && rows[i] == row && rows[j] == row :: i == j
      ensures State() == old(State()) || State() == Inserted(tree, old(State()), row, a.no)
      ensures State() != old(State()) ==> !HasKey(old(rows), Key(row)) && CheckAuthority(old(State()), a) == Held
      ensures HasKey(old(rows), Key(row)) ==> State() == old(State())
      ensures HasKey(old(rows), Key(row)) && row !in old(rows) ==> r != Done
      // without authority
      ensures r == MissedDeadline <==> old(HoldsLease(a)) && !deadlineValid
      ensures !old(HoldsLease(a)) ==> r == LostLease
      ensures r == LostLease ==> !old(HoldsLease(a)) || !chatMember
      ensures !old(Authorized(a)) ==> State() == old(State())
      ensures old(HoldsLease(a)) && deadlineValid && !chatMember && !studioMember ==>
        r == UnauthorizedOutcome(readable, HasKey(rows, Key(row)), row in rows && RowAsShown(tree.shown, row))
      // a row that is there, or cannot be
      ensures old(Authorized(a)) && AllAsShown(tree.shown, old(rows)) && row in old(rows) ==> r == Done
      ensures old(Authorized(a)) && row !in old(rows) && !old(Admits(row)) ==> r == CheckpointInvalid
      ensures old(Authorized(a)) && !AllAsShown(tree.shown, old(rows)) ==> r == CheckpointInvalid
      // a row that may come next
      ensures old(Authorized(a) && Admits(row)) ==>
        State() ==
        (if Carried(commits, readable && chatMember) then Inserted(tree, old(State()), row, a.no) else old(State()))
      ensures old(Authorized(a) && Admits(row)) ==>
        r == FreshOutcome(commits, readable, chatMember, RowAsShown(tree.shown, row))
    {
      hide Load, Seal, WellFormed, RowAsShown, Holds, AllAsShown, Inserted;
      ghost var before := State();
      AppendVerdicts(tree, before, a, row);
      r := Broken;
      for try := 0 to 2
        invariant Valid() && State() == before && r == Broken
        invariant try > 0 ==> readable && chatMember && old(Authorized(a) && Admits(row))
        invariant forall k | 0 <= k < try :: commits[k].NotCommitted?
      {
        var again;
        r, again := AppendOnceAndLook(a, pending, row, commits[try], readable);
        if !again {
          if row in rows {
            StandsOnce(rows, row);
          }
          return;
        }
      }
    }

    /** One try of an append, and the look that follows unless the outcome is known.
        Another try is worth making exactly if this one was not carried out, the store
        can be read and the member belongs to the Run's chat. */
    method AppendOnceAndLook(a: Attempt, pending: Pending, ghost row: Row, commit: Commit, readable: bool)
      returns (r: Outcome, again: bool)
      requires Valid() && WellFormed(row) && Seal(row) == Some(pending)
      modifies this
      ensures Valid() && InsertedStands(old(State()), State())
      ensures again <==> old(Authorized(a) && Admits(row)) && commit.NotCommitted? && readable && chatMember
      ensures again ==> r == Broken
      ensures State() ==
        (if old(Authorized(a) && Admits(row)) && !commit.NotCommitted? then Inserted(tree, old(State()), row, a.no)
         else old(State()))
      ensures !old(HoldsLease(a)) ==> r == LostLease
      ensures old(HoldsLease(a)) && !deadlineValid ==> r == MissedDeadline
      ensures old(HoldsLease(a)) && deadlineValid && !chatMember && !studioMember ==>
        r == UnauthorizedOutcome(readable, HasKey(rows, Key(row)), row in rows && RowAsShown(tree.shown, row))
      ensures old(Authorized(a)) && AllAsShown(tree.shown, old(rows)) && row in old(rows) ==> r == Done
      ensures old(Authorized(a)) && row !in old(rows) && !old(Admits(row)) ==> r == CheckpointInvalid
      ensures old(Authorized(a)) && !AllAsShown(tree.shown, old(rows)) ==> r == CheckpointInvalid
      ensures old(Authorized(a) && Admits(row)) ==>
        match commit
        case Answered => r == Done
        case LostAfterCommit =>
          r == (if !readable then Broken else if RowAsShown(tree.shown, row) then Done else CheckpointInvalid)
        case NotCommitted => r == (if readable && !chatMember then LostLease else Broken)
    {
      hide Load, Seal, WellFormed, RowAsShown, Holds, AllAsShown, AppendTx, Reconcile, Inserted;
      ghost var before := State();
      AppendVerdicts(tree, before, a, row);
      VerdictOnFields(tree, before, a, row);
      InsertedOnlyAdds(tree, before, row, a.no);
      r := AppendCheckpointOnce(a, pending, row, commit);
      if r != Broken || !readable {
        return r, false;
      }
      var state := ReconcileCheckpoint(a, pending, row);
      match state {
        case Matched => return Done, false;
        case NotHeld => return LostLease, false;
        case StillHeld => return Broken, true;
        case Late => return MissedDeadline, false;
        case Conflict => return CheckpointInvalid, false;
      }
    }

    /** The transaction of one publication. */
    method PublishOnce(a: Attempt, text: string, commit: Commit) returns (r: Outcome)
      requires Valid()
      modifies this
      ensures Valid()
      ensures match PublishTx(tree, old(State()), a, text)
        case Refused(authority) =>
          State() == old(State()) &&
          r == RefusalOf(authority)
        case Invalid => State() == old(State()) && r == CheckpointInvalid
        case AlreadyThere => false
        case Commits(after) =>
          State() == (if commit.NotCommitted? then old(State()) else after) &&
          r == (if commit.Answered? then Done else Broken)
    {
      hide Load, LoadStored, RowAsShown, Readable, Holds, ScannedFrom;
      var authority := LockCheckpointAuthority(a);
      if authority != Held {
        return RefusalOf(authority);
      }
      var scanned := LoadRunCheckpoints();
      var prefix := LoadCheckpointPrefix(scanned);
      LoadingTheTable(tree.shown, scanned, checkpoints, rows);
      if prefix.None? || prefix.value.final != Some(text) {
        return CheckpointInvalid;
      }
      if commit.NotCommitted? {
        return Broken;
      }
      messages := messages + [text];
      runStatus := RunCompleted;
      jobStatus, leaseToken := JobSucceeded, None;
      return if commit.Answered? then Done else Broken;
    }

    method ReconcilePublicationState(a: Attempt) returns (r: Publication)
      ensures r == ReconcilePublication(State(), a)
      ensures r.PublishedAlready? <==> runStatus == RunCompleted && jobStatus == JobSucceeded && messages != []
      ensures r.PublicationLate? <==> UnderWay() && !deadlineValid
      ensures attemptNo == a.no ==> (r.StillPublishing? <==> HoldsLease(a) && deadlineValid)
    {
      var running := runStatus == RunRunning && jobStatus == JobRunning && messages == [];
      if runStatus == RunCompleted && messages != [] && jobStatus == JobSucceeded {
        return PublishedAlready;
      }
      if running && !deadlineValid {
        return PublicationLate;
      }
      if running && leaseToken == Some(a.token) && leaseValid && deadlineValid {
        return StillPublishing;
      }
      return NotPublishing;
    }

    /** The log can be read and ends with this Final. */
    ghost predicate Ends(text: string)
      reads this
    {
      AllAsShown(tree.shown, rows) && Load(rows).Some? && Load(rows).value.final == Some(text)
    }

    /** Publishes the Final, with a second try after a commit that was not
        acknowledged. Success means the Run is completed; in every case the
        message was added once or not at all, together with the completion of
        Run and job; and a completed Run gets no second message.

        What it comes to is determined by the state and the two commits: the first
        commit that is carried out completes the Run, and the second try is made
        exactly if the first was not carried out and the state can be read. */
    method PublishResult(a: Attempt, text: string, commits: seq<Commit>, readable: bool) returns (r: Outcome)
      requires Valid() && |commits| == 2
      modifies this
      ensures Valid()
      ensures State() == old(State()) || State() == Published(old(State()), text)
      ensures State() != old(State()) ==>
        old(messages) == [] && messages == [text] && Load(old(rows)).value.final == Some(text)
      ensures r == Done ==> runStatus == RunCompleted && jobStatus == JobSucceeded && messages != []
      ensures old(runStatus) == RunCompleted ==> State() == old(State())
      ensures r == LostLease <==> !old(HoldsLease(a))
      ensures r == MissedDeadline <==> old(HoldsLease(a)) && !deadlineValid
      ensures r == CheckpointInvalid <==> old(Authorized(a)) && !old(Ends(text))
      ensures !old(Authorized(a)) ==> State() == old(State())
      ensures old(Authorized(a) && Ends(text)) ==>
        State() == (if Carried(commits, readable) then Published(old(State()), text) else old(State()))
      ensures old(Authorized(a) && Ends(text)) ==>
        (r == Done <==> commits[0].Answered? || (readable && Carried(commits, true)))
    {
      hide Load, RowAsShown, Holds, AllAsShown;
      ghost var before := State();
      r := Broken;
      for try := 0 to 2
        invariant Valid() && r == Broken && State() == before
        invariant try > 0 ==> readable && deadlineValid && HoldsLease(a)
        invariant try > 0 && old(Authorized(a)) ==>
          old(Ends(text)) && forall k | 0 <= k < try :: commits[k].NotCommitted?
      {
        r := PublishOnce(a, text, commits[try]);
        if r != Broken || !readable {
          return;
        }
        var state := ReconcilePublicationState(a);
        match state {
          case PublishedAlready => return Done;
          case NotPublishing => return LostLease;
          case PublicationLate => return MissedDeadline;
          case StillPublishing =>
        }
      }
    }

    method Fail(a: Attempt, commit: Commit) returns (r: Outcome)
      requires Valid()
      modifies this
      ensures Valid()
      ensures r == LostLease <==>
        old(leaseToken) != Some(a.token) || !leaseValid || !old(runStatus.RunRunning? && jobStatus.JobRunning?)
      ensures State() == old(State()) || State() == Failed(old(State()))
      ensures State() != old(State()) <==>
        old(leaseToken == Some(a.token) && leaseValid && UnderWay()) && !commit.NotCommitted?
      ensures r == Done <==> State() != old(State()) && commit.Answered?
      ensures match FailTx(old(State()), a)
        case Commits(after) =>
          State() == (if commit.NotCommitted? then old(State()) else after) &&
          r == (if commit.Answered? then Done else Broken)
        case Refused(_) => State() == old(State()) && r != Done
        case Invalid => false
        case AlreadyThere => false
    {
      if leaseToken != Some(a.token) || !leaseValid || runStatus != RunRunning || jobStatus != JobRunning {
        return LostLease;
      }
      if messages != [] {
        return Broken;
      }
      if commit.NotCommitted? {
        return Broken;
      }
      runStatus, jobStatus, leaseToken := RunFailed, JobFailed, None;
      return if commit.Answered? then Done else Broken;
    }

    /** Closes the open actions of a Run that is over, one row after another. */
    method ReconcileTerminalRunActions() returns (ok: bool)
      requires Valid()
      modifies this
      ensures Valid() && State() == ClosedTerminal(tree, old(State()))
      ensures ok && (old(runStatus) != RunQueued && old(runStatus) != RunRunning) ==>
        OpenActions(Load(rows).value).None?
      ensures !ok ==> !AllAsShown(tree.shown, rows)
    {
      hide LoadStored, RowAsShown, Readable, Holds, ScannedFrom, INTERRUPTED, Seal, WellFormed, Load;
      hide ClosedTerminal, Closings, OpenActions, Shape, AllAsShown, HasIncompleteProposal, Complete;
      ClosedTerminalCases(tree, State());
      if runStatus == RunQueued || runStatus == RunRunning {
        return true;
      }
      var scanned := LoadRunCheckpoints();
      var prefix := LoadCheckpointPrefix(scanned);
      LoadingTheTable(tree.shown, scanned, checkpoints, rows);
      if prefix.None? {
        return false;
      }
      var open := IncompleteActions(prefix.value);
      if open.None? {
        return true;
      }
      OpenBatchIsThere(prefix.value);
      var no := Last(prefix.value).no;
      ghost var before := rows;
      LoadHasShape(rows);
      LastIsNumbered(prefix.value);
      TerminalClosingsMayFollow(rows);
      ClosingsFit(rows, Closings(no, open.value));
      InsertClosings(no, open.value);
      ClosingFinishesTheBatch(before);
      OpenExactlyWhenIncomplete(Load(rows).value);
      return true;
    }

    /** The inserting loop: sequence numbers go on from the last one. */
    method InsertClosings(no: int, pending: seq<AcceptedAction>)
      requires Holds(checkpoints, rows) && |authors| == |rows|
      requires forall i | 0 <= i < |pending| :: WellFormed(Closings(no, pending)[i])
      modifies this`checkpoints, this`rows, this`authors
      ensures Holds(checkpoints, rows) && |authors| == |rows|
      ensures rows == old(rows) + Closings(no, pending) && authors == old(authors) + Zeros(|pending|)
    {
      hide Holds, INTERRUPTED, Seal, WellFormed, NewActionResultCheckpoint;
      ghost var closings := Closings(no, pending);
      ghost var rowsBefore, authorsBefore := rows, authors;
      var sequenceNo := |checkpoints|;
      for i := 0 to |pending|
        invariant Holds(checkpoints, rows) && sequenceNo == |checkpoints|
        invariant rows == rowsBefore + closings[..i] && authors == authorsBefore + Zeros(i)
      {
        var action := pending[i];
        SealsExactlyWellFormed(closings[i]);
        SealOfResult(no, action.index);
        var closing := NewActionResultCheckpoint(no, action.index, OfAction(no, action.index), INTERRUPTED);
        sequenceNo := sequenceNo + 1;
        OneMoreHeld(checkpoints, rows, closings[i], Checkpoint(sequenceNo, closing.value));
        checkpoints := checkpoints + [Checkpoint(sequenceNo, closing.value)];
        rows, authors := rows + [closings[i]], authors + [0];
        assert closings[..i + 1] == closings[..i] + [closings[i]];
        assert Zeros(i + 1) == Zeros(i) + [0];
      }
      assert closings[..|pending|] == closings;
    }
  }

  // ----- What the methods rely on -----

  method FindIdentity(scanned: seq<Checkpoint>, pending: Pending) returns (found: nat)
    ensures found <= |scanned|
    ensures forall j | 0 <= j < found :: scanned[j].pending.identity != pending.identity
    ensures found < |scanned| ==> scanned[found].pending.identity == pending.identity
  {
    for i := 0 to |scanned|
      invariant forall j | 0 <= j < i :: scanned[j].pending.identity != pending.identity
    {
      if scanned[i].pending.identity == pending.identity {
        return i;
      }
    }
    return |scanned|;
  }

  lemma OnlyRowOfKey(rows: seq<Row>, row: Row, i: nat)
    requires Load(rows).Some? && i < |rows| && Key(rows[i]) == Key(row)
    ensures HasKey(rows, Key(row)) && (row in rows <==> rows[i] == row)
  {
    hide Load;
    RowOfKey(rows, rows[i]);
  }

  lemma FoundMeans(
    shown: string -> string, scanned: seq<Checkpoint>, stored: seq<Checkpoint>, rows: seq<Row>, row: Row,
    pending: Pending, found: nat)
    requires Holds(stored, rows) && ScannedFrom(shown, scanned, stored) && AllAsShown(shown, rows) && Load(rows).Some?
    requires WellFormed(row) && Seal(row) == Some(pending) && found <= |scanned|
    requires forall j | 0 <= j < found :: scanned[j].pending.identity != pending.identity
    requires found < |scanned| ==> scanned[found].pending.identity == pending.identity
    ensures HasKey(rows, Key(row)) <==> found < |scanned|
    ensures found < |scanned| ==> (CheckpointMatches(scanned[found].pending, pending) <==> row in rows)
  {
    hide Load, Seal, WellFormed, Scan, RowAsShown, Decode, CheckpointMatches;
    KeysAreGenuine(row);
    forall j | 0 <= j < |rows| ensures scanned[j].pending.identity == Key(rows[j]) {
      ScannedRow(shown, scanned, stored, rows, j);
    }
    if found < |scanned| {
      MatchesExactly(shown, rows[found], row, scanned[found].pending);
      OnlyRowOfKey(rows, row, found);
    }
  }

  lemma ScannedLength(shown: string -> string, scanned: seq<Checkpoint>, stored: seq<Checkpoint>, rows: seq<Row>)
    requires Holds(stored, rows) && ScannedFrom(shown, scanned, stored)
    ensures |scanned| == |stored| == |rows|
  {
  }

  lemma OneMoreHeld(stored: seq<Checkpoint>, rows: seq<Row>, row: Row, c: Checkpoint)
    requires Holds(stored, rows) && WellFormed(row) && Seal(row) == Some(c.pending) && c.sequenceNo == |stored| + 1
    ensures Holds(stored + [c], rows + [row])
  {
    hide Seal, WellFormed;
  }

  lemma KindOfSealed(row: Row, pending: Pending)
    requires Seal(row) == Some(pending)
    ensures row.ProposalRow? <==> pending.kind == ProposalKind
    ensures row.FinalRow? <==> pending.kind == FinalKind
    ensures row.ResultRow? <==> pending.kind == ResultKind
  {
  }

  lemma IdentityIsKey(stored: seq<Checkpoint>, rows: seq<Row>)
    requires Holds(stored, rows)
    ensures forall i | 0 <= i < |rows| :: stored[i].pending.identity == Key(rows[i])
  {
    hide Seal, WellFormed;
    forall i | 0 <= i < |rows| ensures stored[i].pending.identity == Key(rows[i]) {
      KeysAreGenuine(rows[i]);
    }
  }

  lemma AppendVerdicts(tree: Tree, db: Db, a: Attempt, row: Row)
    ensures var verdict := AppendTx(tree, db, a, row);
      (verdict.Commits? ==>
        verdict.after == Inserted(tree, db, row, a.no) && !HasKey(db.rows, Key(row)) &&
        CheckAuthority(db, a) == Held) &&
      (verdict.AlreadyThere? ==> row in db.rows) &&
      (CheckAuthority(db, a) == Held && row in db.rows && AllAsShown(tree.shown, db.rows) && Load(db.rows).Some? ==>
        verdict.AlreadyThere?)
    ensures row in Inserted(tree, db, row, a.no).rows && HasKey(Inserted(tree, db, row, a.no).rows, Key(row))
    ensures row in db.rows ==> HasKey(db.rows, Key(row))
  {
    hide Load, RowAsShown;
    var after := Inserted(tree, db, row, a.no).rows;
    assert after[|db.rows|] == row;
  }

  /** Nothing but the log and what is charged for it has changed. */
  ghost predicate InsertedStands(before: Db, after: Db) {
    after == before.(rows := after.rows, authors := after.authors, modelCalls := after.modelCalls,
      actions := after.actions)
  }

  lemma InsertedOnlyAdds(tree: Tree, db: Db, row: Row, author: nat)
    ensures InsertedStands(db, Inserted(tree, db, row, author))
    ensures Inserted(tree, db, row, author).rows == db.rows + [row]
  {
  }

  lemma VerdictOnFields(tree: Tree, db: Db, a: Attempt, row: Row)
    requires Load(db.rows).Some?
    ensures CheckAuthority(db, a) != Held ==> AppendTx(tree, db, a, row) == Refused(CheckAuthority(db, a))
    ensures CheckAuthority(db, a) == Held ==>
      var verdict := AppendTx(tree, db, a, row);
      (verdict.Commits? <==>
        AllAsShown(tree.shown, db.rows) && !HasKey(db.rows, Key(row)) && Load(db.rows + [row]).Some?) &&
      (verdict.AlreadyThere? <==> AllAsShown(tree.shown, db.rows) && row in db.rows) && !verdict.Refused?
  {
    hide Load, RowAsShown;
  }

  lemma StandsOnce(rows: seq<Row>, row: Row)
    requires Load(rows).Some?
    ensures forall i, j | 0 <= i < |rows| && 0 <= j < |rows| && rows[i] == row && rows[j] == row :: i == j
  {
    hide Load;
    forall i, j | 0 <= i < |rows| && 0 <= j < |rows| && rows[i] == row && rows[j] == row ensures i == j {
      if i < j { IdentityKeysAreDistinct(rows, i, j); }
      if j < i { IdentityKeysAreDistinct(rows, j, i); }
    }
  }

  lemma ClosedTerminalCases(tree: Tree, db: Db)
    ensures db.run == RunQueued || db.run == RunRunning ==> ClosedTerminal(tree, db) == db
    ensures ReadLog(tree.shown, db.rows).None? || OpenActions(ReadLog(tree.shown, db.rows).value).None? ==>
      ClosedTerminal(tree, db) == db
    ensures !(db.run == RunQueued || db.run == RunRunning) ==>
      ReadLog(tree.shown, db.rows).Some? && OpenActions(ReadLog(tree.shown, db.rows).value).Some? ==>
        var p := ReadLog(tree.shown, db.rows).value;
        var closings := Closings(|p.proposals|, OpenActions(p).value);
        ClosedTerminal(tree, db) == db.(rows := db.rows + closings, authors := db.authors + Zeros(|closings|)) &&
        |closings| == |OpenActions(p).value|
    ensures ReadLog(tree.shown, db.rows) == (if AllAsShown(tree.shown, db.rows) then Load(db.rows) else None)
  {
    hide Load, OpenActions;
  }

  lemma OpenBatchIsThere(p: Prefix)
    requires OpenActions(p).Some?
    ensures |p.proposals| > 0
  {
  }

  lemma LastIsNumbered(p: Prefix)
    requires Shape(p) && |p.proposals| > 0
    ensures Last(p).no == |p.proposals|
  {
    assert ProposalShape(Last(p), |p.proposals|);
  }

  lemma ClosingsFit(rows: seq<Row>, closings: seq<Row>)
    requires Load(rows + closings).Some?
    ensures forall i | 0 <= i < |closings| :: WellFormed(closings[i])
  {
    hide Load, WellFormed;
    forall i | 0 <= i < |closings| ensures WellFormed(closings[i]) {
      AcceptedRowsAreWellFormed(rows + closings, |rows| + i);
    }
  }

  lemma SealOfResult(no: int, index: int)
    ensures Seal(ResultRow(no, index, INTERRUPTED)) ==
      NewActionResultCheckpoint(no, index, OfAction(no, index), INTERRUPTED)
  {
  }
}

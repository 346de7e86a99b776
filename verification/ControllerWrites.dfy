/** The controller's loops over durable writes, on the runtime that carries them out. */
module ControllerWrites {
  import opened Basics
  import opened Identities
  import opened Checkpoints
  import opened CheckpointPrefixes
  import opened CheckpointGrammar
  import opened PendingActions
  import opened Controller
  import opened RunStore
  import opened StoredLogs
  import opened PostgresRuntime
  import RunProtocol
  import RunInvariants
  import AtMostOnce
  import LogAccounting

  /** How the commits of one append's two tries come out, and whether the store can
      be read in between. */
  datatype Weather = Weather(first: Commit, second: Commit, readable: bool)

  /** Writing goes on as long as this holds of each append: its row is written and the
      attempt is told so. */
  predicate Clear(w: Weather, chatMember: bool) {
    w.first.Answered? ||
    (w.readable && (w.first.LostAfterCommit? || (chatMember && !w.second.NotCommitted?)))
  }

  predicate Writes(w: Weather, chatMember: bool) {
    !w.first.NotCommitted? || (w.readable && chatMember && !w.second.NotCommitted?)
  }

  /** The first append that does not go through. */
  function FirstStuck(weather: nat -> Weather, chatMember: bool, n: nat): (k: nat)
    ensures k <= n && (forall i | 0 <= i < k :: Clear(weather(i), chatMember))
    ensures k < n ==> !Clear(weather(k), chatMember)
  {
    if n == 0 then 0
    else
      var k := FirstStuck(weather, chatMember, n - 1);
      if k < n - 1 || !Clear(weather(n - 1), chatMember) then k else n
  }

  /** One append of a row that fits the log. */
  method AppendNext(runtime: Runtime, a: Attempt, pending: Pending, ghost row: Row, w: Weather)
    returns (outcome: Outcome, ghost wrote: bool)
    requires runtime.Valid() && WellFormed(row) && Seal(row) == Some(pending) && Load(runtime.rows + [row]).Some?
    modifies runtime
    ensures runtime.Valid() && SameStanding(runtime, a)
    ensures runtime.rows == old(runtime.rows) + (if wrote then [row] else [])
    ensures runtime.authors == old(runtime.authors) + (if wrote then [a.no] else [])
    ensures outcome == Done ==> wrote
    ensures !old(runtime.HoldsLease(a)) ==> outcome == LostLease
    ensures !old(runtime.Authorized(a)) ==> !wrote
    ensures old(MayWrite(runtime, a)) && RowAsShown(runtime.tree.shown, row) ==>
      MayWrite(runtime, a) && (outcome == Done <==> Clear(w, runtime.chatMember)) &&
      (wrote <==> Writes(w, runtime.chatMember))
  {
    hide Load, Seal, WellFormed, RowAsShown, Holds;
    NextRowHasNewKey(runtime.rows, row);
    ghost var before := runtime.rows;
    outcome := runtime.AppendCheckpoint(a, pending, row, [w.first, w.second], w.readable);
    wrote := runtime.rows != before;
    assert before + [] == before && runtime.authors + [] == runtime.authors;
  }

  /** The attempt and the member stand as they did. */
  twostate predicate SameStanding(runtime: Runtime, a: Attempt)
    reads runtime
  {
    (runtime.HoldsLease(a) <==> old(runtime.HoldsLease(a))) &&
    (runtime.Authorized(a) <==> old(runtime.Authorized(a))) &&
    runtime.chatMember == old(runtime.chatMember)
  }

  /** The committing loop of a batch: appends rows that fit the log one after another
      and stops at the first that does not succeed. Whatever happens, the log ends
      as the old one followed by some of the rows, in order; success means all. An
      attempt with authority, over numbers the server shows as written, stops
      exactly at the first append that does not go through; that append's own row
      may be written all the same. Without authority nothing is written. */
  method CommitResults(
    runtime: Runtime, a: Attempt, pending: seq<Pending>, ghost queue: seq<Row>, weather: nat -> Weather)
    returns (outcome: Outcome, ghost written: nat)
    requires runtime.Valid() && |pending| == |queue| && Load(runtime.rows + queue).Some?
    requires forall i | 0 <= i < |queue| :: WellFormed(queue[i]) && Seal(queue[i]) == Some(pending[i])
    modifies runtime
    ensures runtime.Valid() && written <= |queue| && runtime.rows == old(runtime.rows) + queue[..written]
    ensures runtime.authors == old(runtime.authors) + Signed(written, a.no)
    ensures outcome == Done ==> runtime.rows == old(runtime.rows) + queue
    ensures queue != [] && !old(runtime.HoldsLease(a)) ==> outcome == LostLease
    ensures queue != [] && !old(runtime.Authorized(a)) ==> written == 0
    ensures old(MayWrite(runtime, a)) && AllAsShown(runtime.tree.shown, queue) ==>
      var k := FirstStuck(weather, runtime.chatMember, |queue|);
      (outcome == Done <==> k == |queue|) &&
      written == (if k < |queue| && Writes(weather(k), runtime.chatMember) then k + 1 else k)
  {
    hide Load, Seal, WellFormed, RowAsShown, Holds, Clear, Writes, AllAsShown;
    hide Runtime.Valid, Runtime.HoldsLease, Runtime.Authorized, MayWrite;
    written := 0;
    ghost var before, beforeAuthors := runtime.rows, runtime.authors;
    ghost var clear := MayWrite(runtime, a) && AllAsShown(runtime.tree.shown, queue);
    for i := 0 to |pending|
      invariant runtime.Valid() && written == i && SameStanding(runtime, a)
      invariant runtime.rows == before + queue[..i]
      invariant runtime.authors == beforeAuthors + Signed(i, a.no)
      invariant i > 0 ==> old(runtime.Authorized(a)) && old(runtime.HoldsLease(a))
      invariant clear ==> MayWrite(runtime, a) && FirstStuck(weather, runtime.chatMember, i) == i
    {
      NextFits(before, queue, i);
      if clear {
        ShownOne(runtime.tree.shown, queue, i);
      }
      ghost var wrote;
      outcome, wrote := AppendNext(runtime, a, pending[i], queue[i], weather(i));
      assert before + queue[..i + 1] == before + queue[..i] + [queue[i]];
      assert beforeAuthors + Signed(i + 1, a.no) == beforeAuthors + Signed(i, a.no) + [a.no];
      written := if wrote then i + 1 else i;
      if outcome != Done {
        if clear {
          StuckHere(weather, runtime.chatMember, i, |queue|);
        }
        return;
      }
    }
    assert queue[..|queue|] == queue;
    outcome := Done;
  }

  lemma ShownOne(shown: string -> string, rows: seq<Row>, i: nat)
    requires AllAsShown(shown, rows) && i < |rows|
    ensures RowAsShown(shown, rows[i])
  {
  }

  lemma StuckHere(weather: nat -> Weather, chatMember: bool, i: nat, n: nat)
    requires i < n && FirstStuck(weather, chatMember, i) == i
    ensures !Clear(weather(i), chatMember) ==> FirstStuck(weather, chatMember, n) == i
    decreases n
  {
    if i < n - 1 {
      StuckHere(weather, chatMember, i, n - 1);
    }
  }

  /** The attempt has authority and the log can be read. */
  ghost predicate MayWrite(runtime: Runtime, a: Attempt)
    reads runtime
  {
    runtime.Authorized(a) && AllAsShown(runtime.tree.shown, runtime.rows)
  }

  function Signed(n: nat, who: nat): (r: seq<nat>)
    ensures |r| == n && forall i | 0 <= i < n :: r[i] == who
  {
    seq(n, i => who)
  }

  lemma NextFits(before: seq<Row>, queue: seq<Row>, i: nat)
    requires Load(before + queue).Some? && i < |queue|
    ensures Load(before + queue[..i] + [queue[i]]).Some?
  {
    hide Load;
    var all := before + queue;
    AcceptedLogsArePrefixClosed(all, |before| + i + 1);
    assert all[..|before| + i + 1] == before + queue[..i] + [queue[i]];
  }

  /** Closes, as interrupted, the open actions whose tools may not be run again, one
      append after another. After success every action that is still open is
      replay-safe, and the log grew by exactly those closings. */
  method CloseUnknownRecoveredActions(
    runtime: Runtime, a: Attempt, safe: set<string>, prefix: Prefix, pending: seq<AcceptedAction>,
    weather: nat -> Weather)
    returns (outcome: Outcome, closed: bool)
    requires runtime.Valid() && Load(runtime.rows) == Some(prefix) && OpenActions(prefix) == Some(pending)
    modifies runtime
    ensures runtime.Valid() && old(runtime.rows) <= runtime.rows
    ensures outcome == Done ==>
      runtime.rows == old(runtime.rows) + Closings(|prefix.proposals|, RunProtocol.Unsafe(safe, pending))
    ensures outcome == Done ==> (closed <==> exists action :: action in pending && action.name !in safe)
    ensures outcome == Done ==> OnlySafeIsOpen(Load(runtime.rows).value, safe)
    ensures old(MayWrite(runtime, a)) ==>
      (outcome == Done <==>
        forall i | 0 <= i < |pending| && pending[i].name !in safe :: Clear(weather(i), runtime.chatMember))
    ensures outcome != Done && !old(runtime.Authorized(a)) ==> runtime.rows == old(runtime.rows)
    ensures (exists action :: action in pending && action.name !in safe) && !old(runtime.HoldsLease(a)) ==>
      outcome == LostLease
  {
    hide Load, INTERRUPTED, OnlySafeIsOpen, Shape, OpenActions, Holds, RunProtocol.Unsafe, Clear, AllAsShown;
    hide RowAsShown;
    OpenMeansProposed(prefix);
    var no := Last(prefix).no;
    ghost var before := runtime.rows;
    ghost var closings := Closings(|prefix.proposals|, RunProtocol.Unsafe(safe, pending));
    ghost var count := 0;
    LoadHasShape(before);
    LastIsNumbered(prefix);
    ClosingsFitTheLog(before, safe);
    closed := false;
    assert RunProtocol.Unsafe(safe, pending[..0]) == [] by { UnsafeOfNothing(safe); }
    assert before + closings[..0] == before;
    for i := 0 to |pending|
      invariant runtime.Valid() && count == |RunProtocol.Unsafe(safe, pending[..i])| <= |closings|
      invariant runtime.rows == before + closings[..count]
      invariant closed <==> count > 0
      invariant SameStanding(runtime, a)
      invariant count > 0 ==> old(runtime.Authorized(a))
      invariant old(MayWrite(runtime, a)) ==> MayWrite(runtime, a)
      invariant old(MayWrite(runtime, a)) ==>
        forall j | 0 <= j < i && pending[j].name !in safe :: Clear(weather(j), runtime.chatMember)
    {
      UnsafeStep(safe, pending, i);
      var action := pending[i];
      if action.name in safe {
        continue;
      }
      outcome := CloseOne(runtime, a, no, action, weather(i), before, closings, count);
      if outcome != Done {
        return;
      }
      count := count + 1;
      closed := true;
    }
    assert pending[..|pending|] == pending;
    assert closings[..count] == closings;
    outcome := Done;
    ClosedLeavesSafe(before, safe);
    ClosedMeans(safe, pending);
  }

  method CloseOne(
    runtime: Runtime, a: Attempt, no: int, action: AcceptedAction, weather: Weather, ghost before: seq<Row>,
    ghost closings: seq<Row>, ghost k: nat)
    returns (outcome: Outcome)
    requires runtime.Valid() && Load(before + closings).Some? && k < |closings|
    requires runtime.rows == before + closings[..k] && closings[k] == PendingActions.Answer(no, action, INTERRUPTED)
    modifies runtime
    ensures runtime.Valid() && before <= runtime.rows && SameStanding(runtime, a)
    ensures outcome == Done ==> runtime.rows == before + closings[..k + 1]
    ensures !old(runtime.HoldsLease(a)) ==> outcome == LostLease
    ensures !old(runtime.Authorized(a)) ==> outcome != Done && runtime.rows == old(runtime.rows)
    ensures old(MayWrite(runtime, a)) ==>
      MayWrite(runtime, a) && (outcome == Done <==> Clear(weather, runtime.chatMember))
  {
    hide Load, Seal, WellFormed, INTERRUPTED, Holds;
    ghost var row := closings[k];
    NextFits(before, closings, k);
    ClosingsFit(before, closings);
    SealsExactlyWellFormed(row);
    SealOfResult(no, action.index);
    InterruptedIsAsShown(runtime.tree.shown, row);
    var checkpoint := NewActionResultCheckpoint(no, action.index, OfAction(no, action.index), INTERRUPTED);
    ghost var wrote;
    outcome, wrote := AppendNext(runtime, a, checkpoint.value, row, weather);
    assert before + closings[..k + 1] == before + closings[..k] + [row];
  }

  lemma InterruptedIsAsShown(shown: string -> string, row: Row)
    requires row.ResultRow? && row.result == INTERRUPTED
    ensures RowAsShown(shown, row)
  {
  }

  ghost predicate OnlySafeIsOpen(p: Prefix, safe: set<string>) {
    |p.proposals| > 0 ==>
      forall i | 0 <= i < |Last(p).actions| && Last(p).actions[i].result.None? :: Last(p).actions[i].name in safe
  }

  lemma ClosedMeans(safe: set<string>, pending: seq<AcceptedAction>)
    ensures RunProtocol.Unsafe(safe, pending) != [] <==> exists action :: action in pending && action.name !in safe
  {
    var unknown := RunProtocol.Unsafe(safe, pending);
    if unknown != [] {
      assert unknown[0] in unknown;
    }
  }

  lemma OpenMeansProposed(p: Prefix)
    requires OpenActions(p).Some?
    ensures |p.proposals| > 0
  {
  }

  lemma UnsafeOfNothing(safe: set<string>)
    ensures RunProtocol.Unsafe(safe, []) == []
  {
  }

  lemma UnsafeStep(safe: set<string>, pending: seq<AcceptedAction>, i: nat)
    requires i < |pending|
    ensures var done := RunProtocol.Unsafe(safe, pending[..i]);
      RunProtocol.Unsafe(safe, pending[..i + 1]) == done + (if pending[i].name in safe then [] else [pending[i]]) &&
      |RunProtocol.Unsafe(safe, pending[..i + 1])| <= |RunProtocol.Unsafe(safe, pending)| &&
      (pending[i].name !in safe ==> RunProtocol.Unsafe(safe, pending)[|done|] == pending[i])
  {
    assert pending[..i + 1][..i] == pending[..i];
    UnsafeInFront(safe, pending, i + 1);
  }

  lemma {:induction false} UnsafeInFront(safe: set<string>, pending: seq<AcceptedAction>, k: nat)
    requires k <= |pending|
    ensures RunProtocol.Unsafe(safe, pending[..k]) <= RunProtocol.Unsafe(safe, pending)
    decreases |pending|
  {
    if k < |pending| {
      UnsafeInFront(safe, pending[..|pending| - 1], k);
      assert pending[..|pending| - 1][..k] == pending[..k];
    } else {
      assert pending[..k] == pending;
    }
  }

  lemma ClosingsFitTheLog(rows: seq<Row>, safe: set<string>)
    requires Load(rows).Some? && OpenActions(Load(rows).value).Some?
    ensures var p := Load(rows).value;
      Load(rows + Closings(|p.proposals|, RunProtocol.Unsafe(safe, OpenActions(p).value))).Some?
  {
    hide Load;
    var p := Load(rows).value;
    LoadHasShape(rows);
    RunInvariants.PendingIncreases(p);
    RunInvariants.UnsafeKeepOrder(safe, OpenActions(p).value);
    RunInvariants.ClosingsMayFollow(rows, RunProtocol.Unsafe(safe, OpenActions(p).value));
  }

  lemma ClosedLeavesSafe(rows: seq<Row>, safe: set<string>)
    requires Load(rows).Some? && OpenActions(Load(rows).value).Some?
    requires var p := Load(rows).value;
      Load(rows + Closings(|p.proposals|, RunProtocol.Unsafe(safe, OpenActions(p).value))).Some?
    ensures var p := Load(rows).value;
      OnlySafeIsOpen(Load(rows + Closings(|p.proposals|, RunProtocol.Unsafe(safe, OpenActions(p).value))).value, safe)
  {
    hide Load, INTERRUPTED, Missing, Closings, Shape, RunProtocol.Unsafe, PendingOf, HasIncompleteProposal;
    var p := Load(rows).value;
    var closings := Closings(|p.proposals|, RunProtocol.Unsafe(safe, OpenActions(p).value));
    LoadHasShape(rows);
    LengthAfterAnswers(rows, closings);
    LogAccounting.AnswersOnlyAddBytes(r => 0, rows, closings);
    var q := Load(rows + closings).value;
    SameNames(Last(p), Last(q));
    forall i | 0 <= i < |Last(q).actions| && Last(q).actions[i].result.None? ensures Last(q).actions[i].name in safe {
      StillOpenIsSafe(rows, safe, closings, i);
    }
  }

  lemma StillOpenIsSafe(rows: seq<Row>, safe: set<string>, closings: seq<Row>, i: int)
    requires Load(rows).Some? && Load(rows + closings).Some? && OpenActions(Load(rows).value).Some?
    requires closings == Closings(|Load(rows).value.proposals|,
      RunProtocol.Unsafe(safe, OpenActions(Load(rows).value).value))
    requires var q := Load(rows + closings).value;
      |q.proposals| > 0 && 0 <= i < |Last(q).actions| && Last(q).actions[i].result.None?
    ensures i < |Last(Load(rows).value).actions| && Last(Load(rows).value).actions[i].name in safe
  {
    hide Load, INTERRUPTED, Missing, Shape, RunProtocol.Unsafe, PendingOf, HasIncompleteProposal;
    LoadHasShape(rows);
    IsMissing(Load(rows + closings).value, i);
    AtMostOnce.StillMissing(rows, closings, i);
    MissingIsThere(Load(rows).value, i);
    AtMostOnce.NotClosedIsSafe(safe, Load(rows).value, i, closings);
  }

  lemma IsMissing(p: Prefix, i: int)
    requires |p.proposals| > 0 && 0 <= i < |Last(p).actions| && Last(p).actions[i].result.None?
    ensures i in Missing(p)
  {
  }

  lemma MissingIsThere(p: Prefix, i: int)
    requires |p.proposals| > 0 && i in Missing(p)
    ensures 0 <= i < |Last(p).actions|
  {
  }

  lemma SameNames(a: AcceptedProposal, b: AcceptedProposal)
    requires AsProposed(a) == AsProposed(b)
    ensures |a.actions| == |b.actions| && forall i | 0 <= i < |a.actions| :: a.actions[i].name == b.actions[i].name
  {
    assert forall i | 0 <= i < |a.actions| :: AsProposed(a)[i].name == AsProposed(b)[i].name;
  }
}

/** The checkpoint log of a Run and its validated, decoded form. */
module CheckpointPrefixes {
  import opened Basics
  import opened Json
  import opened Identities
  import opened Checkpoints

  datatype AcceptedAction = AcceptedAction(actionId: Identity, index: int, name: string, input: Raw,
    result: Option<ActionResult>)
  datatype AcceptedProposal = AcceptedProposal(no: int, actions: seq<AcceptedAction>)
  datatype AcceptedSteering = AcceptedSteering(no: int, messageId: string, content: string)

  datatype Prefix = Prefix(
    proposals: seq<AcceptedProposal>, steering: seq<AcceptedSteering>, final: Option<string>,
    decisions: nat, actions: nat)

  const EMPTY := Prefix([], [], None, 0, 0)

  /** A proposal as it stands when it is accepted, before any result. */
  function Unanswered(no: int, actions: seq<Proposed>): (r: AcceptedProposal)
    ensures r.no == no && |r.actions| == |actions|
    ensures forall i | 0 <= i < |actions| ::
      r.actions[i] == AcceptedAction(OfAction(no, i), i, actions[i].name, actions[i].input, None)
  {
    AcceptedProposal(no, seq(|actions|, i requires 0 <= i < |actions| =>
      AcceptedAction(OfAction(no, i), i, actions[i].name, actions[i].input, None)))
  }

  predicate Complete(proposal: AcceptedProposal) {
    forall i | 0 <= i < |proposal.actions| :: proposal.actions[i].result.Some?
  }

  method FirstMissingResult(proposal: AcceptedProposal) returns (index: int)
    ensures index == -1 <==> Complete(proposal)
    ensures index != -1 ==> 0 <= index < |proposal.actions| && proposal.actions[index].result.None?
    ensures forall i | 0 <= i < index :: proposal.actions[i].result.Some?
  {
    for i := 0 to |proposal.actions|
      invariant forall j | 0 <= j < i :: proposal.actions[j].result.Some?
    {
      if proposal.actions[i].result.None? {
        return i;
      }
    }
    return -1;
  }

  predicate HasIncompleteProposal(p: Prefix) {
    |p.proposals| > 0 && !Complete(p.proposals[|p.proposals| - 1])
  }

  function Last(p: Prefix): AcceptedProposal
    requires |p.proposals| > 0
  {
    p.proposals[|p.proposals| - 1]
  }

  function WithResult(p: Prefix, index: nat, result: ActionResult): Prefix
    requires |p.proposals| > 0 && index < |Last(p).actions|
  {
    var last := Last(p);
    var answered := last.(actions := last.actions[index := last.actions[index].(result := Some(result))]);
    p.(proposals := p.proposals[|p.proposals| - 1 := answered])
  }

  predicate Delivered(p: Prefix, messageId: string) {
    exists i | 0 <= i < |p.steering| :: p.steering[i].messageId == messageId
  }

  /** One more outcome after those already decoded, if it may follow them. */
  function Accept(p: Prefix, row: Row): Option<Prefix> {
    if p.final.Some? || !WellFormed(row) then None
    else match row
      case ProposalRow(no, actions) =>
        if HasIncompleteProposal(p) || no != p.decisions + 1 then None
        else Some(p.(proposals := p.proposals + [Unanswered(no, actions)], decisions := p.decisions + 1,
                     actions := p.actions + |actions|))
      case ResultRow(no, index, result) =>
        if |p.proposals| == 0 || no != Last(p).no || index >= |Last(p).actions| ||
          Last(p).actions[index].result.Some? then None
        else Some(WithResult(p, index, result))
      case FinalRow(no, text) =>
        if HasIncompleteProposal(p) || no != p.decisions + 1 then None
        else Some(p.(final := Some(text), decisions := p.decisions + 1))
      case SteeringRow(no, messageId, content) =>
        if HasIncompleteProposal(p) || no != p.decisions + 1 || Delivered(p, messageId) then None
        else Some(p.(steering := p.steering + [AcceptedSteering(no, messageId, content)]))
  }

  function LoadFrom(p: Prefix, rows: seq<Row>): Option<Prefix>
    decreases |rows|
  {
    if rows == [] then Some(p)
    else
      var q := Accept(p, rows[0]);
      if q.None? then None else LoadFrom(q.value, rows[1..])
  }

  function Load(rows: seq<Row>): Option<Prefix> {
    LoadFrom(EMPTY, rows)
  }

  lemma {:induction false} LoadFromConcat(p: Prefix, a: seq<Row>, b: seq<Row>)
    ensures LoadFrom(p, a + b) == (if LoadFrom(p, a).None? then None else LoadFrom(LoadFrom(p, a).value, b))
    decreases |a|
  {
    if a == [] {
      assert a + b == b;
    } else {
      assert (a + b)[1..] == a[1..] + b;
      if Accept(p, a[0]).Some? {
        LoadFromConcat(Accept(p, a[0]).value, a[1..], b);
      }
    }
  }

  lemma LoadOneMore(rows: seq<Row>, row: Row)
    ensures Load(rows + [row]) == (if Load(rows).None? then None else Accept(Load(rows).value, row))
  {
    LoadFromConcat(EMPTY, rows, [row]);
    if Load(rows).Some? {
      var q := Accept(Load(rows).value, row);
      assert [row][1..] == [];
    }
  }

  lemma AcceptedLogsArePrefixClosed(rows: seq<Row>, k: nat)
    requires k <= |rows| && Load(rows).Some?
    ensures Load(rows[..k]).Some?
  {
    LoadFromConcat(EMPTY, rows[..k], rows[k..]);
    assert rows[..k] + rows[k..] == rows;
  }

  // ----- The stored log -----

  predicate Readable(cs: seq<Checkpoint>) {
    forall i | 0 <= i < |cs| :: cs[i].sequenceNo == i + 1 && Decode(cs[i].pending).Some?
  }

  function Outcomes(cs: seq<Checkpoint>): (rows: seq<Row>)
    requires Readable(cs)
    ensures |rows| == |cs|
    ensures forall i | 0 <= i < |cs| :: rows[i] == Decode(cs[i].pending).value
  {
    seq(|cs|, i requires 0 <= i < |cs| => Decode(cs[i].pending).value)
  }

  function LoadStored(cs: seq<Checkpoint>): Option<Prefix> {
    if Readable(cs) then Load(Outcomes(cs)) else None
  }

  lemma LoadStoredStep(cs: seq<Checkpoint>, k: nat)
    requires k < |cs| && LoadStored(cs[..k]).Some?
    ensures var row := Decode(cs[k].pending);
      LoadStored(cs[..k + 1]) ==
      (if cs[k].sequenceNo == k + 1 && row.Some? then Accept(LoadStored(cs[..k]).value, row.value) else None)
  {
    assert cs[..k + 1] == cs[..k] + [cs[k]];
    assert cs[..k + 1][k] == cs[k];
    assert Readable(cs[..k]);
    assert forall i | 0 <= i < k :: cs[..k][i] == cs[..k + 1][i];
    if Readable(cs[..k + 1]) {
      assert Outcomes(cs[..k + 1]) == Outcomes(cs[..k]) + [Decode(cs[k].pending).value];
      LoadOneMore(Outcomes(cs[..k]), Decode(cs[k].pending).value);
    }
  }

  lemma LoadStoredPrefix(cs: seq<Checkpoint>, k: nat)
    requires k <= |cs| && LoadStored(cs).Some?
    ensures LoadStored(cs[..k]).Some?
  {
    AcceptedLogsArePrefixClosed(Outcomes(cs), k);
    assert forall i | 0 <= i < k :: cs[..k][i] == cs[i];
    assert Readable(cs[..k]);
    assert Outcomes(cs[..k]) == Outcomes(cs)[..k];
  }

  method OrdinalsAreInOrder(no: int, actions: seq<PayloadAction>) returns (ok: bool)
    ensures ok <==> OrdinalsMatch(no, actions)
  {
    for index := 0 to |actions|
      invariant forall i | 0 <= i < index :: actions[i].index == i && actions[i].actionId == OfAction(no, i)
    {
      if actions[index].index != index || actions[index].actionId != OfAction(no, index) {
        return false;
      }
    }
    return true;
  }

  method SteeringDelivered(p: Prefix, messageId: string) returns (found: bool)
    ensures found <==> Delivered(p, messageId)
  {
    for i := 0 to |p.steering|
      invariant forall j | 0 <= j < i :: p.steering[j].messageId != messageId
    {
      if p.steering[i].messageId == messageId {
        return true;
      }
    }
    return false;
  }

  /** One checkpoint against the state reached so far. The next decision number
      and whether a Final was seen are kept beside the prefix. */
  method AcceptCheckpoint(c: Pending, prefix: Prefix, nextDecision: int, finalAccepted: bool)
    returns (r: Option<Prefix>)
    requires nextDecision == prefix.decisions + 1 && finalAccepted == prefix.final.Some?
    ensures r == (if Decode(c).None? then None else Accept(prefix, Decode(c).value))
  {
    if finalAccepted {
      return None;
    }
    var missing := -1;
    if |prefix.proposals| > 0 {
      missing := FirstMissingResult(Last(prefix));
    }
    assert missing >= 0 <==> HasIncompleteProposal(prefix);
    match c.kind {
      case ProposalKind =>
        if missing >= 0 || c.decisionNo != nextDecision {
          return None;
        }
        if !c.payload.ProposalPayload? || |c.payload.actions| == 0 {
          return None;
        }
        var ordered := OrdinalsAreInOrder(c.decisionNo, c.payload.actions);
        if !ordered {
          return None;
        }
        var batch := Batch(c.payload.actions);
        var expected := NewProposalCheckpoint(c.decisionNo, batch);
        if expected.None? || !CheckpointMatches(c, expected.value) {
          return None;
        }
        r := Some(prefix.(proposals := prefix.proposals + [Unanswered(c.decisionNo, batch)],
          decisions := prefix.decisions + 1, actions := prefix.actions + |batch|));
      case ResultKind =>
        if |prefix.proposals| == 0 {
          return None;
        }
        var proposal := Last(prefix);
        var index := if c.actionIndex.Some? then c.actionIndex.value else -1;
        if c.decisionNo != proposal.no || index < 0 || index >= |proposal.actions| ||
          proposal.actions[index].result.Some? {
          return None;
        }
        if !c.payload.ResultPayload? || c.payload.resultActionId != OfAction(proposal.no, index) ||
           !VersionMatches(c.version, c.payload.errorCode, c.payload.error) {
          return None;
        }
        var result := ActionResult(c.payload.status, c.payload.output, c.payload.errorCode, c.payload.error);
        var expected := NewActionResultCheckpoint(proposal.no, index, OfAction(proposal.no, index), result);
        if expected.None? || !CheckpointMatches(c, expected.value) {
          return None;
        }
        r := Some(WithResult(prefix, index, result));
      case FinalKind =>
        if missing >= 0 || c.decisionNo != nextDecision {
          return None;
        }
        if !c.payload.FinalPayload? {
          return None;
        }
        var expected := NewFinalDraftCheckpoint(c.decisionNo, c.payload.text);
        if expected.None? || !CheckpointMatches(c, expected.value) {
          return None;
        }
        r := Some(prefix.(final := Some(c.payload.text), decisions := prefix.decisions + 1));
      case SteeringKind =>
        if missing >= 0 || c.decisionNo != nextDecision {
          return None;
        }
        if !c.payload.SteeringPayload? {
          return None;
        }
        var expected := NewSteeringCheckpoint(c.decisionNo, c.payload.messageId, c.payload.content);
        if expected.None? || !CheckpointMatches(c, expected.value) {
          return None;
        }
        var delivered := SteeringDelivered(prefix, c.payload.messageId);
        if delivered {
          return None;
        }
        r := Some(prefix.(steering := prefix.steering +
          [AcceptedSteering(c.decisionNo, c.payload.messageId, c.payload.content)]));
      case UnknownKind =>
        return None;
    }
  }

  /** Validates and decodes a stored log, row by row. */
  method LoadCheckpointPrefix(cs: seq<Checkpoint>) returns (r: Option<Prefix>)
    ensures r == LoadStored(cs)
  {
    var prefix := EMPTY;
    var nextDecision := 1;
    var finalAccepted := false;
    assert cs[..0] == [];
    assert Outcomes([]) == [];
    for position := 0 to |cs|
      invariant LoadStored(cs[..position]) == Some(prefix)
      invariant nextDecision == prefix.decisions + 1 && finalAccepted == prefix.final.Some?
    {
      LoadStoredStep(cs, position);
      if LoadStored(cs).Some? {
        LoadStoredPrefix(cs, position + 1);
      }
      if cs[position].sequenceNo != position + 1 {
        return None;
      }
      var next := AcceptCheckpoint(cs[position].pending, prefix, nextDecision, finalAccepted);
      if next.None? {
        return None;
      }
      prefix := next.value;
      nextDecision := prefix.decisions + 1;
      finalAccepted := prefix.final.Some?;
    }
    assert cs[..|cs|] == cs;
    r := Some(prefix);
  }

  // ----- What an accepted log looks like -----

  ghost predicate ProposalShape(proposal: AcceptedProposal, no: int) {
    && proposal.no == no && |proposal.actions| > 0
    && (forall i | 0 <= i < |proposal.actions| ::
          var action := proposal.actions[i];
          action.index == i && action.actionId == OfAction(no, i) && IsActionName(action.name) &&
          IsObject(action.input) &&
          (action.result.Some? ==> action.result.value.Valid()))
  }

  /** Steering messages in decision order, none delivered twice, none for a
      decision past `upTo`. */
  ghost predicate SteeringShape(steering: seq<AcceptedSteering>, upTo: int) {
    && (forall i | 0 <= i < |steering| :: 1 <= steering[i].no <= upTo)
    && (forall i, j | 0 <= i < j < |steering| ::
          steering[i].no <= steering[j].no && steering[i].messageId != steering[j].messageId)
  }

  /** Structure of every decoded prefix. */
  ghost predicate Shape(p: Prefix) {
    && p.decisions == |p.proposals| + (if p.final.Some? then 1 else 0)
    && (forall k | 0 <= k < |p.proposals| :: ProposalShape(p.proposals[k], k + 1))
    && (forall k | 0 <= k < |p.proposals| - 1 :: Complete(p.proposals[k]))
    && (p.final.Some? ==> !HasIncompleteProposal(p))
    && SteeringShape(p.steering, if HasIncompleteProposal(p) then |p.proposals| else |p.proposals| + 1)
  }

  lemma AcceptProposalKeepsShape(p: Prefix, row: Row)
    requires Shape(p) && Accept(p, row).Some? && row.ProposalRow?
    ensures Shape(Accept(p, row).value)
  {
    var q := Accept(p, row).value;
    assert ProposalShape(Last(q), |q.proposals|);
    assert Last(q).actions[0].result.None?;
  }

  lemma AcceptResultKeepsShape(p: Prefix, row: Row)
    requires Shape(p) && Accept(p, row).Some? && row.ResultRow?
    ensures Shape(Accept(p, row).value)
  {
    var q := Accept(p, row).value;
    assert ProposalShape(Last(p), |p.proposals|);
    assert ProposalShape(Last(q), |q.proposals|);
  }

  lemma AcceptKeepsShape(p: Prefix, row: Row)
    requires Shape(p) && Accept(p, row).Some?
    ensures Shape(Accept(p, row).value)
  {
    match row
    case ProposalRow(_, _) => AcceptProposalKeepsShape(p, row);
    case ResultRow(_, _, _) => AcceptResultKeepsShape(p, row);
    case FinalRow(_, _) =>
    case SteeringRow(_, _, _) =>
  }

  lemma {:induction false} LoadHasShape(rows: seq<Row>)
    requires Load(rows).Some?
    ensures Shape(Load(rows).value)
    decreases |rows|
  {
    if rows != [] {
      var front, last := rows[..|rows| - 1], rows[|rows| - 1];
      assert rows == front + [last];
      LoadOneMore(front, last);
      LoadHasShape(front);
      AcceptKeepsShape(Load(front).value, last);
    }
  }

  /** The prefix records this outcome. */
  ghost predicate Records(p: Prefix, row: Row) {
    match row
    case ProposalRow(no, actions) =>
      1 <= no <= |p.proposals| && |p.proposals[no - 1].actions| == |actions| &&
      forall i | 0 <= i < |actions| ::
        p.proposals[no - 1].actions[i].name == actions[i].name &&
        p.proposals[no - 1].actions[i].input == actions[i].input
    case ResultRow(no, index, result) =>
      1 <= no <= |p.proposals| && 0 <= index < |p.proposals[no - 1].actions| &&
      p.proposals[no - 1].actions[index].result == Some(result)
    case FinalRow(no, text) => p.final == Some(text) && no == p.decisions
    case SteeringRow(no, messageId, content) => AcceptedSteering(no, messageId, content) in p.steering
  }

  lemma AcceptRecordsIt(p: Prefix, row: Row)
    requires Shape(p) && Accept(p, row).Some?
    ensures Records(Accept(p, row).value, row) && !Records(p, row)
  {
    if row.SteeringRow? {
      var q := Accept(p, row).value;
      assert q.steering[|p.steering|] in q.steering;
    }
  }

  lemma AcceptKeepsRecords(p: Prefix, row: Row, other: Row)
    requires Shape(p) && Accept(p, row).Some? && Records(p, other)
    ensures Records(Accept(p, row).value, other)
  {
    var q := Accept(p, row).value;
    match other
    case ProposalRow(no, _) =>
    case ResultRow(no, index, _) =>
    case FinalRow(_, _) =>
    case SteeringRow(no, messageId, content) =>
      var i :| 0 <= i < |p.steering| && p.steering[i] == AcceptedSteering(no, messageId, content);
      assert q.steering[i] == p.steering[i];
  }

  lemma AcceptAddsOneProposal(p: Prefix, row: Row, no: int, actions: seq<Proposed>)
    requires Shape(p) && Accept(p, row).Some? && Records(Accept(p, row).value, ProposalRow(no, actions))
    ensures ProposalRow(no, actions) == row || Records(p, ProposalRow(no, actions))
  {
    if row.ProposalRow? && no == |p.proposals| + 1 {
      assert actions == row.actions;
    }
  }

  lemma AcceptAddsOneRecord(p: Prefix, row: Row, other: Row)
    requires Shape(p) && Accept(p, row).Some? && Records(Accept(p, row).value, other)
    ensures other == row || Records(p, other)
  {
    if other.ProposalRow? {
      AcceptAddsOneProposal(p, row, other.no, other.actions);
    }
  }

  /** The prefix records exactly the outcomes in the log. */
  lemma {:induction false} LoadRecordsTheLog(rows: seq<Row>, row: Row)
    requires Load(rows).Some?
    ensures Records(Load(rows).value, row) <==> row in rows
    decreases |rows|
  {
    if rows != [] {
      var front, last := rows[..|rows| - 1], rows[|rows| - 1];
      assert rows == front + [last];
      LoadOneMore(front, last);
      LoadHasShape(front);
      LoadRecordsTheLog(front, row);
      AcceptRecordsIt(Load(front).value, last);
      if row in front {
        AcceptKeepsRecords(Load(front).value, last, row);
      }
      if Records(Load(rows).value, row) {
        AcceptAddsOneRecord(Load(front).value, last, row);
      }
    }
  }

  lemma AcceptedKeyIsNew(p: Prefix, row: Row, other: Row)
    requires Shape(p) && Accept(p, row).Some? && Records(p, other)
    ensures Key(other) != Key(row)
  {
  }

  /** No two rows of an accepted log share an identity key, and neither do the
      key texts that are stored. */
  lemma {:induction false} IdentityKeysAreDistinct(rows: seq<Row>, i: nat, j: nat)
    requires Load(rows).Some? && i < j < |rows|
    ensures WellFormed(rows[i]) && WellFormed(rows[j])
    ensures Key(rows[i]) != Key(rows[j])
    ensures Genuine(Key(rows[i])) && Genuine(Key(rows[j])) && Render(Key(rows[i])) != Render(Key(rows[j]))
  {
    var before := rows[..j];
    assert rows[..j + 1] == before + [rows[j]];
    AcceptedLogsArePrefixClosed(rows, j + 1);
    LoadOneMore(before, rows[j]);
    LoadHasShape(before);
    assert before[i] == rows[i];
    LoadRecordsTheLog(before, rows[i]);
    AcceptedKeyIsNew(Load(before).value, rows[j], rows[i]);
    AcceptedRowsAreWellFormed(rows, i);
    StoredKeysNameOutcomes(rows[i], rows[j]);
  }

  lemma AcceptedRowsAreWellFormed(rows: seq<Row>, i: nat)
    requires Load(rows).Some? && i < |rows|
    ensures WellFormed(rows[i])
  {
    assert rows[..i + 1] == rows[..i] + [rows[i]];
    AcceptedLogsArePrefixClosed(rows, i + 1);
    LoadOneMore(rows[..i], rows[i]);
  }
}

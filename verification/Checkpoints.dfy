/** Checkpoints: what is stored for each accepted outcome of a Run, the
    constructors that build them, and what the database gives back. */
module Checkpoints {
  import opened Basics
  import opened Json
  import opened Identities

  // ----- Text checks -----

  predicate IsSpace(c: char) {
    '\U{0009}' <= c <= '\U{000D}' || c == ' ' || c == '\U{0085}' || c == '\U{00A0}' || c == '\U{1680}' ||
    '\U{2000}' <= c <= '\U{200A}' || c == '\U{2028}' || c == '\U{2029}' || c == '\U{202F}' || c == '\U{205F}' ||
    c == '\U{3000}'
  }

  predicate IsBlank(s: string) {
    forall i | 0 <= i < |s| :: IsSpace(s[i])
  }

  function Utf8Width(c: char): nat {
    if c < '\U{0080}' then 1 else if c < '\U{0800}' then 2 else if c < '\U{10000}' then 3 else 4
  }

  function ByteLength(s: string): nat {
    if s == "" then 0 else ByteLength(s[..|s| - 1]) + Utf8Width(s[|s| - 1])
  }

  predicate IsActionName(name: string) {
    1 <= |name| <= 128 && 'a' <= name[0] <= 'z' &&
    forall i | 0 <= i < |name| ::
      'a' <= name[i] <= 'z' || IsDigit(name[i]) || name[i] == '.' || name[i] == '_' || name[i] == '-'
  }

  predicate IsActionCode(code: string) {
    1 <= |code| <= 64 && 'a' <= code[0] <= 'z' &&
    forall i | 0 <= i < |code| :: 'a' <= code[i] <= 'z' || IsDigit(code[i]) || code[i] == '_'
  }

  // ----- Outcomes -----

  datatype ActionStatus = Succeeded | DomainError | OtherStatus(text: string)

  datatype ActionError = ActionError(kind: string, code: string, message: string, suggestion: string, retryable: bool) {
    predicate Valid() {
      IsActionCode(kind) && IsActionCode(code) && !IsBlank(message) && |message| <= 512 && |suggestion| <= 512
    }
  }

  datatype ActionResult = ActionResult(status: ActionStatus, output: Raw, errorCode: string,
    error: Option<ActionError>) {
    predicate Valid() {
      match status
      case Succeeded => errorCode == "" && error.None? && IsObject(output)
      case DomainError =>
        output.NoBytes? &&
        ((error.None? && IsActionCode(errorCode)) || (errorCode == "" && error.Some? && error.value.Valid()))
      case OtherStatus(_) => false
    }
  }

  /** The result recorded for an Action whose completion is unknown. The error
      catalogue's wording is shortened. */
  const INTERRUPTED := ActionResult(DomainError, NoBytes, "",
    Some(ActionError("domain", "action_interrupted", "interrupted", "", true)))

  datatype Proposed = Proposed(name: string, input: Raw)

  /** An accepted outcome, as the rest of the model sees it. */
  datatype Row =
    | ProposalRow(no: int, actions: seq<Proposed>)
    | ResultRow(no: int, index: int, result: ActionResult)
    | FinalRow(no: int, text: string)
    | SteeringRow(no: int, messageId: string, content: string)

  const MAX_FINAL_BYTES := 512 * 1024
  const MAX_STEERING_BYTES := 65536

  /** The outcome can be made into a checkpoint. */
  predicate WellFormed(row: Row) {
    match row
    case ProposalRow(no, actions) =>
      no >= 1 && |actions| > 0 && forall i | 0 <= i < |actions| ::
        IsActionName(actions[i].name) && IsObject(actions[i].input)
    case ResultRow(no, index, result) => no >= 1 && index >= 0 && result.Valid()
    case FinalRow(no, text) => no >= 1 && ByteLength(text) <= MAX_FINAL_BYTES && !IsBlank(text)
    case SteeringRow(no, messageId, content) =>
      no >= 1 && IsMessageId(messageId) && !IsBlank(content) && ByteLength(content) <= MAX_STEERING_BYTES
  }

  /** What identifies the outcome within its Run. */
  function Key(row: Row): Identity {
    match row
    case ProposalRow(no, _) => OfDecision(no)
    case ResultRow(no, index, _) => OfAction(no, index)
    case FinalRow(no, _) => OfFinal(no)
    case SteeringRow(no, messageId, _) => OfSteering(no, messageId)
  }

  // ----- Stored form -----

  datatype Kind = ProposalKind | ResultKind | FinalKind | SteeringKind | UnknownKind

  datatype PayloadAction = PayloadAction(actionId: Identity, index: int, name: string, input: Raw)

  datatype Payload =
    | ProposalPayload(actions: seq<PayloadAction>)
    | ResultPayload(resultActionId: Identity, status: ActionStatus, output: Raw, errorCode: string,
      error: Option<ActionError>)
    | FinalPayload(text: string)
    | SteeringPayload(messageId: string, content: string)
    | OtherPayload

  /** SHA-256 as a function that never maps two payloads to one digest. */
  datatype Digest = Sha256(of: Payload)

  datatype Pending = Pending(
    identity: Identity, kind: Kind, decisionNo: int, actionIndex: Option<int>, actionId: Identity,
    version: int, payload: Payload, digest: Digest)

  datatype Checkpoint = Checkpoint(sequenceNo: int, pending: Pending)

  function PayloadActions(no: int, actions: seq<Proposed>): (r: seq<PayloadAction>)
    ensures |r| == |actions|
    ensures forall i | 0 <= i < |r| :: r[i] == PayloadAction(OfAction(no, i), i, actions[i].name, actions[i].input)
  {
    seq(|actions|, i requires 0 <= i < |actions| =>
      PayloadAction(OfAction(no, i), i, actions[i].name, actions[i].input))
  }

  function Sealed(
    identity: Identity, kind: Kind, no: int, index: Option<int>, actionId: Identity, version: int,
    payload: Payload): Pending {
    Pending(identity, kind, no, index, actionId, version, payload, Sha256(payload))
  }

  function NewActionResultCheckpoint(no: int, index: int, actionId: Identity, result: ActionResult): Option<Pending> {
    if no < 1 || index < 0 || actionId != OfAction(no, index) || !result.Valid() then None
    else
      var output := if result.status.Succeeded? then result.output else NoBytes;
      var version := if result.error.Some? then 2 else 1;
      Some(Sealed(actionId, ResultKind, no, Some(index), actionId, version,
        ResultPayload(actionId, result.status, output, result.errorCode, result.error)))
  }

  function NewFinalDraftCheckpoint(no: int, text: string): Option<Pending> {
    if no < 1 || ByteLength(text) > MAX_FINAL_BYTES || IsBlank(text) then None
    else Some(Sealed(OfFinal(no), FinalKind, no, None, Blank, 1, FinalPayload(text)))
  }

  function NewSteeringCheckpoint(no: int, messageId: string, content: string): Option<Pending> {
    if no < 1 || !IsMessageId(messageId) || IsBlank(content) || ByteLength(content) > MAX_STEERING_BYTES then None
    else Some(Sealed(OfSteering(no, messageId), SteeringKind, no, None, Blank, 1, SteeringPayload(messageId, content)))
  }

  function ProposalCheckpoint(no: int, actions: seq<Proposed>): Option<Pending> {
    if !WellFormed(ProposalRow(no, actions)) then None
    else Some(Sealed(OfDecision(no), ProposalKind, no, None, Blank, 1, ProposalPayload(PayloadActions(no, actions))))
  }

  /** The proposal constructor, building its payload action by action. */
  method NewProposalCheckpoint(no: int, actions: seq<Proposed>) returns (r: Option<Pending>)
    ensures r == ProposalCheckpoint(no, actions)
    ensures r.Some? <==> WellFormed(ProposalRow(no, actions))
  {
    if no < 1 || |actions| == 0 {
      return None;
    }
    var payload: seq<PayloadAction> := [];
    for index := 0 to |actions|
      invariant payload == PayloadActions(no, actions)[..index]
      invariant forall i | 0 <= i < index :: IsActionName(actions[i].name) && IsObject(actions[i].input)
    {
      if !IsActionName(actions[index].name) {
        return None;
      }
      if !IsObject(actions[index].input) {
        return None;
      }
      payload := payload + [PayloadAction(OfAction(no, index), index, actions[index].name, actions[index].input)];
    }
    assert payload == PayloadActions(no, actions);
    r := Some(Sealed(OfDecision(no), ProposalKind, no, None, Blank, 1, ProposalPayload(payload)));
  }

  /** The checkpoint made for an outcome. */
  function Seal(row: Row): Option<Pending> {
    match row
    case ProposalRow(no, actions) => ProposalCheckpoint(no, actions)
    case ResultRow(no, index, result) => NewActionResultCheckpoint(no, index, OfAction(no, index), result)
    case FinalRow(no, text) => NewFinalDraftCheckpoint(no, text)
    case SteeringRow(no, messageId, content) => NewSteeringCheckpoint(no, messageId, content)
  }

  predicate CheckpointMatches(c: Pending, expected: Pending) {
    c.identity == expected.identity && c.kind == expected.kind && c.decisionNo == expected.decisionNo &&
    c.actionId == expected.actionId && c.version == expected.version && c.digest == expected.digest &&
    c.payload == expected.payload && c.actionIndex == expected.actionIndex
  }

  // ----- Reading a stored row -----

  predicate OrdinalsMatch(no: int, actions: seq<PayloadAction>) {
    forall i | 0 <= i < |actions| :: actions[i].index == i && actions[i].actionId == OfAction(no, i)
  }

  function Batch(actions: seq<PayloadAction>): (r: seq<Proposed>)
    ensures |r| == |actions|
    ensures forall i | 0 <= i < |r| :: r[i] == Proposed(actions[i].name, actions[i].input)
  {
    seq(|actions|, i requires 0 <= i < |actions| => Proposed(actions[i].name, actions[i].input))
  }

  /** Payload versions and the two error forms go together. */
  predicate VersionMatches(version: int, errorCode: string, error: Option<ActionError>) {
    (version == 1 && error.None?) || (version == 2 && error.Some? && errorCode == "")
  }

  /** The outcome a stored row claims to be, before it is compared with what the
      constructor would have stored. */
  function Claimed(c: Pending): Option<Row> {
    match c.kind
    case ProposalKind =>
      if c.payload.ProposalPayload? && |c.payload.actions| > 0 && OrdinalsMatch(c.decisionNo, c.payload.actions)
      then Some(ProposalRow(c.decisionNo, Batch(c.payload.actions))) else None
    case ResultKind =>
      if c.actionIndex.Some? && c.payload.ResultPayload? &&
        c.payload.resultActionId == OfAction(c.decisionNo, c.actionIndex.value) &&
         VersionMatches(c.version, c.payload.errorCode, c.payload.error)
      then Some(ResultRow(c.decisionNo, c.actionIndex.value,
        ActionResult(c.payload.status, c.payload.output, c.payload.errorCode, c.payload.error)))
      else None
    case FinalKind =>
      if c.payload.FinalPayload? then Some(FinalRow(c.decisionNo, c.payload.text)) else None
    case SteeringKind =>
      if c.payload.SteeringPayload? then Some(SteeringRow(c.decisionNo, c.payload.messageId, c.payload.content))
      else None
    case UnknownKind => None
  }

  /** The outcome of a row that passes every check made on one row alone. */
  function Decode(c: Pending): Option<Row> {
    var row := Claimed(c);
    if row.None? then None
    else
      var expected := Seal(row.value);
      if expected.None? || !CheckpointMatches(c, expected.value) then None else row
  }

  lemma SealsExactlyWellFormed(row: Row)
    ensures Seal(row).Some? <==> WellFormed(row)
  {
  }

  lemma ClaimOfSealed(row: Row)
    requires WellFormed(row)
    ensures Seal(row).Some? && Claimed(Seal(row).value) == Some(row)
  {
    if row.ProposalRow? {
      assert Batch(PayloadActions(row.no, row.actions)) == row.actions;
    }
  }

  /** Reading undoes writing, and only what the constructors write is read. */
  lemma DecodeExactlySealed(c: Pending, row: Row)
    ensures Decode(c) == Some(row) <==> Seal(row) == Some(c)
  {
    if Seal(row) == Some(c) {
      ClaimOfSealed(row);
    }
  }

  /** A genuine key comes with every well-formed outcome, so equal stored keys
      name the same thing. */
  lemma KeysAreGenuine(row: Row)
    requires WellFormed(row)
    ensures Genuine(Key(row)) && Seal(row).value.identity == Key(row)
  {
  }

  /** The stored key text names the outcome: two rows share it only when they
      are the same decision, action, final or steering message. */
  lemma StoredKeysNameOutcomes(a: Row, b: Row)
    requires WellFormed(a) && WellFormed(b)
    ensures Genuine(Key(a)) && Genuine(Key(b))
    ensures Render(Key(a)) == Render(Key(b)) <==> Key(a) == Key(b)
  {
    KeysAreGenuine(a);
    KeysAreGenuine(b);
    if Render(Key(a)) == Render(Key(b)) {
      RenderInjective(Key(a), Key(b));
    }
  }

  // ----- Through the database column -----

  function RawThroughJsonb(shown: string -> string, raw: Raw): Raw {
    if raw.Doc? then Doc(ThroughJsonb(shown, raw.value)) else raw
  }

  function PayloadThroughJsonb(shown: string -> string, p: Payload): Payload {
    match p
    case ProposalPayload(actions) =>
      ProposalPayload(seq(|actions|, i requires 0 <= i < |actions| =>
        actions[i].(input := RawThroughJsonb(shown, actions[i].input))))
    case ResultPayload(_, _, _, _, _) => p.(output := RawThroughJsonb(shown, p.output))
    case FinalPayload(_) => p
    case SteeringPayload(_, _) => p
    case OtherPayload => p
  }

  /** What a later query returns for a row stored as `c`: the payload has been
      through the column and is rebuilt by the constructor; every other column,
      the digest among them, is as written. */
  function Scan(shown: string -> string, c: Pending): Option<Pending> {
    var stored := c.(payload := PayloadThroughJsonb(shown, c.payload));
    var row := Claimed(stored);
    if row.None? || (row.value.ResultRow? && row.value.index >= 0 &&
      stored.actionId != OfAction(row.value.no, row.value.index)) then None
    else
      var expected := Seal(row.value);
      if expected.None? then None else Some(stored.(payload := expected.value.payload))
  }

  predicate RawAsShown(shown: string -> string, raw: Raw) {
    raw.Doc? ==> NumbersAsShown(shown, raw.value)
  }

  /** Every number in the outcome is written the way the server writes it. */
  predicate RowAsShown(shown: string -> string, row: Row) {
    match row
    case ProposalRow(_, actions) => forall i | 0 <= i < |actions| :: RawAsShown(shown, actions[i].input)
    case ResultRow(_, _, result) => RawAsShown(shown, result.output)
    case FinalRow(_, _) => true
    case SteeringRow(_, _, _) => true
  }

  function RowThroughJsonb(shown: string -> string, row: Row): Row {
    match row
    case ProposalRow(no, actions) =>
      ProposalRow(no, seq(|actions|, i requires 0 <= i < |actions| =>
        actions[i].(input := RawThroughJsonb(shown, actions[i].input))))
    case ResultRow(_, _, result) => row.(result := result.(output := RawThroughJsonb(shown, result.output)))
    case FinalRow(_, _) => row
    case SteeringRow(_, _, _) => row
  }

  lemma RawKeptExactly(shown: string -> string, raw: Raw)
    ensures RawThroughJsonb(shown, raw) == raw <==> RawAsShown(shown, raw)
    ensures IsObject(raw) ==> IsObject(RawThroughJsonb(shown, raw))
  {
    if raw.Doc? {
      JsonbKeepsExactly(shown, raw.value);
    }
  }

  lemma RowKeptExactly(shown: string -> string, row: Row)
    requires WellFormed(row)
    ensures WellFormed(RowThroughJsonb(shown, row))
    ensures RowThroughJsonb(shown, row) == row <==> RowAsShown(shown, row)
  {
    match row
    case ProposalRow(no, actions) =>
      forall i | 0 <= i < |actions| { RawKeptExactly(shown, actions[i].input); }
      var back := RowThroughJsonb(shown, row).actions;
      if RowAsShown(shown, row) {
        assert back == actions;
      } else {
        var i :| 0 <= i < |actions| && !RawAsShown(shown, actions[i].input);
        assert back[i] != actions[i];
      }
    case ResultRow(_, _, result) =>
      RawKeptExactly(shown, result.output);
    case FinalRow(_, _) =>
    case SteeringRow(_, _, _) =>
  }

  lemma ScanRebuilds(shown: string -> string, row: Row)
    requires WellFormed(row)
    ensures var c := Seal(row).value;
      var back := RowThroughJsonb(shown, row);
      WellFormed(back) && Scan(shown, c) == Some(c.(payload := Seal(back).value.payload))
  {
    RowKeptExactly(shown, row);
    var c := Seal(row).value;
    var back := RowThroughJsonb(shown, row);
    var stored := c.(payload := PayloadThroughJsonb(shown, c.payload));
    match row
    case ProposalRow(no, actions) =>
      assert Batch(stored.payload.actions) == back.actions;
      assert Claimed(stored) == Some(back);
    case ResultRow(_, _, _) => assert Claimed(stored) == Some(back);
    case FinalRow(_, _) =>
    case SteeringRow(_, _, _) =>
  }

  lemma SealedPayloadNames(a: Row, b: Row)
    requires WellFormed(a) && WellFormed(b)
    requires Key(a) == Key(b) && Seal(a).value.payload == Seal(b).value.payload
    ensures a == b
  {
    if a.ProposalRow? {
      assert Batch(PayloadActions(a.no, a.actions)) == a.actions;
      assert Batch(PayloadActions(b.no, b.actions)) == b.actions;
    }
  }

  lemma DecodedDigestFits(c: Pending)
    ensures Decode(c).Some? ==> c.digest == Sha256(c.payload)
  {
    if Decode(c).Some? {
      DecodeExactlySealed(c, Decode(c).value);
    }
  }

  /** A stored outcome is read back as itself when the server writes every number
      in it unchanged; otherwise the digest no longer fits and the row is refused
      from then on. */
  lemma ReadBackExactlyWhenNumbersAsShown(shown: string -> string, row: Row)
    requires WellFormed(row)
    ensures var scanned := Scan(shown, Seal(row).value);
      scanned.Some? &&
      Decode(scanned.value) == (if RowAsShown(shown, row) then Some(row) else None)
  {
    RowKeptExactly(shown, row);
    ScanRebuilds(shown, row);
    var c := Seal(row).value;
    var back := RowThroughJsonb(shown, row);
    var scanned := Scan(shown, c).value;
    DecodedDigestFits(scanned);
    if RowAsShown(shown, row) {
      DecodeExactlySealed(c, row);
    } else if scanned.payload == c.payload {
      SealedPayloadNames(row, back);
      assert false;
    }
  }

  /** One number written with an exponent is enough. */
  lemma ExponentIsRefusedOnReload(shown: string -> string)
    requires shown("1e2") == "100"
    ensures var row := ProposalRow(1, [Proposed("calculate", Doc(Obj(map["x" := Num("1e2")])))]);
      WellFormed(row) && Seal(row).Some? && Decode(Seal(row).value) == Some(row) &&
      Scan(shown, Seal(row).value).Some? && Decode(Scan(shown, Seal(row).value).value) == None
  {
    var row := ProposalRow(1, [Proposed("calculate", Doc(Obj(map["x" := Num("1e2")])))]);
    var fields := map["x" := Num("1e2")];
    assert "x" in fields && !NumbersAsShown(shown, fields["x"]);
    assert !RawAsShown(shown, row.actions[0].input);
    assert IsActionName("calculate");
    DecodeExactlySealed(Seal(row).value, row);
    ReadBackExactlyWhenNumbersAsShown(shown, row);
  }
}

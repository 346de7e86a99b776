/** The controller's decisions between two durable writes: budgets, validation of
    what the model proposes, retries of the model call, and which results of a
    batch are committed. */
module Controller {
  import opened Basics
  import opened Json
  import opened Identities
  import opened Checkpoints
  import opened CheckpointPrefixes
  import opened PendingActions

  datatype Limits = Limits(
    actionLimit: int, actionDecisionLimit: int, finalDecisionLimit: int, actionBatchLimit: int,
    actionResultBytes: int, actionResultsBytes: int)

  // ----- Budgets -----

  predicate IsPlanMutationName(name: string) {
    name == "rewrite_todo_list" || name == "update_todo_status"
  }

  function BusinessOf(actions: seq<Proposed>): nat {
    if actions == [] then 0
    else BusinessOf(actions[..|actions| - 1]) + (if IsPlanMutationName(actions[|actions| - 1].name) then 0 else 1)
  }

  /** The proposal as it was made, without its results. */
  function AsProposed(proposal: AcceptedProposal): (r: seq<Proposed>)
    ensures |r| == |proposal.actions|
    ensures forall i | 0 <= i < |r| :: r[i] == Proposed(proposal.actions[i].name, proposal.actions[i].input)
  {
    seq(|proposal.actions|, i requires 0 <= i < |proposal.actions| =>
      Proposed(proposal.actions[i].name, proposal.actions[i].input))
  }

  function BusinessActions(proposals: seq<AcceptedProposal>): nat {
    if proposals == [] then 0
    else BusinessActions(proposals[..|proposals| - 1]) + BusinessOf(AsProposed(proposals[|proposals| - 1]))
  }

  function BusinessDecisions(proposals: seq<AcceptedProposal>): nat {
    if proposals == [] then 0
    else
      BusinessDecisions(proposals[..|proposals| - 1]) +
      (if BusinessOf(AsProposed(proposals[|proposals| - 1])) > 0 then 1 else 0)
  }

  /** What is charged to the budgets, as numbers of actions and of decisions. */
  lemma {:induction false} BusinessCounts(actions: seq<Proposed>)
    ensures BusinessOf(actions) ==
      |set i | 0 <= i < |actions| && actions[i].name !in ["rewrite_todo_list", "update_todo_status"]|
    decreases |actions|
  {
    if actions != [] {
      var n := |actions| - 1;
      BusinessCounts(actions[..n]);
      var before := set i | 0 <= i < n && actions[..n][i].name !in ["rewrite_todo_list", "update_todo_status"];
      var all := set i | 0 <= i < |actions| && actions[i].name !in ["rewrite_todo_list", "update_todo_status"];
      assert all == if IsPlanMutationName(actions[n].name) then before else before + {n};
    }
  }

  predicate HasBusiness(proposal: AcceptedProposal) {
    exists i :: 0 <= i < |proposal.actions| && !IsPlanMutationName(proposal.actions[i].name)
  }

  lemma {:induction false} BusinessDecisionsCount(proposals: seq<AcceptedProposal>)
    ensures BusinessDecisions(proposals) == |set k | 0 <= k < |proposals| && HasBusiness(proposals[k])|
    decreases |proposals|
  {
    hide HasBusiness;
    if proposals != [] {
      var n := |proposals| - 1;
      BusinessDecisionsCount(proposals[..n]);
      BusinessMeans(proposals[n]);
      var before := set k | 0 <= k < n && HasBusiness(proposals[..n][k]);
      var all := set k | 0 <= k < |proposals| && HasBusiness(proposals[k]);
      assert all == if HasBusiness(proposals[n]) then before + {n} else before;
    }
  }

  lemma BusinessMeans(proposal: AcceptedProposal)
    ensures BusinessOf(AsProposed(proposal)) > 0 <==> HasBusiness(proposal)
  {
    SomeBusiness(AsProposed(proposal));
  }

  method ProposalBudgetUse(actions: seq<Proposed>) returns (businessActions: nat, planMutations: nat)
    ensures businessActions == BusinessOf(actions)
    ensures businessActions + planMutations == |actions|
  {
    businessActions, planMutations := 0, 0;
    for i := 0 to |actions|
      invariant businessActions == BusinessOf(actions[..i])
      invariant businessActions + planMutations == i
    {
      assert actions[..i + 1][..i] == actions[..i];
      if IsPlanMutationName(actions[i].name) {
        planMutations := planMutations + 1;
      } else {
        businessActions := businessActions + 1;
      }
    }
    assert actions[..|actions|] == actions;
  }

  method AcceptedBusinessActions(p: Prefix) returns (count: nat)
    ensures count == BusinessActions(p.proposals)
  {
    count := 0;
    for k := 0 to |p.proposals|
      invariant count == BusinessActions(p.proposals[..k])
    {
      assert p.proposals[..k + 1][..k] == p.proposals[..k];
      var actions := AsProposed(p.proposals[k]);
      ghost var before := count;
      for i := 0 to |actions|
        invariant count == before + BusinessOf(actions[..i])
      {
        assert actions[..i + 1][..i] == actions[..i];
        if !IsPlanMutationName(p.proposals[k].actions[i].name) {
          count := count + 1;
        }
      }
      assert actions[..|actions|] == actions;
    }
    assert p.proposals[..|p.proposals|] == p.proposals;
  }

  lemma {:induction false} SomeBusiness(actions: seq<Proposed>)
    ensures BusinessOf(actions) > 0 <==> exists i :: 0 <= i < |actions| && !IsPlanMutationName(actions[i].name)
    decreases |actions|
  {
    if actions != [] {
      var front := actions[..|actions| - 1];
      SomeBusiness(front);
      if i :| 0 <= i < |front| && !IsPlanMutationName(front[i].name) {
        assert !IsPlanMutationName(actions[i].name);
      }
    }
  }

  method AcceptedBusinessDecisions(p: Prefix) returns (count: nat)
    ensures count == BusinessDecisions(p.proposals)
  {
    count := 0;
    for k := 0 to |p.proposals|
      invariant count == BusinessDecisions(p.proposals[..k])
    {
      assert p.proposals[..k + 1][..k] == p.proposals[..k];
      var actions := AsProposed(p.proposals[k]);
      SomeBusiness(actions);
      var i := 0;
      while i < |actions| && IsPlanMutationName(actions[i].name)
        invariant 0 <= i <= |actions|
        invariant forall j | 0 <= j < i :: IsPlanMutationName(actions[j].name)
      {
        i := i + 1;
      }
      if i < |actions| {
        count := count + 1;
      }
    }
    assert p.proposals[..|p.proposals|] == p.proposals;
  }

  /** Bytes of the results of one proposal, as they would be stored again. */
  function ResultBytesOf(size: Row -> nat, no: int, actions: seq<AcceptedAction>): nat {
    if actions == [] then 0
    else
      var last := actions[|actions| - 1];
      ResultBytesOf(size, no, actions[..|actions| - 1]) +
      (if last.result.Some? then size(ResultRow(no, last.index, last.result.value)) else 0)
  }

  function ResultBytes(size: Row -> nat, proposals: seq<AcceptedProposal>): nat {
    if proposals == [] then 0
    else
      var last := proposals[|proposals| - 1];
      ResultBytes(size, proposals[..|proposals| - 1]) + ResultBytesOf(size, last.no, last.actions)
  }

  method EncodedActionResultBytes(size: Row -> nat, p: Prefix) returns (total: nat)
    ensures total == ResultBytes(size, p.proposals)
  {
    total := 0;
    for k := 0 to |p.proposals|
      invariant total == ResultBytes(size, p.proposals[..k])
    {
      assert p.proposals[..k + 1][..k] == p.proposals[..k];
      var proposal := p.proposals[k];
      ghost var before := total;
      for i := 0 to |proposal.actions|
        invariant total == before + ResultBytesOf(size, proposal.no, proposal.actions[..i])
      {
        assert proposal.actions[..i + 1][..i] == proposal.actions[..i];
        var action := proposal.actions[i];
        if action.result.Some? {
          total := total + size(ResultRow(proposal.no, action.index, action.result.value));
        }
      }
      assert proposal.actions[..|proposal.actions|] == proposal.actions;
    }
    assert p.proposals[..|p.proposals|] == p.proposals;
  }

  // ----- Decisions -----

  datatype Decision = FinalDecision(text: string) | ProposalDecision(actions: seq<Proposed>)

  /** What the model may use for one decision. `definitions` are the tool names
      advertised to it. */
  datatype Offer = Offer(remaining: int, businessAvailable: bool, definitions: set<string>)

  predicate RepeatsCompletedPlan(p: Prefix, action: Proposed) {
    action.name == "rewrite_todo_list" &&
    exists k, i | 0 <= k < |p.proposals| && 0 <= i < |p.proposals[k].actions| ::
      Repeats(p.proposals[k].actions[i], action)
  }

  predicate Repeats(done: AcceptedAction, action: Proposed) {
    done.name == action.name && done.input == action.input && done.result.Some? && done.result.value.status.Succeeded?
  }

  predicate DecisionAllowed(limits: Limits, p: Prefix, offer: Offer, decision: Decision) {
    match decision
    case FinalDecision(text) => !IsBlank(text)
    case ProposalDecision(actions) =>
      |actions| > 0 &&
      (offer.definitions == {} ||
       (|actions| <= limits.actionBatchLimit &&
        (forall i | 0 <= i < |actions| :: actions[i].name in offer.definitions) &&
        (forall i | 0 <= i < |actions| :: !RepeatsCompletedPlan(p, actions[i])) &&
        |actions| - BusinessOf(actions) <= 1 &&
        BusinessOf(actions) <= offer.remaining &&
        (BusinessOf(actions) > 0 ==> offer.businessAvailable)))
  }

  method CompletedActionHasInput(p: Prefix, action: Proposed) returns (found: bool)
    ensures found <==> exists k, i | 0 <= k < |p.proposals| && 0 <= i < |p.proposals[k].actions| ::
      Repeats(p.proposals[k].actions[i], action)
  {
    for k := 0 to |p.proposals|
      invariant forall j, i | 0 <= j < k && 0 <= i < |p.proposals[j].actions| ::
        !Repeats(p.proposals[j].actions[i], action)
    {
      for i := 0 to |p.proposals[k].actions|
        invariant forall j | 0 <= j < i :: !Repeats(p.proposals[k].actions[j], action)
      {
        if Repeats(p.proposals[k].actions[i], action) {
          return true;
        }
      }
    }
    return false;
  }

  method ValidateDecisionForRequest(limits: Limits, p: Prefix, offer: Offer, decision: Decision) returns (ok: bool)
    ensures ok <==> DecisionAllowed(limits, p, offer, decision)
  {
    if decision.FinalDecision? {
      return !IsBlank(decision.text);
    }
    var actions := decision.actions;
    if |actions| == 0 {
      return false;
    }
    if offer.definitions == {} {
      return true;
    }
    if |actions| > limits.actionBatchLimit {
      return false;
    }
    for index := 0 to |actions|
      invariant forall i | 0 <= i < index :: actions[i].name in offer.definitions
    {
      if actions[index].name !in offer.definitions {
        return false;
      }
    }
    for index := 0 to |actions|
      invariant forall i | 0 <= i < index :: !RepeatsCompletedPlan(p, actions[i])
    {
      if actions[index].name == "rewrite_todo_list" {
        var repeated := CompletedActionHasInput(p, actions[index]);
        if repeated {
          assert RepeatsCompletedPlan(p, actions[index]);
          return false;
        }
      }
    }
    var businessActions, planMutations := ProposalBudgetUse(actions);
    if planMutations > 1 {
      return false;
    }
    if businessActions > offer.remaining {
      return false;
    }
    if businessActions > 0 && !offer.businessAvailable {
      return false;
    }
    return true;
  }

  /** The offer for the next decision. `spent` says whether the token budget is
      gone and `wrapUp` names the tools kept in that case, if any are. */
  function OfferFor(
    limits: Limits, p: Prefix, spent: bool, wrapUp: Option<set<string>>, advertised: set<string>): Offer {
    var remaining := limits.actionLimit - BusinessActions(p.proposals);
    var budget := BusinessDecisions(p.proposals) < limits.actionDecisionLimit && remaining > 0;
    var available := budget && (!spent || wrapUp.Some?);
    var definitions := if budget && spent && wrapUp.Some? then advertised * wrapUp.value else advertised;
    Offer(remaining, available, definitions)
  }

  /** Tool registries offer business tools only while some may still be used. */
  predicate Advertisable(offer: Offer, advertised: set<string>) {
    (if offer.businessAvailable then offer.remaining else 0) <= 0 ==>
      forall name | name in advertised :: IsPlanMutationName(name)
  }

  // ----- Retrying the model call -----

  datatype ModelReply = Usable(decision: Decision) | CutOff(text: string) | BadReply | ContextOverflow | OtherError

  datatype ModelAnswer = Accepted(decision: Decision) | GaveUpInvalid | GaveUpOverflow | GaveUpOther

  const TRUNCATED_NOTICE := "\n\n[cut off]"

  /** One reply after the checks made on it: a cut-off Final is refused while
      retries are left and kept with a notice after that. */
  function Checked(reply: ModelReply, allowed: Decision -> bool, retriesLeft: bool): ModelReply {
    match reply
    case CutOff(text) =>
      if retriesLeft then BadReply
      else if allowed(FinalDecision(text + TRUNCATED_NOTICE)) then Usable(FinalDecision(text + TRUNCATED_NOTICE))
      else BadReply
    case Usable(decision) => if allowed(decision) then reply else BadReply
    case BadReply => reply
    case ContextOverflow => reply
    case OtherError => reply
  }

  /** One request: how many retries of each kind came before it. */
  datatype Request = Request(invalids: nat, overflows: nat)

  /** The reply is of no use: not a decision, not one that is allowed, or a Final that
      was cut off and may not be kept. */
  predicate Useless(reply: ModelReply, allowed: Decision -> bool, retriesLeft: bool) {
    match reply
    case BadReply => true
    case Usable(decision) => !allowed(decision)
    case CutOff(text) => retriesLeft || !allowed(FinalDecision(text + TRUNCATED_NOTICE))
    case ContextOverflow => false
    case OtherError => false
  }

  /** From one request to the next exactly one thing went wrong that may be retried. */
  ghost predicate Retries(
    ask: (nat, nat) -> ModelReply, allowed: Decision -> bool, invalidLimit: nat, overflowLimit: nat, canCompact: bool,
    from: Request, to: Request)
  {
    var reply := ask(from.invalids, from.overflows);
    (to == Request(from.invalids + 1, from.overflows) && from.invalids < invalidLimit &&
      Useless(reply, allowed, true)) ||
    (to == Request(from.invalids, from.overflows + 1) && from.overflows < overflowLimit && canCompact &&
     reply.ContextOverflow?)
  }

  /** The decision loop of one step. `ask` is the model's reply given how many
      retries of each kind were made; `path` are the requests made. Each but the
      last was retried for cause, and what the last one's reply was decides. */
  method DecideWithRetries(
    ask: (nat, nat) -> ModelReply, allowed: Decision -> bool, invalidLimit: nat, overflowLimit: nat, canCompact: bool)
    returns (answer: ModelAnswer, invalids: nat, overflows: nat, ghost path: seq<Request>)
    ensures invalids <= invalidLimit && overflows <= overflowLimit
    ensures path != [] && path[0] == Request(0, 0) && path[|path| - 1] == Request(invalids, overflows)
    ensures forall i | 0 <= i < |path| - 1 ::
      Retries(ask, allowed, invalidLimit, overflowLimit, canCompact, path[i], path[i + 1])
    ensures var reply := ask(invalids, overflows);
      match answer
      case Accepted(decision) =>
        allowed(decision) &&
        (reply == Usable(decision) ||
         (invalids == invalidLimit && reply.CutOff? && decision == FinalDecision(reply.text + TRUNCATED_NOTICE)))
      case GaveUpInvalid => invalids == invalidLimit && Useless(reply, allowed, false)
      case GaveUpOverflow => reply.ContextOverflow? && (!canCompact || overflows == overflowLimit)
      case GaveUpOther => reply.OtherError?
  {
    overflows := 0;
    invalids := 0;
    path := [Request(0, 0)];
    while true
      invariant invalids <= invalidLimit && overflows <= overflowLimit
      invariant path != [] && path[0] == Request(0, 0) && path[|path| - 1] == Request(invalids, overflows)
      invariant forall i | 0 <= i < |path| - 1 ::
        Retries(ask, allowed, invalidLimit, overflowLimit, canCompact, path[i], path[i + 1])
      decreases (invalidLimit - invalids) + (overflowLimit - overflows)
    {
      var retriesLeft := invalids < invalidLimit;
      var reply := Checked(ask(invalids, overflows), allowed, retriesLeft);
      if reply.BadReply? && retriesLeft {
        invalids := invalids + 1;
        path := path + [Request(invalids, overflows)];
        continue;
      }
      match reply {
        case Usable(decision) => return Accepted(decision), invalids, overflows, path;
        case BadReply => return GaveUpInvalid, invalids, overflows, path;
        case OtherError => return GaveUpOther, invalids, overflows, path;
        case CutOff(_) =>
          assert false;
          return GaveUpOther, invalids, overflows, path;
        case ContextOverflow =>
      }
      if !canCompact || overflows >= overflowLimit {
        return GaveUpOverflow, invalids, overflows, path;
      }
      overflows := overflows + 1;
      path := path + [Request(invalids, overflows)];
    }
  }

  // ----- Committing the results of a batch -----

  datatype Trouble = ToolBroke(terminal: bool) | BadResult
  datatype ToolOutcome = Returned(result: ActionResult) | Broke(terminal: bool)
  datatype Selection = Selection(rows: seq<Row>, used: int, failure: Option<Trouble>, overBudget: bool)

  /** Outcomes taken in index order: a failing action does not keep its siblings
      from being committed, but once the byte budget would be passed nothing
      after that point is. */
  function Select(
    limits: Limits, size: Row -> nat, used: nat, no: int, todo: seq<int>, outcomes: seq<ToolOutcome>): Selection
    requires |todo| == |outcomes|
    decreases |todo|
  {
    if todo == [] then Selection([], used, None, false)
    else
      var n := |todo| - 1;
      var before := Select(limits, size, used, no, todo[..n], outcomes[..n]);
      Selected(limits, size, before, ResultOf(no, todo[n], outcomes[n]), outcomes[n])
  }

  /** The row an outcome would be recorded as; meaningful only if the tool returned. */
  function ResultOf(no: int, index: int, outcome: ToolOutcome): Row {
    ResultRow(no, index, if outcome.Returned? then outcome.result else INTERRUPTED)
  }

  function Selected(limits: Limits, size: Row -> nat, before: Selection, row: Row, outcome: ToolOutcome): Selection {
    match outcome
    case Broke(terminal) =>
      before.(failure := if before.failure.None? then Some(ToolBroke(terminal)) else before.failure)
    case Returned(result) =>
      if !result.Valid() then before.(failure := if before.failure.None? then Some(BadResult) else before.failure)
      else if before.overBudget then before
      else if !WellFormed(row) then before.(failure := if before.failure.None? then Some(BadResult) else before.failure)
      else if size(row) > limits.actionResultBytes || before.used + size(row) > limits.actionResultsBytes
      then before.(overBudget := true)
      else before.(rows := before.rows + [row], used := before.used + size(row))
  }

  method SelectCommits(limits: Limits, size: Row -> nat, used: nat, no: int, todo: seq<int>, outcomes: seq<ToolOutcome>)
    returns (toCommit: seq<Row>, failure: Option<Trouble>, budgetExceeded: bool)
    requires |todo| == |outcomes|
    ensures var s := Select(limits, size, used, no, todo, outcomes);
      toCommit == s.rows && failure == s.failure && budgetExceeded == s.overBudget
  {
    var usedResultBytes: int := used;
    toCommit, failure, budgetExceeded := [], None, false;
    for i := 0 to |outcomes|
      invariant Select(limits, size, used, no, todo[..i], outcomes[..i]) ==
        Selection(toCommit, usedResultBytes, failure, budgetExceeded)
    {
      assert todo[..i + 1][..i] == todo[..i] && outcomes[..i + 1][..i] == outcomes[..i];
      var outcome := outcomes[i];
      if outcome.Broke? {
        if failure.None? {
          failure := Some(ToolBroke(outcome.terminal));
        }
        continue;
      }
      if !outcome.result.Valid() {
        if failure.None? {
          failure := Some(BadResult);
        }
        continue;
      }
      if budgetExceeded {
        continue;
      }
      var checkpoint := NewActionResultCheckpoint(no, todo[i], OfAction(no, todo[i]), outcome.result);
      if checkpoint.None? {
        if failure.None? {
          failure := Some(BadResult);
        }
        continue;
      }
      var row := ResultRow(no, todo[i], outcome.result);
      if size(row) > limits.actionResultBytes || usedResultBytes + size(row) > limits.actionResultsBytes {
        budgetExceeded := true;
        continue;
      }
      usedResultBytes := usedResultBytes + size(row);
      toCommit := toCommit + [row];
    }
    assert todo[..|todo|] == todo && outcomes[..|outcomes|] == outcomes;
  }

  function RowBytes(size: Row -> nat, rows: seq<Row>): nat {
    if rows == [] then 0 else RowBytes(size, rows[..|rows| - 1]) + size(rows[|rows| - 1])
  }

  predicate Committable(no: int, index: int, outcome: ToolOutcome) {
    outcome.Returned? && WellFormed(ResultOf(no, index, outcome))
  }

  ghost predicate FromOutcome(no: int, todo: seq<int>, outcomes: seq<ToolOutcome>, row: Row)
    requires |todo| == |outcomes|
  {
    exists i :: 0 <= i < |todo| && Committable(no, todo[i], outcomes[i]) && row == ResultOf(no, todo[i], outcomes[i])
  }

  lemma FromLonger(no: int, todo: seq<int>, outcomes: seq<ToolOutcome>, n: nat, row: Row)
    requires |todo| == |outcomes| && n <= |todo| && FromOutcome(no, todo[..n], outcomes[..n], row)
    ensures FromOutcome(no, todo, outcomes, row)
  {
    var i :| 0 <= i < n && Committable(no, todo[..n][i], outcomes[..n][i]) &&
      row == ResultOf(no, todo[..n][i], outcomes[..n][i]);
    assert outcomes[i] == outcomes[..n][i] && todo[i] == todo[..n][i];
  }

  /** What is committed is the valid outcome of some action of the batch, within
      the limit of one result; with what was used before it stays within the
      limit of all results. */
  lemma {:induction false} SelectedWithinLimits(
    limits: Limits, size: Row -> nat, used: nat, no: int, todo: seq<int>, outcomes: seq<ToolOutcome>)
    requires |todo| == |outcomes|
    ensures var s := Select(limits, size, used, no, todo, outcomes);
      s.used == used + RowBytes(size, s.rows) &&
      (s.rows != [] ==> s.used <= limits.actionResultsBytes) &&
      forall r | r in s.rows :: size(r) <= limits.actionResultBytes && FromOutcome(no, todo, outcomes, r)
    decreases |todo|
  {
    hide WellFormed, INTERRUPTED;
    if todo != [] {
      var n := |todo| - 1;
      SelectedWithinLimits(limits, size, used, no, todo[..n], outcomes[..n]);
      var before := Select(limits, size, used, no, todo[..n], outcomes[..n]);
      var s := Select(limits, size, used, no, todo, outcomes);
      forall r | r in s.rows ensures size(r) <= limits.actionResultBytes && FromOutcome(no, todo, outcomes, r) {
        if r in before.rows {
          FromLonger(no, todo, outcomes, n, r);
        } else {
          assert Committable(no, todo[n], outcomes[n]);
        }
      }
      if s.rows != before.rows {
        assert s.rows[..|s.rows| - 1] == before.rows;
      }
    }
  }

  // What is selected, said over the outcomes and their sizes.

  /** The rows of the valid outcomes, in order. */
  function ValidRows(no: int, todo: seq<int>, outcomes: seq<ToolOutcome>): seq<Row>
    requires |todo| == |outcomes|
    decreases |todo|
  {
    if todo == [] then []
    else
      var n := |todo| - 1;
      ValidRows(no, todo[..n], outcomes[..n]) +
      (if Committable(no, todo[n], outcomes[n]) then [ResultOf(no, todo[n], outcomes[n])] else [])
  }

  /** A valid outcome that is too large by itself, or does not fit beside the valid
      ones before it. */
  predicate Overruns(
    limits: Limits, size: Row -> nat, used: nat, no: int, todo: seq<int>, outcomes: seq<ToolOutcome>, i: nat)
    requires |todo| == |outcomes| && i < |todo|
  {
    var row := ResultOf(no, todo[i], outcomes[i]);
    Committable(no, todo[i], outcomes[i]) &&
    (size(row) > limits.actionResultBytes ||
     used + RowBytes(size, ValidRows(no, todo[..i], outcomes[..i])) + size(row) > limits.actionResultsBytes)
  }

  /** The first index at which the budget is overrun, or their number. */
  ghost predicate OverrunsFirst(
    limits: Limits, size: Row -> nat, used: nat, no: int, todo: seq<int>, outcomes: seq<ToolOutcome>, k: nat)
    requires |todo| == |outcomes|
  {
    k <= |todo| && (forall i | 0 <= i < k :: !Overruns(limits, size, used, no, todo, outcomes, i)) &&
    (k < |todo| ==> Overruns(limits, size, used, no, todo, outcomes, k))
  }

  /** What is wrong with one outcome, if anything is. A row that cannot be made is
      noticed only while the budget is not overrun. */
  function TroubleAt(no: int, index: int, outcome: ToolOutcome, overrun: bool): Option<Trouble> {
    if outcome.Broke? then Some(ToolBroke(outcome.terminal))
    else if !outcome.result.Valid() || (!overrun && !Committable(no, index, outcome)) then Some(BadResult)
    else None
  }

  lemma OverrunsInFront(
    limits: Limits, size: Row -> nat, used: nat, no: int, todo: seq<int>, outcomes: seq<ToolOutcome>, i: nat)
    requires |todo| == |outcomes| && i < |todo| - 1
    ensures Overruns(limits, size, used, no, todo[..|todo| - 1], outcomes[..|todo| - 1], i) <==>
      Overruns(limits, size, used, no, todo, outcomes, i)
  {
    var n := |todo| - 1;
    assert todo[..n][..i] == todo[..i] && outcomes[..n][..i] == outcomes[..i];
  }

  /** The rows are exactly the valid outcomes before the first overrun, in order, and
      the over-budget mark says exactly that there is one. Outcomes that are not
      valid neither take room nor stop what comes after them. */
  lemma {:induction false} SelectedUpToTheFirstOverrun(
    limits: Limits, size: Row -> nat, used: nat, no: int, todo: seq<int>, outcomes: seq<ToolOutcome>) returns (k: nat)
    requires |todo| == |outcomes|
    ensures OverrunsFirst(limits, size, used, no, todo, outcomes, k)
    ensures var s := Select(limits, size, used, no, todo, outcomes);
      (s.overBudget <==> k < |todo|) && s.rows == ValidRows(no, todo[..k], outcomes[..k]) &&
      s.used == used + RowBytes(size, s.rows)
    decreases |todo|
  {
    hide WellFormed, INTERRUPTED, Overruns, Select, Selected, ValidRows, RowBytes;
    if todo == [] {
      k := 0;
      NothingSelected(limits, size, used, no);
    } else {
      var n := |todo| - 1;
      forall i | 0 <= i < n
        ensures Overruns(limits, size, used, no, todo[..n], outcomes[..n], i) <==>
          Overruns(limits, size, used, no, todo, outcomes, i)
      {
        OverrunsInFront(limits, size, used, no, todo, outcomes, i);
      }
      k := SelectedUpToTheFirstOverrun(limits, size, used, no, todo[..n], outcomes[..n]);
      assert todo[..n][..k] == todo[..k] && outcomes[..n][..k] == outcomes[..k];
      if k == n {
        assert todo[..n][..n] == todo[..n] && outcomes[..n][..n] == outcomes[..n];
        k := LastOverruns(limits, size, used, no, todo, outcomes);
      } else {
        NothingAfterOverrun(limits, size, used, no, todo, outcomes);
      }
    }
  }

  lemma NothingSelected(limits: Limits, size: Row -> nat, used: nat, no: int)
    ensures Select(limits, size, used, no, [], []) == Selection([], used, None, false)
    ensures ValidRows(no, [], []) == [] && RowBytes(size, []) == 0
  {
  }

  lemma NothingAfterOverrun(
    limits: Limits, size: Row -> nat, used: nat, no: int, todo: seq<int>, outcomes: seq<ToolOutcome>)
    requires |todo| == |outcomes| && todo != []
    requires Select(limits, size, used, no, todo[..|todo| - 1], outcomes[..|todo| - 1]).overBudget
    ensures var before := Select(limits, size, used, no, todo[..|todo| - 1], outcomes[..|todo| - 1]);
      var s := Select(limits, size, used, no, todo, outcomes);
      s.overBudget && s.rows == before.rows && s.used == before.used
  {
    hide WellFormed, INTERRUPTED;
  }

  lemma LastOverruns(limits: Limits, size: Row -> nat, used: nat, no: int, todo: seq<int>, outcomes: seq<ToolOutcome>)
    returns (k: nat)
    requires |todo| == |outcomes| && todo != []
    requires var n := |todo| - 1;
      var before := Select(limits, size, used, no, todo[..n], outcomes[..n]);
      !before.overBudget && before.rows == ValidRows(no, todo[..n], outcomes[..n]) &&
      before.used == used + RowBytes(size, before.rows)
    ensures k == if Overruns(limits, size, used, no, todo, outcomes, |todo| - 1) then |todo| - 1 else |todo|
    ensures var s := Select(limits, size, used, no, todo, outcomes);
      (s.overBudget <==> k < |todo|) && s.rows == ValidRows(no, todo[..k], outcomes[..k]) &&
      s.used == used + RowBytes(size, s.rows)
  {
    hide INTERRUPTED;
    var n := |todo| - 1;
    var row := ResultOf(no, todo[n], outcomes[n]);
    var before := Select(limits, size, used, no, todo[..n], outcomes[..n]).rows;
    assert (before + [row])[..|before|] == before;
    assert todo[..|todo|] == todo && outcomes[..|todo|] == outcomes;
    k := if Overruns(limits, size, used, no, todo, outcomes, n) then n else n + 1;
  }

  lemma OneFirstOverrun(
    limits: Limits, size: Row -> nat, used: nat, no: int, todo: seq<int>, outcomes: seq<ToolOutcome>, j: nat, k: nat)
    requires |todo| == |outcomes|
    requires OverrunsFirst(limits, size, used, no, todo, outcomes, j)
    requires OverrunsFirst(limits, size, used, no, todo, outcomes, k)
    ensures j == k
  {
    hide Overruns;
  }

  /** The over-budget mark is set if and only if some valid outcome overruns. */
  lemma OverBudgetExactlyWhenSomeOverruns(
    limits: Limits, size: Row -> nat, used: nat, no: int, todo: seq<int>, outcomes: seq<ToolOutcome>)
    requires |todo| == |outcomes|
    ensures Select(limits, size, used, no, todo, outcomes).overBudget <==>
      exists i :: 0 <= i < |todo| && Overruns(limits, size, used, no, todo, outcomes, i)
  {
    hide Select, Overruns;
    var k := SelectedUpToTheFirstOverrun(limits, size, used, no, todo, outcomes);
  }

  /** The reported failure is the trouble of the first outcome that has any. */
  lemma {:induction false} FirstTroubleIsReported(
    limits: Limits, size: Row -> nat, used: nat, no: int, todo: seq<int>, outcomes: seq<ToolOutcome>, k: nat)
    requires |todo| == |outcomes| && OverrunsFirst(limits, size, used, no, todo, outcomes, k)
    ensures var failure := Select(limits, size, used, no, todo, outcomes).failure;
      failure.None? ==> forall i | 0 <= i < |todo| :: TroubleAt(no, todo[i], outcomes[i], i > k).None?
    ensures var failure := Select(limits, size, used, no, todo, outcomes).failure;
      failure.Some? ==>
        exists i :: 0 <= i < |todo| && TroubleAt(no, todo[i], outcomes[i], i > k) == failure &&
          forall j | 0 <= j < i :: TroubleAt(no, todo[j], outcomes[j], j > k).None?
    decreases |todo|
  {
    hide WellFormed, INTERRUPTED, Overruns, ActionResult.Valid, RowBytes;
    if todo != [] {
      var n := |todo| - 1;
      var first := SelectedUpToTheFirstOverrun(limits, size, used, no, todo[..n], outcomes[..n]);
      var all := SelectedUpToTheFirstOverrun(limits, size, used, no, todo, outcomes);
      OneFirstOverrun(limits, size, used, no, todo, outcomes, all, k);
      forall i | 0 <= i < n
        ensures Overruns(limits, size, used, no, todo[..n], outcomes[..n], i) <==>
          Overruns(limits, size, used, no, todo, outcomes, i)
      {
        OverrunsInFront(limits, size, used, no, todo, outcomes, i);
      }
      FirstTroubleIsReported(limits, size, used, no, todo[..n], outcomes[..n], first);
      assert forall i | 0 <= i < n :: todo[..n][i] == todo[i] && outcomes[..n][i] == outcomes[i];
      assert first == if k <= n then k else n;
      LastTrouble(limits, size, used, no, todo, outcomes);
    }
  }

  lemma LastTrouble(limits: Limits, size: Row -> nat, used: nat, no: int, todo: seq<int>, outcomes: seq<ToolOutcome>)
    requires |todo| == |outcomes| && todo != []
    ensures var n := |todo| - 1;
      var before := Select(limits, size, used, no, todo[..n], outcomes[..n]);
      Select(limits, size, used, no, todo, outcomes).failure ==
      if before.failure.Some? then before.failure else TroubleAt(no, todo[n], outcomes[n], before.overBudget)
  {
    hide INTERRUPTED;
  }

  /** Short of the byte limit a failing action does not keep its siblings from
      being committed: every valid outcome is. */
  lemma {:induction false} SelectedUnlessOverBudget(
    limits: Limits, size: Row -> nat, used: nat, no: int, todo: seq<int>, outcomes: seq<ToolOutcome>, i: nat)
    requires |todo| == |outcomes| && i < |todo| && Committable(no, todo[i], outcomes[i])
    requires !Select(limits, size, used, no, todo, outcomes).overBudget
    ensures ResultOf(no, todo[i], outcomes[i]) in Select(limits, size, used, no, todo, outcomes).rows
    decreases |todo|
  {
    var n := |todo| - 1;
    if i < n {
      SelectedUnlessOverBudget(limits, size, used, no, todo[..n], outcomes[..n], i);
    }
  }

  /** With no trouble the rows are the outcomes, in order. */
  lemma {:induction false} SelectedWithoutTrouble(
    limits: Limits, size: Row -> nat, used: nat, no: int, todo: seq<int>, outcomes: seq<ToolOutcome>)
    requires |todo| == |outcomes|
    requires var s := Select(limits, size, used, no, todo, outcomes); !s.overBudget && s.failure.None?
    ensures var rows := Select(limits, size, used, no, todo, outcomes).rows;
      |rows| == |todo| &&
      forall i | 0 <= i < |todo| ::
        Committable(no, todo[i], outcomes[i]) && rows[i] == ResultOf(no, todo[i], outcomes[i])
    decreases |todo|
  {
    if todo != [] {
      var n := |todo| - 1;
      SelectedWithoutTrouble(limits, size, used, no, todo[..n], outcomes[..n]);
      assert forall i | 0 <= i < n :: outcomes[..n][i] == outcomes[i] && todo[..n][i] == todo[i];
    }
  }

  /** Committed rows answer different actions. */
  lemma {:induction false} SelectedIndicesDiffer(
    limits: Limits, size: Row -> nat, used: nat, no: int, todo: seq<int>, outcomes: seq<ToolOutcome>, i: nat, j: nat)
    requires |todo| == |outcomes| && Distinct(todo)
    requires i < j < |Select(limits, size, used, no, todo, outcomes).rows|
    ensures var rows := Select(limits, size, used, no, todo, outcomes).rows;
      rows[i].ResultRow? && rows[j].ResultRow? && rows[i].index != rows[j].index
    decreases |todo|
  {
    hide WellFormed, INTERRUPTED;
    var n := |todo| - 1;
    var before := Select(limits, size, used, no, todo[..n], outcomes[..n]).rows;
    if j < |before| {
      SelectedIndicesDiffer(limits, size, used, no, todo[..n], outcomes[..n], i, j);
    } else {
      SelectedWithinLimits(limits, size, used, no, todo[..n], outcomes[..n]);
      assert before[i] in before;
      assert FromOutcome(no, todo[..n], outcomes[..n], before[i]);
      var k :| 0 <= k < n && Committable(no, todo[..n][k], outcomes[..n][k]) &&
        before[i] == ResultOf(no, todo[..n][k], outcomes[..n][k]);
      assert todo[k] == todo[..n][k];
    }
  }
}

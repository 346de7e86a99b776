/** Counting the usable cards of a research tree round by round. */
module ResearchSaturation {
  import opened Basics
  import opened Json
  import opened Checkpoints
  import opened CheckpointPrefixes
  import opened ResearchCompletion
  import Identities

  datatype ClaimRun = ClaimRun(runId: string, proposals: seq<AcceptedProposal>)
  datatype Observation = Observation(agentId: string, completed: bool)
  datatype Round = Round(decision: int, evidenceReads: nat, readersCollected: nat, newCards: nat)
  datatype Saturation = Saturation(rounds: seq<Round>, uncollected: nat)

  /** How stored outputs decode: whether a record_claim result is a usable card,
      and what a wait_agent result observed. */
  datatype Decoders = Decoders(usableCard: Raw -> bool, observed: Raw -> seq<Observation>)

  predicate IsCard(d: Decoders, action: AcceptedAction) {
    action.name == "record_claim" && Succeeds(action) && d.usableCard(action.result.value.output)
  }

  function CardsOf(d: Decoders, actions: seq<AcceptedAction>): nat {
    if actions == [] then 0
    else CardsOf(d, actions[..|actions| - 1]) + (if IsCard(d, actions[|actions| - 1]) then 1 else 0)
  }

  function Cards(d: Decoders, proposals: seq<AcceptedProposal>): nat {
    if proposals == [] then 0
    else Cards(d, proposals[..|proposals| - 1]) + CardsOf(d, proposals[|proposals| - 1].actions)
  }

  method CountUsableResearchCards(d: Decoders, proposals: seq<AcceptedProposal>) returns (count: nat)
    ensures count == Cards(d, proposals)
  {
    hide IsCard;
    count := 0;
    for k := 0 to |proposals|
      invariant count == Cards(d, proposals[..k])
    {
      assert proposals[..k + 1][..k] == proposals[..k];
      var actions := proposals[k].actions;
      ghost var before := count;
      for i := 0 to |actions|
        invariant count == before + CardsOf(d, actions[..i])
      {
        assert actions[..i + 1][..i] == actions[..i];
        if IsCard(d, actions[i]) {
          count := count + 1;
        }
      }
      assert actions[..|actions|] == actions;
    }
    assert proposals[..|proposals|] == proposals;
  }

  /** Usable cards of all runs of a tree. */
  function TreeCards(d: Decoders, runs: seq<ClaimRun>): nat {
    if runs == [] then 0 else TreeCards(d, runs[..|runs| - 1]) + Cards(d, runs[|runs| - 1].proposals)
  }

  /** Usable cards of the subagents among these ids. */
  function ChildCards(d: Decoders, runs: seq<ClaimRun>, root: string, ids: set<string>): nat {
    if runs == [] then 0
    else
      var last := runs[|runs| - 1];
      ChildCards(d, runs[..|runs| - 1], root, ids) +
      (if last.runId != root && last.runId in ids then Cards(d, last.proposals) else 0)
  }

  predicate DistinctRuns(runs: seq<ClaimRun>) {
    forall i, j | 0 <= i < j < |runs| :: runs[i].runId != runs[j].runId
  }

  function ChildrenOf(runs: seq<ClaimRun>, root: string): (ids: set<string>)
    ensures forall id :: id in ids <==> id != root && exists i :: 0 <= i < |runs| && runs[i].runId == id
  {
    if runs == [] then {}
    else
      var rest := ChildrenOf(runs[..|runs| - 1], root);
      if runs[|runs| - 1].runId == root then rest else rest + {runs[|runs| - 1].runId}
  }

  function NewCards(rounds: seq<Round>): nat {
    if rounds == [] then 0 else NewCards(rounds[..|rounds| - 1]) + rounds[|rounds| - 1].newCards
  }

  lemma NewCardsOneMore(rounds: seq<Round>, round: Round)
    ensures NewCards(rounds + [round]) == NewCards(rounds) + round.newCards
  {
    assert (rounds + [round])[..|rounds|] == rounds;
  }

  lemma {:induction false} CollectOne(d: Decoders, runs: seq<ClaimRun>, root: string, ids: set<string>, k: nat)
    requires DistinctRuns(runs) && k < |runs| && runs[k].runId != root && runs[k].runId !in ids
    ensures ChildCards(d, runs, root, ids + {runs[k].runId}) ==
      ChildCards(d, runs, root, ids) + Cards(d, runs[k].proposals)
    decreases |runs|
  {
    hide Cards;
    var front := runs[..|runs| - 1];
    if k < |runs| - 1 {
      assert runs[k].runId != runs[|runs| - 1].runId;
      CollectOne(d, front, root, ids, k);
    } else {
      OthersUnchanged(d, front, root, ids, runs[k].runId);
    }
  }

  lemma {:induction false} OthersUnchanged(d: Decoders, runs: seq<ClaimRun>, root: string, ids: set<string>, id: string)
    requires forall i | 0 <= i < |runs| :: runs[i].runId != id
    ensures ChildCards(d, runs, root, ids + {id}) == ChildCards(d, runs, root, ids)
    decreases |runs|
  {
    hide Cards;
    if runs != [] {
      OthersUnchanged(d, runs[..|runs| - 1], root, ids, id);
    }
  }

  /** Collected and uncollected subagents and the root are the whole tree. */
  lemma {:induction false} WholeTree(
    d: Decoders, runs: seq<ClaimRun>, root: string, collected: set<string>, others: set<string>)
    requires DistinctRuns(runs)
    requires forall i | 0 <= i < |runs| && runs[i].runId != root :: runs[i].runId in collected <==>
      runs[i].runId !in others
    ensures ChildCards(d, runs, root, collected) + ChildCards(d, runs, root, others) + RootCards(d, runs, root) ==
      TreeCards(d, runs)
    decreases |runs|
  {
    hide Cards;
    if runs != [] {
      WholeTree(d, runs[..|runs| - 1], root, collected, others);
    }
  }

  function RootCards(d: Decoders, runs: seq<ClaimRun>, root: string): nat {
    if runs == [] then 0
    else
      RootCards(d, runs[..|runs| - 1], root) +
      (if runs[|runs| - 1].runId == root then Cards(d, runs[|runs| - 1].proposals) else 0)
  }

  lemma {:induction false} RootIsOneRun(d: Decoders, runs: seq<ClaimRun>, root: string, k: nat)
    requires DistinctRuns(runs) && k < |runs| && runs[k].runId == root
    ensures RootCards(d, runs, root) == Cards(d, runs[k].proposals)
    decreases |runs|
  {
    hide Cards;
    var n := |runs| - 1;
    if k < n {
      RootIsOneRun(d, runs[..n], root, k);
    } else {
      NoRoot(d, runs[..n], root);
    }
  }

  lemma {:induction false} NoRoot(d: Decoders, runs: seq<ClaimRun>, root: string)
    requires forall i | 0 <= i < |runs| :: runs[i].runId != root
    ensures RootCards(d, runs, root) == 0
    decreases |runs|
  {
    hide Cards;
    if runs != [] { NoRoot(d, runs[..|runs| - 1], root); }
  }

  method FindRun(runs: seq<ClaimRun>, id: string) returns (k: nat)
    ensures k < |runs| ==> runs[k].runId == id
    ensures k >= |runs| ==> forall i | 0 <= i < |runs| :: runs[i].runId != id
  {
    for i := 0 to |runs|
      invariant forall j | 0 <= j < i :: runs[j].runId != id
    {
      if runs[i].runId == id {
        return i;
      }
    }
    return |runs|;
  }

  /** The root's own reads in a decision. */
  function ReadsOf(actions: seq<AcceptedAction>): nat {
    if actions == [] then 0
    else
      var last := actions[|actions| - 1];
      ReadsOf(actions[..|actions| - 1]) + (if Succeeds(last) && IsRead(last.name) then 1 else 0)
  }

  // ----- Who is collected, said without the loops -----

  predicate Completed(agents: seq<Observation>, id: string) {
    exists i :: 0 <= i < |agents| && agents[i].completed && agents[i].agentId == id
  }

  /** A successful wait_agent reports the subagent completed. */
  predicate Reports(d: Decoders, action: AcceptedAction, id: string) {
    action.name == "wait_agent" && Succeeds(action) && Completed(d.observed(action.result.value.output), id)
  }

  predicate ReportedIn(d: Decoders, actions: seq<AcceptedAction>, id: string) {
    exists i :: 0 <= i < |actions| && Reports(d, actions[i], id)
  }

  predicate Reported(d: Decoders, proposals: seq<AcceptedProposal>, id: string) {
    exists k :: 0 <= k < |proposals| && ReportedIn(d, proposals[k].actions, id)
  }

  /** The subagents of the tree among those reported completed by one result, and by the
      results of one decision. */
  function CompletedAmong(runs: seq<ClaimRun>, root: string, agents: seq<Observation>): set<string> {
    set id | id in ChildrenOf(runs, root) && Completed(agents, id)
  }

  function ReportedAmong(d: Decoders, runs: seq<ClaimRun>, root: string, actions: seq<AcceptedAction>): set<string> {
    set id | id in ChildrenOf(runs, root) && ReportedIn(d, actions, id)
  }

  /** The subagents of the tree that these decisions report completed. */
  function CollectedBy(d: Decoders, runs: seq<ClaimRun>, root: string, proposals: seq<AcceptedProposal>): set<string> {
    set id | id in ChildrenOf(runs, root) && Reported(d, proposals, id)
  }

  /** The subagents first reported completed in decision k. */
  function FirstCollected(
    d: Decoders, runs: seq<ClaimRun>, root: string, proposals: seq<AcceptedProposal>, k: nat): set<string>
    requires k < |proposals|
  {
    CollectedBy(d, runs, root, proposals[..k + 1]) - CollectedBy(d, runs, root, proposals[..k])
  }

  /** Decision k with its own cards and those of the subagents it was the first to
      report completed. */
  function RoundOf(d: Decoders, runs: seq<ClaimRun>, root: string, proposals: seq<AcceptedProposal>, k: nat): Round
    requires k < |proposals|
  {
    var first := FirstCollected(d, runs, root, proposals, k);
    Round(proposals[k].no, ReadsOf(proposals[k].actions), |first|,
      CardsOf(d, proposals[k].actions) + ChildCards(d, runs, root, first))
  }

  predicate IsNews(round: Round) {
    round.evidenceReads > 0 || round.readersCollected > 0 || round.newCards > 0
  }

  /** The rounds of the first k decisions that read or collected anything. */
  function RoundsOf(
    d: Decoders, runs: seq<ClaimRun>, root: string, proposals: seq<AcceptedProposal>, k: nat): seq<Round>
    requires k <= |proposals|
  {
    if k == 0 then []
    else
      var round := RoundOf(d, runs, root, proposals, k - 1);
      RoundsOf(d, runs, root, proposals, k - 1) + (if IsNews(round) then [round] else [])
  }

  lemma {:induction false} DisjointCards(d: Decoders, runs: seq<ClaimRun>, root: string, a: set<string>, b: set<string>)
    requires a !! b
    ensures ChildCards(d, runs, root, a + b) == ChildCards(d, runs, root, a) + ChildCards(d, runs, root, b)
    decreases |runs|
  {
    hide Cards;
    if runs != [] {
      DisjointCards(d, runs[..|runs| - 1], root, a, b);
    }
  }

  lemma ReportedOneMore(d: Decoders, proposals: seq<AcceptedProposal>, k: nat, id: string)
    requires k < |proposals|
    ensures Reported(d, proposals[..k + 1], id) <==>
      Reported(d, proposals[..k], id) || ReportedIn(d, proposals[k].actions, id)
  {
    hide ReportedIn;
    if Reported(d, proposals[..k], id) {
      var i :| 0 <= i < k && ReportedIn(d, proposals[..k][i].actions, id);
      assert proposals[..k + 1][i] == proposals[..k][i];
    }
    if ReportedIn(d, proposals[k].actions, id) {
      assert proposals[..k + 1][k] == proposals[k];
    }
    if Reported(d, proposals[..k + 1], id) {
      var i :| 0 <= i < k + 1 && ReportedIn(d, proposals[..k + 1][i].actions, id);
      assert i < k ==> proposals[..k][i] == proposals[..k + 1][i];
    }
  }

  lemma CollectedOneMore(d: Decoders, runs: seq<ClaimRun>, root: string, proposals: seq<AcceptedProposal>, k: nat)
    requires k < |proposals|
    ensures CollectedBy(d, runs, root, proposals[..k + 1]) ==
      CollectedBy(d, runs, root, proposals[..k]) + ReportedAmong(d, runs, root, proposals[k].actions)
  {
    hide Reported, ReportedIn;
    forall id ensures Reported(d, proposals[..k + 1], id) <==>
      Reported(d, proposals[..k], id) || ReportedIn(d, proposals[k].actions, id) {
      ReportedOneMore(d, proposals, k, id);
    }
  }

  lemma ReportedInOneMore(d: Decoders, actions: seq<AcceptedAction>, i: nat, id: string)
    requires i < |actions|
    ensures ReportedIn(d, actions[..i + 1], id) <==> ReportedIn(d, actions[..i], id) || Reports(d, actions[i], id)
  {
    hide Reports;
    assert forall j | 0 <= j < i :: actions[..i + 1][j] == actions[..i][j];
    assert actions[..i + 1][i] == actions[i];
    if ReportedIn(d, actions[..i], id) {
      var j :| 0 <= j < i && Reports(d, actions[..i][j], id);
      assert Reports(d, actions[..i + 1][j], id);
    }
    if ReportedIn(d, actions[..i + 1], id) {
      var j :| 0 <= j < i + 1 && Reports(d, actions[..i + 1][j], id);
      assert j < i ==> Reports(d, actions[..i][j], id);
    }
  }

  /** Cards and reads are numbers of actions. */
  lemma {:induction false} CardsOfCounts(d: Decoders, actions: seq<AcceptedAction>)
    ensures CardsOf(d, actions) == |set i | 0 <= i < |actions| && IsCard(d, actions[i])|
    decreases |actions|
  {
    hide IsCard;
    if actions != [] {
      var n := |actions| - 1;
      CardsOfCounts(d, actions[..n]);
      var before := set i | 0 <= i < n && IsCard(d, actions[..n][i]);
      var all := set i | 0 <= i < |actions| && IsCard(d, actions[i]);
      assert all == if IsCard(d, actions[n]) then before + {n} else before;
    }
  }

  lemma {:induction false} ReadsOfCounts(actions: seq<AcceptedAction>)
    ensures ReadsOf(actions) == |set i | 0 <= i < |actions| && Succeeds(actions[i]) && IsRead(actions[i].name)|
    decreases |actions|
  {
    hide Succeeds, IsRead;
    if actions != [] {
      var n := |actions| - 1;
      ReadsOfCounts(actions[..n]);
      var before := set i | 0 <= i < n && Succeeds(actions[..n][i]) && IsRead(actions[..n][i].name);
      var all := set i | 0 <= i < |actions| && Succeeds(actions[i]) && IsRead(actions[i].name);
      assert all == if Succeeds(actions[n]) && IsRead(actions[n].name) then before + {n} else before;
    }
  }

  // ----- Measuring -----

  /** What one wait_agent result adds: exactly the subagents of the tree that it reports
      completed are collected, each the first time and never again. */
  method CollectAgents(
    d: Decoders, runs: seq<ClaimRun>, root: string, agents: seq<Observation>, collectedBefore: set<string>)
    returns (collected: set<string>, readers: nat, cards: nat)
    requires DistinctRuns(runs)
    ensures collected == collectedBefore + CompletedAmong(runs, root, agents)
    ensures |collected| == |collectedBefore| + readers
    ensures ChildCards(d, runs, root, collected) == ChildCards(d, runs, root, collectedBefore) + cards
  {
    hide Cards, Completed, ChildrenOf;
    collected, readers, cards := collectedBefore, 0, 0;
    NobodyCompleted(agents);
    for i := 0 to |agents|
      invariant collected == collectedBefore + CompletedAmong(runs, root, agents[..i])
      invariant |collected| == |collectedBefore| + readers
      invariant ChildCards(d, runs, root, collected) == ChildCards(d, runs, root, collectedBefore) + cards
    {
      CompletedOneMore(agents, i);
      var agent := agents[i];
      if !agent.completed || agent.agentId in collected {
        continue;
      }
      var k := FindRun(runs, agent.agentId);
      if k < |runs| && agent.agentId != root {
        CollectOne(d, runs, root, collected, k);
        collected := collected + {agent.agentId};
        readers := readers + 1;
        var found := CountUsableResearchCards(d, runs[k].proposals);
        cards := cards + found;
      }
    }
    assert agents[..|agents|] == agents;
  }

  lemma NobodyCompleted(agents: seq<Observation>)
    ensures forall id :: !Completed(agents[..0], id)
  {
  }

  lemma CompletedOneMore(agents: seq<Observation>, i: nat)
    requires i < |agents|
    ensures forall id :: Completed(agents[..i + 1], id) <==>
      Completed(agents[..i], id) || (agents[i].completed && agents[i].agentId == id)
  {
    var front, longer := agents[..i], agents[..i + 1];
    assert forall j | 0 <= j < i :: longer[j] == front[j];
    assert longer[i] == agents[i];
    forall id ensures Completed(longer, id) <==>
      Completed(front, id) || (agents[i].completed && agents[i].agentId == id) {
      if Completed(front, id) {
        var j :| 0 <= j < i && front[j].completed && front[j].agentId == id;
        assert longer[j].completed;
      }
      if agents[i].completed && agents[i].agentId == id {
        assert longer[i].completed;
      }
      if Completed(longer, id) {
        var j :| 0 <= j < i + 1 && longer[j].completed && longer[j].agentId == id;
        assert j < i ==> front[j].completed;
      }
    }
  }

  predicate IsRead(name: string) {
    name in ["read_url", "read_document_pages", "read_source", "search_evidence", "search_text"]
  }

  /** One decision of the root. */
  method MeasureRound(
    d: Decoders, runs: seq<ClaimRun>, root: string, proposal: AcceptedProposal, collectedBefore: set<string>)
    returns (round: Round, collected: set<string>)
    requires DistinctRuns(runs)
    ensures collected == collectedBefore + ReportedAmong(d, runs, root, proposal.actions)
    ensures |collected| == |collectedBefore| + round.readersCollected
    ensures round.decision == proposal.no && round.evidenceReads == ReadsOf(proposal.actions)
    ensures round.newCards + ChildCards(d, runs, root, collectedBefore) ==
      CardsOf(d, proposal.actions) + ChildCards(d, runs, root, collected)
  {
    hide Cards, CardsOf, ChildCards, Succeeds, ChildrenOf, Completed, CompletedAmong, ReportedAmong, IsRead;
    hide DistinctRuns;
    var own := CountUsableResearchCards(d, [proposal]);
    OneDecision(d, proposal);
    round := Round(proposal.no, 0, 0, own);
    collected := collectedBefore;
    NothingReported(d, runs, root, proposal.actions);
    for i := 0 to |proposal.actions|
      invariant collected == collectedBefore + ReportedAmong(d, runs, root, proposal.actions[..i])
      invariant |collected| == |collectedBefore| + round.readersCollected
      invariant round.decision == proposal.no && round.evidenceReads == ReadsOf(proposal.actions[..i])
      invariant round.newCards + ChildCards(d, runs, root, collectedBefore) ==
        own + ChildCards(d, runs, root, collected)
    {
      var action := proposal.actions[i];
      assert proposal.actions[..i + 1][..i] == proposal.actions[..i];
      ReportedByOneMore(d, runs, root, proposal.actions, i);
      if !Succeeds(action) {
        continue;
      }
      if IsRead(action.name) {
        round := round.(evidenceReads := round.evidenceReads + 1);
      }
      if action.name != "wait_agent" {
        continue;
      }
      SuccessHasResult(action);
      var readers, cards;
      collected, readers, cards := CollectAgents(d, runs, root, d.observed(action.result.value.output), collected);
      round := round.(readersCollected := round.readersCollected + readers, newCards := round.newCards + cards);
    }
    assert proposal.actions[..|proposal.actions|] == proposal.actions;
  }

  lemma NothingReported(d: Decoders, runs: seq<ClaimRun>, root: string, actions: seq<AcceptedAction>)
    ensures ReportedAmong(d, runs, root, actions[..0]) == {}
  {
  }

  lemma ReportedByOneMore(d: Decoders, runs: seq<ClaimRun>, root: string, actions: seq<AcceptedAction>, i: nat)
    requires i < |actions|
    ensures ReportedAmong(d, runs, root, actions[..i + 1]) ==
      ReportedAmong(d, runs, root, actions[..i]) +
      (if actions[i].name == "wait_agent" && Succeeds(actions[i])
       then CompletedAmong(runs, root, d.observed(actions[i].result.value.output)) else {})
  {
    hide ReportedIn, Completed, ChildrenOf;
    var now := if actions[i].name == "wait_agent" && Succeeds(actions[i])
      then CompletedAmong(runs, root, d.observed(actions[i].result.value.output)) else {};
    forall id ensures id in ReportedAmong(d, runs, root, actions[..i + 1]) <==>
      id in ReportedAmong(d, runs, root, actions[..i]) || id in now
    {
      ReportedInOneMore(d, actions, i, id);
      assert id in now <==> id in ChildrenOf(runs, root) && Reports(d, actions[i], id);
    }
  }

  lemma SuccessHasResult(action: AcceptedAction)
    requires Succeeds(action)
    ensures action.result.Some?
  {
  }

  lemma OneDecision(d: Decoders, proposal: AcceptedProposal)
    ensures Cards(d, [proposal]) == CardsOf(d, proposal.actions)
  {
    hide CardsOf;
    assert [proposal][..0] == [];
    assert Cards(d, []) == 0;
  }

  method UncollectedCards(d: Decoders, runs: seq<ClaimRun>, root: string, collected: set<string>) returns (cards: nat)
    ensures cards == ChildCards(d, runs, root, ChildrenOf(runs, root) - collected)
  {
    hide Cards, ChildrenOf;
    cards := 0;
    var others := ChildrenOf(runs, root) - collected;
    for i := 0 to |runs|
      invariant cards == ChildCards(d, runs[..i], root, others)
    {
      assert runs[..i + 1][..i] == runs[..i];
      if runs[i].runId != root && runs[i].runId !in collected {
        assert runs[i].runId in others;
        var found := CountUsableResearchCards(d, runs[i].proposals);
        cards := cards + found;
      }
    }
    assert runs[..|runs|] == runs;
  }

  /** Each round counts the root's own cards of a decision and those of exactly the
      subagents first reported completed in it; uncollected are the cards of exactly
      the subagents never reported so. Together they are the usable cards of the
      whole tree, however often a subagent is reported; without the root in the tree
      nothing is counted. */
  method MeasureResearchSaturation(d: Decoders, runs: seq<ClaimRun>, root: string) returns (s: Saturation)
    requires DistinctRuns(runs)
    ensures (exists k :: 0 <= k < |runs| && runs[k].runId == root) ==>
      NewCards(s.rounds) + s.uncollected == TreeCards(d, runs)
    ensures forall k | 0 <= k < |runs| && runs[k].runId == root ::
      s.rounds == RoundsOf(d, runs, root, runs[k].proposals, |runs[k].proposals|)
    ensures forall k | 0 <= k < |runs| && runs[k].runId == root ::
      s.uncollected == ChildCards(d, runs, root, ChildrenOf(runs, root) - CollectedBy(d, runs, root, runs[k].proposals))
    ensures (forall k | 0 <= k < |runs| :: runs[k].runId != root) ==> s == Saturation([], 0)
    ensures forall r :: r in s.rounds ==> IsNews(r)
  {
    hide Cards, CardsOf, ChildCards, TreeCards, RootCards, CollectedBy, ReadsOf, ChildrenOf, ReportedAmong, NewCards;
    var k := FindRun(runs, root);
    if k >= |runs| {
      return Saturation([], 0);
    }
    var proposals := runs[k].proposals;
    var rounds: seq<Round> := [];
    var collected: set<string> := {};
    NothingCollected(d, runs, root, proposals);
    assert NewCards([]) == 0 by { NoRounds(); }
    for i := 0 to |proposals|
      invariant NewCards(rounds) == Cards(d, proposals[..i]) + ChildCards(d, runs, root, collected)
      invariant rounds == RoundsOf(d, runs, root, proposals, i)
      invariant collected == CollectedBy(d, runs, root, proposals[..i])
      invariant forall r :: r in rounds ==> IsNews(r)
    {
      OneMoreDecision(d, proposals, i);
      CollectedOneMore(d, runs, root, proposals, i);
      ghost var before := collected;
      var round;
      round, collected := MeasureRound(d, runs, root, proposals[i], collected);
      FirstAreTheRest(d, runs, root, before, collected);
      if round.evidenceReads > 0 || round.readersCollected > 0 || round.newCards > 0 {
        NewCardsOneMore(rounds, round);
        rounds := rounds + [round];
      }
    }
    assert proposals[..|proposals|] == proposals;
    var uncollected := UncollectedCards(d, runs, root, collected);
    WholeTree(d, runs, root, collected, ChildrenOf(runs, root) - collected);
    RootIsOneRun(d, runs, root, k);
    return Saturation(rounds, uncollected);
  }

  lemma NoRounds()
    ensures NewCards([]) == 0
  {
  }

  lemma FirstAreTheRest(d: Decoders, runs: seq<ClaimRun>, root: string, before: set<string>, after: set<string>)
    requires before <= after
    ensures ChildCards(d, runs, root, after) ==
      ChildCards(d, runs, root, before) + ChildCards(d, runs, root, after - before)
    ensures |after - before| == |after| - |before|
  {
    DisjointCards(d, runs, root, before, after - before);
    assert after == before + (after - before);
  }

  lemma OneMoreDecision(d: Decoders, proposals: seq<AcceptedProposal>, i: nat)
    requires i < |proposals|
    ensures Cards(d, proposals[..i + 1]) == Cards(d, proposals[..i]) + CardsOf(d, proposals[i].actions)
  {
    hide CardsOf;
    assert proposals[..i + 1][..i] == proposals[..i];
  }

  lemma {:induction false} NoCards(d: Decoders, runs: seq<ClaimRun>, root: string)
    ensures ChildCards(d, runs, root, {}) == 0
    decreases |runs|
  {
    if runs != [] { NoCards(d, runs[..|runs| - 1], root); }
  }

  lemma NothingCollected(d: Decoders, runs: seq<ClaimRun>, root: string, proposals: seq<AcceptedProposal>)
    ensures ChildCards(d, runs, root, {}) == 0 && Cards(d, proposals[..0]) == 0
    ensures CollectedBy(d, runs, root, proposals[..0]) == {}
  {
    NoCards(d, runs, root);
  }

  /** A tree without its root reports nothing although it has a card. */
  lemma RootMustBeInTheTree(d: Decoders, output: Raw)
    requires d.usableCard(output)
    ensures var card := AcceptedAction(Identities.Blank, 0, "record_claim", NoBytes,
      Some(ActionResult(Succeeded, output, "", None)));
      var runs := [ClaimRun("child", [AcceptedProposal(1, [card])])];
      DistinctRuns(runs) && TreeCards(d, runs) == 1 && forall k | 0 <= k < |runs| :: runs[k].runId != "root"
  {
    var card := AcceptedAction(Identities.Blank, 0, "record_claim", NoBytes,
      Some(ActionResult(Succeeded, output, "", None)));
    var runs := [ClaimRun("child", [AcceptedProposal(1, [card])])];
    assert runs[..0] == [] && [card][..0] == [] && runs[0].proposals[..0] == [];
    assert CardsOf(d, [card]) == 1;
    OneDecision(d, AcceptedProposal(1, [card]));
  }
}

/** Several workers compact one chat's lane while it grows: their compactions form
    one chain that accounts for every unit. */
module CompactionChain {
  import opened Basics
  import opened Checkpoints
  import opened ContextProjection
  import opened ProjectionKeys
  import opened Compaction

  /** The chat's lane, the stored chain, and candidates that workers built but have
      not appended yet. */
  datatype Chat = Chat(lane: seq<ContextUnit>, chain: seq<ContextCompaction>, built: seq<ContextCompaction>)

  const EMPTY_CHAT := Chat([], [], [])

  /** A lane grows at its end; a worker sees the first `seen` units and the latest
      compaction of its moment; an append may come at any later time. */
  datatype ChatEvent =
    | Grow(unit: ContextUnit)
    | Prepare(seen: nat, cut: nat, policy: string, text: string)
    | Append(which: nat)

  predicate NewKey(lane: seq<ContextUnit>, unit: ContextUnit) {
    forall i | 0 <= i < |lane| :: ContextUnitKey(lane[i]) != ContextUnitKey(unit)
  }

  function After(chat: Chat, event: ChatEvent): Chat {
    match event
    case Grow(unit) => if NewKey(chat.lane, unit) then chat.(lane := chat.lane + [unit]) else chat
    case Prepare(seen, cut, policy, text) =>
      if seen > |chat.lane| || IsBlank(text) then chat
      else
        var units := chat.lane[..seen];
        var latest := Latest(chat.chain);
        if latest.Some? && Applied(units, latest.value).None? then chat
        else
          var from := StartOf(units, latest);
          if 0 <= from < cut < |units|
          then chat.(built := chat.built + [Candidate(units, cut, latest, from, policy, text)]) else chat
    case Append(which) =>
      if which < |chat.built| then chat.(chain := CompareAndAppend(chat.chain, chat.built[which]).chain) else chat
  }

  function History(events: seq<ChatEvent>): Chat {
    if events == [] then EMPTY_CHAT else After(History(events[..|events| - 1]), events[|events| - 1])
  }

  /** Where a compaction cuts the lane. */
  function CutOf(lane: seq<ContextUnit>, c: ContextCompaction): int {
    IndexOf(lane, c.suffixStart)
  }

  function CutBefore(lane: seq<ContextUnit>, chain: seq<ContextCompaction>, k: nat): int
    requires k <= |chain|
  {
    if k == 0 then 0 else CutOf(lane, chain[k - 1])
  }

  function IdBefore(chain: seq<ContextCompaction>, k: nat): Id
    requires k <= |chain|
  {
    if k == 0 then NoId else chain[k - 1].id
  }

  function SummaryBefore(chain: seq<ContextCompaction>, k: nat): Option<Summary>
    requires k <= |chain|
  {
    if k == 0 then None else Some(chain[k - 1].summary)
  }

  /** Made from exactly these, with a text that is not blank. */
  predicate Tells(s: Summary, prior: Option<Summary>, units: seq<ContextUnit>) {
    s.prior == prior && s.units == units && !IsBlank(s.text)
  }

  ghost predicate Linked(chain: seq<ContextCompaction>, k: nat, c: ContextCompaction) {
    k <= |chain| && c.id.Cmp? && c.id.predecessor == c.predecessorId == IdBefore(chain, k)
  }

  /** The keys of `c` stand at its cut, which is inside the lane. */
  ghost predicate Cuts(lane: seq<ContextUnit>, c: ContextCompaction) {
    var cut := CutOf(lane, c);
    0 < cut < |lane| && c.summarizedThrough == ContextUnitKey(lane[cut - 1]) &&
    c.suffixStart == ContextUnitKey(lane[cut])
  }

  /** `c` follows the first k compactions: it cuts later than they did and
      summarizes exactly the units in between. */
  ghost predicate Follows(lane: seq<ContextUnit>, chain: seq<ContextCompaction>, k: nat, c: ContextCompaction) {
    Linked(chain, k, c) && Cuts(lane, c) && 0 <= CutBefore(lane, chain, k) < CutOf(lane, c) &&
    Tells(c.summary, SummaryBefore(chain, k), lane[CutBefore(lane, chain, k)..CutOf(lane, c)])
  }

  ghost predicate ChainOk(lane: seq<ContextUnit>, chain: seq<ContextCompaction>) {
    forall k | 0 <= k < |chain| :: Follows(lane, chain, k, chain[k])
  }

  ghost predicate SomewhereFollows(lane: seq<ContextUnit>, chain: seq<ContextCompaction>, c: ContextCompaction) {
    exists k :: 0 <= k <= |chain| && Follows(lane, chain, k, c)
  }

  ghost predicate ChatOk(chat: Chat) {
    DistinctKeys(chat.lane) && ChainOk(chat.lane, chat.chain) &&
    forall i | 0 <= i < |chat.built| :: SomewhereFollows(chat.lane, chat.chain, chat.built[i])
  }

  // ----- The lane grows -----

  lemma CutsInLongerLane(lane: seq<ContextUnit>, longer: seq<ContextUnit>, c: ContextCompaction)
    requires lane <= longer && DistinctKeys(longer) && Cuts(lane, c)
    ensures Cuts(longer, c) && CutOf(longer, c) == CutOf(lane, c)
  {
    hide ContextUnitKey, IndexOf;
    FoundAt(longer, CutOf(lane, c));
  }

  lemma FollowsInLongerLane(
    lane: seq<ContextUnit>, longer: seq<ContextUnit>, chain: seq<ContextCompaction>, k: nat, c: ContextCompaction)
    requires lane <= longer && DistinctKeys(longer) && Follows(lane, chain, k, c)
    requires (k > 0 ==> Cuts(lane, chain[k - 1]))
    ensures Follows(longer, chain, k, c)
    ensures CutOf(longer, c) == CutOf(lane, c) && CutBefore(longer, chain, k) == CutBefore(lane, chain, k)
  {
    hide Cuts, CutOf;
    CutsInLongerLane(lane, longer, c);
    if k > 0 {
      CutsInLongerLane(lane, longer, chain[k - 1]);
    }
    CutIsInside(lane, c);
    assert longer[CutBefore(lane, chain, k)..CutOf(lane, c)] == lane[CutBefore(lane, chain, k)..CutOf(lane, c)];
  }

  lemma CutIsInside(lane: seq<ContextUnit>, c: ContextCompaction)
    requires Cuts(lane, c)
    ensures 0 < CutOf(lane, c) < |lane|
  {
  }

  lemma FollowsGives(lane: seq<ContextUnit>, chain: seq<ContextCompaction>, k: nat, c: ContextCompaction)
    requires Follows(lane, chain, k, c)
    ensures Linked(chain, k, c) && Cuts(lane, c) && 0 <= CutBefore(lane, chain, k) < CutOf(lane, c) < |lane|
    ensures Tells(c.summary, SummaryBefore(chain, k), lane[CutBefore(lane, chain, k)..CutOf(lane, c)])
  {
    hide IndexOf;
  }

  lemma GrowKeeps(chat: Chat, unit: ContextUnit)
    requires ChatOk(chat) && NewKey(chat.lane, unit)
    ensures ChatOk(chat.(lane := chat.lane + [unit]))
  {
    hide ContextUnitKey, Follows, Cuts;
    var longer := chat.lane + [unit];
    forall k | 0 <= k < |chat.chain| ensures Cuts(chat.lane, chat.chain[k]) {
      FollowsGives(chat.lane, chat.chain, k, chat.chain[k]);
    }
    forall k | 0 <= k < |chat.chain| ensures Follows(longer, chat.chain, k, chat.chain[k]) {
      FollowsInLongerLane(chat.lane, longer, chat.chain, k, chat.chain[k]);
    }
    forall i | 0 <= i < |chat.built| ensures SomewhereFollows(longer, chat.chain, chat.built[i]) {
      var k :| 0 <= k <= |chat.chain| && Follows(chat.lane, chat.chain, k, chat.built[i]);
      FollowsInLongerLane(chat.lane, longer, chat.chain, k, chat.built[i]);
    }
  }

  // ----- A worker builds a candidate from what it sees -----

  /** A compaction shows on a shorter lane exactly when the lane reaches past its
      cut; a lane that ends before is an error. */
  lemma AppliesExactlyPastItsCut(lane: seq<ContextUnit>, c: ContextCompaction, seen: nat)
    requires DistinctKeys(lane) && Cuts(lane, c) && seen <= |lane| && !IsBlank(c.summary.text)
    ensures Applied(lane[..seen], c).Some? <==> CutOf(lane, c) < seen
    ensures CutOf(lane, c) < seen ==>
      IndexOf(lane[..seen], c.suffixStart) == CutOf(lane, c) &&
      Applied(lane[..seen], c) == Some([Summarized(c.summary)] + ExactAll(lane[CutOf(lane, c)..seen]))
  {
    hide IndexOf, ContextUnitKey;
    var cut, units := CutOf(lane, c), lane[..seen];
    KeysNameUnits(lane[cut], lane[cut - 1]);
    KeysNameUnits(lane[cut - 1], lane[cut]);
    if cut < seen {
      assert units[cut] == lane[cut] && units[cut - 1] == lane[cut - 1];
      FoundAt(units, cut);
      FoundAt(units, cut - 1);
      assert units[cut..] == lane[cut..seen];
    } else {
      SeenIsDifferent(lane, seen, cut);
    }
  }

  lemma SeenIsDifferent(lane: seq<ContextUnit>, seen: nat, cut: nat)
    requires DistinctKeys(lane) && seen <= cut < |lane|
    ensures IndexOf(lane[..seen], ContextUnitKey(lane[cut])) == -1
  {
    hide ContextUnitKey;
    forall i | 0 <= i < seen ensures Keys(lane[..seen])[i] != ContextUnitKey(lane[cut]) {
      assert lane[..seen][i] == lane[i];
    }
  }

  lemma StartOfShorterLane(chat: Chat, seen: nat)
    requires ChatOk(chat) && seen <= |chat.lane|
    requires (Latest(chat.chain).Some? ==> Applied(chat.lane[..seen], Latest(chat.chain).value).Some?)
    ensures StartOf(chat.lane[..seen], Latest(chat.chain)) == CutBefore(chat.lane, chat.chain, |chat.chain|)
  {
    hide ContextUnitKey, IndexOf, Applied, Follows, Cuts, SomewhereFollows;
    var n := |chat.chain|;
    if n > 0 {
      FollowsGives(chat.lane, chat.chain, n - 1, chat.chain[n - 1]);
      AppliesExactlyPastItsCut(chat.lane, chat.chain[n - 1], seen);
    }
  }

  lemma CandidateCuts(
    lane: seq<ContextUnit>, seen: nat, cut: nat, latest: Option<ContextCompaction>, from: nat, policy: string,
    text: string)
    requires DistinctKeys(lane) && from < cut < seen <= |lane|
    ensures var c := Candidate(lane[..seen], cut, latest, from, policy, text);
      Cuts(lane, c) && CutOf(lane, c) == cut && c.summary.units == lane[from..cut]
  {
    hide ContextUnitKey, IndexOf;
    FoundAt(lane, cut);
    assert lane[..seen][from..cut] == lane[from..cut];
  }

  lemma PreparedFollows(chat: Chat, seen: nat, cut: nat, policy: string, text: string)
    requires ChatOk(chat) && seen <= |chat.lane| && !IsBlank(text)
    requires Latest(chat.chain).Some? ==> Applied(chat.lane[..seen], Latest(chat.chain).value).Some?
    requires 0 <= StartOf(chat.lane[..seen], Latest(chat.chain)) < cut < seen
    ensures var units := chat.lane[..seen];
      Follows(chat.lane, chat.chain, |chat.chain|,
        Candidate(units, cut, Latest(chat.chain), StartOf(units, Latest(chat.chain)), policy, text))
  {
    hide ContextUnitKey, IndexOf, Applied, Cuts, ChainOk, SomewhereFollows, StartOf, CutOf;
    StartOfShorterLane(chat, seen);
    CandidateCuts(chat.lane, seen, cut, Latest(chat.chain), CutBefore(chat.lane, chat.chain, |chat.chain|), policy,
      text);
  }

  // ----- Compare and append -----

  function Depth(id: Id): nat {
    if id.NoId? then 0 else 1 + Depth(id.predecessor)
  }

  lemma {:induction false} DepthIsPosition(lane: seq<ContextUnit>, chain: seq<ContextCompaction>, k: nat)
    requires ChainOk(lane, chain) && k <= |chain|
    ensures Depth(IdBefore(chain, k)) == k
  {
    hide Follows, Cuts;
    if k > 0 {
      DepthIsPosition(lane, chain, k - 1);
      FollowsGives(lane, chain, k - 1, chain[k - 1]);
    }
  }

  /** A candidate built on the latest compaction is appended behind it, and a candidate built
      on any other is not appended and gets the latest instead. */
  lemma AppendedExactlyBehindTheLatest(chat: Chat, which: nat)
    requires ChatOk(chat) && which < |chat.built|
    ensures var c := chat.built[which];
      CompareAndAppend(chat.chain, c) ==
      if c.predecessorId == IdBefore(chat.chain, |chat.chain|) then Appended(chat.chain + [c], Some(c))
      else Appended(chat.chain, Latest(chat.chain))
  {
    hide ContextUnitKey, Follows, ById, ChainOk;
    var c := chat.built[which];
    assert SomewhereFollows(chat.lane, chat.chain, c);
    if c.predecessorId == IdBefore(chat.chain, |chat.chain|) {
      AppendedFollowsTheLatest(chat.lane, chat.chain, c);
    }
  }

  /** A candidate is appended only behind the compaction it was built on. */
  lemma AppendedFollowsTheLatest(lane: seq<ContextUnit>, chain: seq<ContextCompaction>, c: ContextCompaction)
    requires ChainOk(lane, chain) && SomewhereFollows(lane, chain, c) && c.predecessorId == IdBefore(chain, |chain|)
    ensures Follows(lane, chain, |chain|, c) && ById(chain, c.id).None?
  {
    hide Follows, Cuts, Tells, CutOf, CutBefore;
    var k :| 0 <= k <= |chain| && Follows(lane, chain, k, c);
    FollowsGives(lane, chain, k, c);
    DepthIsPosition(lane, chain, k);
    DepthIsPosition(lane, chain, |chain|);
    forall i | 0 <= i < |chain| ensures chain[i].id != c.id {
      DepthIsPosition(lane, chain, i + 1);
    }
  }

  lemma FollowsInLongerChain(
    lane: seq<ContextUnit>, chain: seq<ContextCompaction>, more: ContextCompaction, k: nat, c: ContextCompaction)
    requires Follows(lane, chain, k, c)
    ensures Follows(lane, chain + [more], k, c)
  {
    hide Cuts, CutOf;
    assert k > 0 ==> (chain + [more])[k - 1] == chain[k - 1];
  }

  lemma AppendKeeps(chat: Chat, which: nat)
    requires ChatOk(chat) && which < |chat.built|
    ensures ChatOk(After(chat, Append(which)))
  {
    hide ContextUnitKey, Follows;
    var c := chat.built[which];
    var after := After(chat, Append(which));
    if after.chain != chat.chain {
      AppendedFollowsTheLatest(chat.lane, chat.chain, c);
      forall k | 0 <= k < |after.chain| ensures Follows(chat.lane, after.chain, k, after.chain[k]) {
        FollowsInLongerChain(chat.lane, chat.chain, c, k, after.chain[k]);
      }
      forall i | 0 <= i < |chat.built| ensures SomewhereFollows(chat.lane, after.chain, chat.built[i]) {
        var k :| 0 <= k <= |chat.chain| && Follows(chat.lane, chat.chain, k, chat.built[i]);
        FollowsInLongerChain(chat.lane, chat.chain, c, k, chat.built[i]);
      }
    }
  }

  lemma PrepareKeeps(chat: Chat, seen: nat, cut: nat, policy: string, text: string)
    requires ChatOk(chat)
    ensures ChatOk(After(chat, Prepare(seen, cut, policy, text)))
  {
    hide ContextUnitKey, Follows, IndexOf, Applied;
    if seen <= |chat.lane| && !IsBlank(text) {
      var units := chat.lane[..seen];
      var latest := Latest(chat.chain);
      if (latest.Some? ==> Applied(units, latest.value).Some?) && 0 <= StartOf(units, latest) < cut < seen {
        PreparedFollows(chat, seen, cut, policy, text);
      }
    }
  }

  lemma {:induction false} EveryHistoryIsOk(events: seq<ChatEvent>)
    ensures ChatOk(History(events))
    decreases |events|
  {
    hide After;
    if events != [] {
      var before, event := History(events[..|events| - 1]), events[|events| - 1];
      EveryHistoryIsOk(events[..|events| - 1]);
      EventKeeps(before, event);
    }
  }

  lemma EventKeeps(chat: Chat, event: ChatEvent)
    requires ChatOk(chat)
    ensures ChatOk(After(chat, event))
  {
    hide ContextUnitKey, Applied, CompareAndAppend, ChatOk;
    match event
    case Grow(unit) => if NewKey(chat.lane, unit) { GrowKeeps(chat, unit); }
    case Prepare(seen, cut, policy, text) => PrepareKeeps(chat, seen, cut, policy, text);
    case Append(which) => if which < |chat.built| { AppendKeeps(chat, which); }
  }

  // ----- Main results -----

  /** The compactions of a chat form one chain: each names the one before it, cuts
      strictly later, and summarizes the units between the two cuts together
      with the summary before. */
  lemma OneChainWithAdvancingCuts(events: seq<ChatEvent>, k: nat)
    requires k < |History(events).chain|
    ensures var chat := History(events);
      var c := chat.chain[k];
      var from, cut := CutBefore(chat.lane, chat.chain, k), CutOf(chat.lane, c);
      c.predecessorId == IdBefore(chat.chain, k) && 0 <= from < cut < |chat.lane| &&
      Tells(c.summary, SummaryBefore(chat.chain, k), chat.lane[from..cut])
  {
    hide History, ContextUnitKey, LastIndex;
    EveryHistoryIsOk(events);
    FollowsGives(History(events).lane, History(events).chain, k, History(events).chain[k]);
  }

  lemma {:induction false} SummariesTellTheFront(lane: seq<ContextUnit>, chain: seq<ContextCompaction>, k: nat)
    requires ChainOk(lane, chain) && k < |chain|
    ensures 0 < CutOf(lane, chain[k]) < |lane| && Told(chain[k].summary) == lane[..CutOf(lane, chain[k])]
  {
    hide Follows, Cuts, CutOf;
    FollowsGives(lane, chain, k, chain[k]);
    var from, cut := CutBefore(lane, chain, k), CutOf(lane, chain[k]);
    if k > 0 {
      SummariesTellTheFront(lane, chain, k - 1);
    }
    assert lane[..cut] == lane[..from] + lane[from..cut];
  }

  lemma {:induction false} ExactAccounts(summary: Summary, units: seq<ContextUnit>)
    ensures Accounted([Summarized(summary)] + ExactAll(units)) == Told(summary) + units
    decreases |units|
  {
    var shown := [Summarized(summary)] + ExactAll(units);
    if units == [] {
      assert shown == [Summarized(summary)] && shown[..0] == [];
      assert Accounted(shown) == [] + Told(summary);
      assert Told(summary) + units == Told(summary);
    } else {
      var n := |units| - 1;
      ExactAccounts(summary, units[..n]);
      assert shown[..|shown| - 1] == [Summarized(summary)] + ExactAll(units[..n]);
      assert units == units[..n] + [units[n]];
    }
  }

  /** Whatever a worker sees of the lane, projecting it through a stored compaction
      that applies tells or shows every unit exactly once, in order. */
  lemma EveryUnitIsAccountedFor(events: seq<ChatEvent>, k: nat, seen: nat)
    requires k < |History(events).chain| && seen <= |History(events).lane|
    requires Applied(History(events).lane[..seen], History(events).chain[k]).Some?
    ensures Accounted(Applied(History(events).lane[..seen], History(events).chain[k]).value) ==
      History(events).lane[..seen]
  {
    hide History, ChatOk;
    EveryHistoryIsOk(events);
    AccountedFor(History(events), k, seen);
  }

  lemma AccountedFor(chat: Chat, k: nat, seen: nat)
    requires ChatOk(chat) && k < |chat.chain| && seen <= |chat.lane| && Applied(chat.lane[..seen], chat.chain[k]).Some?
    ensures Accounted(Applied(chat.lane[..seen], chat.chain[k]).value) == chat.lane[..seen]
  {
    hide DistinctKeys, ContextUnitKey, IndexOf, Applied, Follows, Cuts, CutOf, SomewhereFollows, Told, Accounted;
    var lane, c := chat.lane, chat.chain[k];
    FollowsGives(lane, chat.chain, k, c);
    AppliesExactlyPastItsCut(lane, c, seen);
    SummariesTellTheFront(lane, chat.chain, k);
    ExactAccounts(c.summary, lane[CutOf(lane, c)..seen]);
    assert lane[..CutOf(lane, c)] + lane[CutOf(lane, c)..seen] == lane[..seen];
  }

  /** The latest compaction applies to a worker's lane exactly when that lane
      reaches past its cut; a worker behind it gets an error, not a wrong lane. */
  lemma LatestAppliesExactlyPastItsCut(events: seq<ChatEvent>, seen: nat)
    requires History(events).chain != [] && seen <= |History(events).lane|
    ensures var chat := History(events);
      var latest := Latest(chat.chain).value;
      Applied(chat.lane[..seen], latest).Some? <==> CutOf(chat.lane, latest) < seen
  {
    hide History, ContextUnitKey, LastIndex, Applied, Follows;
    EveryHistoryIsOk(events);
    var chat := History(events);
    FollowsGives(chat.lane, chat.chain, |chat.chain| - 1, chat.chain[|chat.chain| - 1]);
    AppliesExactlyPastItsCut(chat.lane, chat.chain[|chat.chain| - 1], seen);
  }
}

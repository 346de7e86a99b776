/** Compaction: an index over the raw lane that says which units are told by a
    summary and which are kept exact. */
module Compaction {
  import opened Basics
  import opened Checkpoints
  import opened ContextProjection
  import opened ProjectionKeys

  /** A summary's text with what the summarizer was given: the summary before it, if
      there was one, and the units after that. */
  datatype Summary = Summary(prior: Option<Summary>, units: seq<ContextUnit>, text: string)

  /** SHA-256 over the parts, as a function that never maps two lists of parts to
      one id. */
  datatype Id = NoId | Cmp(predecessor: Id, through: string, start: string, policy: string)

  datatype ContextCompaction = ContextCompaction(
    id: Id, predecessorId: Id, summary: Summary, summarizedThrough: string, suffixStart: string)

  datatype Shown = Summarized(summary: Summary) | Exact(unit: ContextUnit)

  /** All units a summary tells of. */
  function Told(s: Summary): seq<ContextUnit> {
    (if s.prior.Some? then Told(s.prior.value) else []) + s.units
  }

  function ExactAll(units: seq<ContextUnit>): (r: seq<Shown>)
    ensures |r| == |units| && forall i | 0 <= i < |r| :: r[i] == Exact(units[i])
  {
    seq(|units|, i requires 0 <= i < |units| => Exact(units[i]))
  }

  /** Everything a projected lane tells or shows. */
  function Accounted(shown: seq<Shown>): seq<ContextUnit> {
    if shown == [] then []
    else
      var last := shown[|shown| - 1];
      Accounted(shown[..|shown| - 1]) + (match last case Summarized(s) => Told(s) case Exact(u) => [u])
  }

  // ----- Choosing the cut -----

  function Estimates(estimate: ContextUnit -> nat, units: seq<ContextUnit>): (r: seq<nat>)
    ensures |r| == |units| && forall i | 0 <= i < |r| :: r[i] == Max(1, estimate(units[i]))
  {
    seq(|units|, i requires 0 <= i < |units| => if estimate(units[i]) > 1 then estimate(units[i]) else 1)
  }

  function SumFrom(tokens: seq<nat>, k: nat): nat
    requires k <= |tokens|
    decreases |tokens| - k
  {
    if k == |tokens| then 0 else tokens[k] + SumFrom(tokens, k + 1)
  }

  /** The kept suffix is the longest within the target, or the last unit alone,
      and something is left to summarize. */
  predicate IsCut(tokens: seq<nat>, keep: int, cut: nat) {
    0 < cut < |tokens| && (SumFrom(tokens, cut) <= keep || cut == |tokens| - 1) && SumFrom(tokens, cut - 1) > keep
  }

  lemma {:induction false} SumFromFalls(tokens: seq<nat>, j: nat, k: nat)
    requires j <= k <= |tokens|
    ensures SumFrom(tokens, j) >= SumFrom(tokens, k)
    decreases k - j
  {
    if j < k {
      SumFromFalls(tokens, j + 1, k);
    }
  }

  lemma CutIsUnique(tokens: seq<nat>, keep: int, a: nat, b: nat)
    requires IsCut(tokens, keep, a) && IsCut(tokens, keep, b)
    ensures a == b
  {
    if a < b { SumFromFalls(tokens, a, b - 1); }
    if b < a { SumFromFalls(tokens, b, a - 1); }
  }

  method SelectCompactionCut(tokens: seq<nat>, keepRecentTokens: int) returns (r: Option<nat>)
    requires forall i | 0 <= i < |tokens| :: tokens[i] >= 1
    ensures r.Some? ==> IsCut(tokens, keepRecentTokens, r.value)
    ensures r.None? <==> |tokens| < 2 || keepRecentTokens < 1 || SumFrom(tokens, 0) <= keepRecentTokens
  {
    if |tokens| < 2 || keepRecentTokens < 1 {
      return None;
    }
    var n := |tokens|;
    var used, cut := 0, n;
    var index := n - 1;
    while index >= 0
      invariant -1 <= index < n && cut == index + 1
      invariant used == SumFrom(tokens, cut) && (cut == n <==> used == 0)
      invariant used < keepRecentTokens
      decreases index
    {
      if used > 0 && used + tokens[index] > keepRecentTokens {
        break;
      }
      used := used + tokens[index];
      cut := index;
      if used >= keepRecentTokens {
        break;
      }
      index := index - 1;
    }
    if cut > 0 {
      SumFromFalls(tokens, 0, cut - 1);
    }
    if cut <= 0 || cut >= n {
      return None;
    }
    return Some(cut);
  }

  // ----- Finding boundaries -----

  function Keys(units: seq<ContextUnit>): (r: seq<string>)
    ensures |r| == |units| && forall i | 0 <= i < |r| :: r[i] == ContextUnitKey(units[i])
  {
    seq(|units|, i requires 0 <= i < |units| => ContextUnitKey(units[i]))
  }

  /** The last place of a key, or -1. */
  function LastIndex<T(==)>(keys: seq<T>, key: T): (r: int)
    ensures -1 <= r < |keys|
    ensures r >= 0 ==> keys[r] == key
    ensures forall i | r < i < |keys| :: keys[i] != key
  {
    if keys == [] then -1
    else
      var n := |keys| - 1;
      if keys[n] == key then n else LastIndex(keys[..n], key)
  }

  function IndexOf(units: seq<ContextUnit>, key: string): int {
    LastIndex(Keys(units), key)
  }

  function Applied(units: seq<ContextUnit>, c: ContextCompaction): Option<seq<Shown>> {
    var suffix, summary := IndexOf(units, c.suffixStart), IndexOf(units, c.summarizedThrough);
    if IsBlank(c.summary.text) || c.suffixStart == "" || c.summarizedThrough == "" || suffix < 1 ||
      summary != suffix - 1
    then None
    else Some([Summarized(c.summary)] + ExactAll(units[suffix..]))
  }

  method ApplyContextCompaction(units: seq<ContextUnit>, c: ContextCompaction) returns (r: Option<seq<Shown>>)
    ensures r == Applied(units, c)
  {
    hide ContextUnitKey;
    if IsBlank(c.summary.text) || c.suffixStart == "" || c.summarizedThrough == "" {
      return None;
    }
    var suffixIndex, summaryIndex := -1, -1;
    for index := 0 to |units|
      invariant suffixIndex == LastIndex(Keys(units)[..index], c.suffixStart)
      invariant summaryIndex == LastIndex(Keys(units)[..index], c.summarizedThrough)
    {
      assert Keys(units)[..index + 1][..index] == Keys(units)[..index];
      var key := ContextUnitKey(units[index]);
      if key == c.suffixStart {
        suffixIndex := index;
      }
      if key == c.summarizedThrough {
        summaryIndex := index;
      }
    }
    assert Keys(units)[..|units|] == Keys(units);
    if suffixIndex < 1 || summaryIndex != suffixIndex - 1 {
      return None;
    }
    return Some([Summarized(c.summary)] + ExactAll(units[suffixIndex..]));
  }

  /** The first unit with this key, or -1. */
  method ContextUnitIndex(units: seq<ContextUnit>, key: string) returns (r: int)
    ensures -1 <= r < |units|
    ensures r >= 0 ==> ContextUnitKey(units[r]) == key && forall i | 0 <= i < r :: ContextUnitKey(units[i]) != key
    ensures r == -1 ==> forall i | 0 <= i < |units| :: ContextUnitKey(units[i]) != key
    ensures DistinctKeys(units) ==> r == IndexOf(units, key)
  {
    hide ContextUnitKey;
    for index := 0 to |units|
      invariant forall i | 0 <= i < index :: ContextUnitKey(units[i]) != key
    {
      if ContextUnitKey(units[index]) == key {
        return index;
      }
    }
    return -1;
  }

  lemma FoundAt(units: seq<ContextUnit>, i: nat)
    requires DistinctKeys(units) && i < |units|
    ensures IndexOf(units, ContextUnitKey(units[i])) == i
  {
    hide ContextUnitKey;
    assert Keys(units)[i] == ContextUnitKey(units[i]);
  }

  // ----- Building a candidate -----

  /** What a cut at `cut` would store, given the compaction it follows. `from` is
      where the units begin that no earlier summary tells. */
  function Candidate(
    units: seq<ContextUnit>, cut: nat, latest: Option<ContextCompaction>, from: nat, policy: string, text: string)
    : ContextCompaction
    requires from <= cut && 0 < cut < |units|
  {
    var through, start := ContextUnitKey(units[cut - 1]), ContextUnitKey(units[cut]);
    var predecessor := if latest.Some? then latest.value.id else NoId;
    var summary := Summary(SummaryOf(latest), units[from..cut], text);
    ContextCompaction(Cmp(predecessor, through, start, policy), predecessor, summary, through, start)
  }

  /** A candidate always applies to the units it was built from. */
  lemma CandidateApplies(
    units: seq<ContextUnit>, cut: nat, latest: Option<ContextCompaction>, from: nat, policy: string, text: string)
    requires DistinctKeys(units) && from <= cut && 0 < cut < |units| && !IsBlank(text)
    ensures var c := Candidate(units, cut, latest, from, policy, text);
      Applied(units, c) == Some([Summarized(c.summary)] + ExactAll(units[cut..]))
  {
    hide ContextUnitKey, IndexOf;
    FoundAt(units, cut);
    FoundAt(units, cut - 1);
    KeysNameUnits(units[cut], units[cut - 1]);
    KeysNameUnits(units[cut - 1], units[cut]);
  }

  /** The unit from which the next compaction goes on. */
  function StartOf(units: seq<ContextUnit>, latest: Option<ContextCompaction>): int {
    if latest.Some? then IndexOf(units, latest.value.suffixStart) else 0
  }

  /** What the model would be given now. */
  function ShownNow(units: seq<ContextUnit>, latest: Option<ContextCompaction>): Option<seq<Shown>> {
    if latest.Some? then Applied(units, latest.value) else Some(ExactAll(units))
  }

  /** Something is left to summarize: from the latest cut on there is more than one
      unit, and more than what is to be kept exact. */
  predicate Progresses(tokens: seq<nat>, keep: int, from: int) {
    keep >= 1 && 0 <= from < |tokens| - 1 && SumFrom(tokens, from) > keep
  }

  /** The cut lies past `from` exactly when something is left to summarize there. */
  lemma CutProgresses(tokens: seq<nat>, keep: int, cut: nat, from: nat)
    requires keep >= 1 && IsCut(tokens, keep, cut) && from < |tokens|
    ensures from < cut <==> Progresses(tokens, keep, from)
  {
    if from < cut {
      SumFromFalls(tokens, from, cut - 1);
    } else {
      SumFromFalls(tokens, cut, from);
    }
  }

  /** The summarizer's answer for a cut, trimmed, if it came to one. */
  type Summarizer = (Option<Summary>, seq<ContextUnit>) -> Option<string>

  function SummaryOf(latest: Option<ContextCompaction>): Option<Summary> {
    if latest.Some? then Some(latest.value.summary) else None
  }

  /** A summary was made that is not blank, and with it the request becomes smaller and
      fits. */
  predicate PaysOff(
    requestTokens: seq<Shown> -> nat, summarize: Summarizer, units: seq<ContextUnit>, latest: Option<ContextCompaction>,
    cut: nat, safeTokens: nat)
    requires 0 <= StartOf(units, latest) < cut < |units|
  {
    var told := units[StartOf(units, latest)..cut];
    var text := summarize(SummaryOf(latest), told);
    text.Some? && !IsBlank(text.value) && ShownNow(units, latest).Some? &&
    var after := requestTokens([Summarized(Summary(SummaryOf(latest), told, text.value))] + ExactAll(units[cut..]));
    after <= safeTokens && after < requestTokens(ShownNow(units, latest).value)
  }

  /** Cut, chain and bounds of prepareDecisionRequest; None stands for its errors. There
      is a candidate exactly when the latest compaction applies, something is left
      to summarize past it, and summarizing pays off at the one possible cut. */
  method PrepareCandidate(
    estimate: ContextUnit -> nat, requestTokens: seq<Shown> -> nat, summarize: Summarizer, units: seq<ContextUnit>,
    latest: Option<ContextCompaction>, keepRecentTokens: int, safeTokens: nat, policy: string)
    returns (r: Option<ContextCompaction>)
    requires DistinctKeys(units)
    ensures r.Some? ==>
      ShownNow(units, latest).Some? && Progresses(Estimates(estimate, units), keepRecentTokens, StartOf(units, latest))
    ensures r.Some? ==>
      var from := StartOf(units, latest);
      exists cut :: 0 <= from < cut < |units| && IsCut(Estimates(estimate, units), keepRecentTokens, cut) &&
        PaysOff(requestTokens, summarize, units, latest, cut, safeTokens) &&
        r.value == Candidate(units, cut, latest, from, policy, summarize(SummaryOf(latest), units[from..cut]).value)
    ensures r.None? ==>
      ShownNow(units, latest).None? ||
      !Progresses(Estimates(estimate, units), keepRecentTokens, StartOf(units, latest)) ||
      exists cut :: 0 <= StartOf(units, latest) < cut < |units| &&
        IsCut(Estimates(estimate, units), keepRecentTokens, cut) &&
        !PaysOff(requestTokens, summarize, units, latest, cut, safeTokens)
  {
    hide ContextUnitKey, Estimates, Applied, SumFrom, IndexOf;
    var tokens := Estimates(estimate, units);
    var projected := ExactAll(units);
    if latest.Some? {
      var applied := ApplyContextCompaction(units, latest.value);
      if applied.None? {
        return None;
      }
      projected := applied.value;
      AppliedIsInside(units, latest.value);
    }
    var cut := SelectCompactionCut(tokens, keepRecentTokens);
    if cut.None? {
      NoCutNoProgress(tokens, keepRecentTokens, StartOf(units, latest));
      return None;
    }
    CutProgresses(tokens, keepRecentTokens, cut.value, StartOf(units, latest));
    var from := 0;
    if latest.Some? {
      from := ContextUnitIndex(units, latest.value.suffixStart);
      if from < 1 || cut.value <= from {
        return None;
      }
    }
    var text := summarize(SummaryOf(latest), units[from..cut.value]);
    if text.None? || IsBlank(text.value) {
      assert !PaysOff(requestTokens, summarize, units, latest, cut.value, safeTokens);
      return None;
    }
    var candidate := Candidate(units, cut.value, latest, from, policy, text.value);
    CandidateApplies(units, cut.value, latest, from, policy, text.value);
    var shown := ApplyContextCompaction(units, candidate);
    if shown.None? || requestTokens(shown.value) > safeTokens ||
      requestTokens(shown.value) >= requestTokens(projected) {
      assert !PaysOff(requestTokens, summarize, units, latest, cut.value, safeTokens);
      return None;
    }
    return Some(candidate);
  }

  lemma AppliedIsInside(units: seq<ContextUnit>, c: ContextCompaction)
    requires Applied(units, c).Some?
    ensures 1 <= IndexOf(units, c.suffixStart) < |units|
  {
  }

  lemma NoCutNoProgress(tokens: seq<nat>, keep: int, from: int)
    requires |tokens| < 2 || keep < 1 || SumFrom(tokens, 0) <= keep
    ensures !Progresses(tokens, keep, from)
  {
    if 0 <= from < |tokens| {
      SumFromFalls(tokens, 0, from);
    }
  }

  // ----- The stored chain -----

  datatype Appended = Appended(chain: seq<ContextCompaction>, accepted: Option<ContextCompaction>)

  function Latest(chain: seq<ContextCompaction>): Option<ContextCompaction> {
    if chain == [] then None else Some(chain[|chain| - 1])
  }

  /** The first compaction stored under this id. */
  function ById(chain: seq<ContextCompaction>, id: Id): (r: Option<ContextCompaction>)
    ensures r.None? <==> forall i | 0 <= i < |chain| :: chain[i].id != id
  {
    if chain == [] then None
    else
      var before := ById(chain[..|chain| - 1], id);
      if before.Some? then before else if chain[|chain| - 1].id == id then Some(chain[|chain| - 1]) else None
  }

  /** appendContextCompaction under the chat's lock. A candidate whose predecessor
      is no longer the latest loses, and the latest is returned instead. */
  function CompareAndAppend(chain: seq<ContextCompaction>, value: ContextCompaction): Appended {
    if chain != [] && chain[|chain| - 1].id != value.predecessorId then Appended(chain, Latest(chain))
    else if chain == [] && value.predecessorId != NoId then Appended(chain, None)
    else if ById(chain, value.id).Some? then Appended(chain, ById(chain, value.id))
    else Appended(chain + [value], Some(value))
  }

  lemma {:induction false} ByIdIsFirst(chain: seq<ContextCompaction>, id: Id, i: nat)
    requires i < |chain| && chain[i].id == id && ById(chain[..i], id).None?
    ensures ById(chain, id) == Some(chain[i])
    decreases |chain|
  {
    var n := |chain| - 1;
    if i < n {
      assert chain[..n][..i] == chain[..i];
      ByIdIsFirst(chain[..n], id, i);
    }
  }

  class CompactionTable {
    var chain: seq<ContextCompaction>

    constructor ()
      ensures chain == []
    {
      chain := [];
    }

    method AppendContextCompaction(value: ContextCompaction) returns (accepted: Option<ContextCompaction>)
      modifies this
      ensures Appended(chain, accepted) == CompareAndAppend(old(chain), value)
    {
      var current := if chain == [] then None else Some(chain[|chain| - 1]);
      if current.Some? && current.value.id != value.predecessorId {
        return current;
      }
      if current.None? && value.predecessorId != NoId {
        return None;
      }
      for i := 0 to |chain|
        invariant ById(chain[..i], value.id).None?
      {
        assert chain[..i + 1][..i] == chain[..i];
        if chain[i].id == value.id {
          ByIdIsFirst(chain, value.id, i);
          return Some(chain[i]);
        }
      }
      assert chain[..|chain|] == chain;
      chain := chain + [value];
      return Some(value);
    }
  }
}

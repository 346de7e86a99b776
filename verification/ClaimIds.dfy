/** The ids of claim cards across a tree of subagents. */
module ClaimIds {
  import opened Basics
  import opened Identities
  import opened Checkpoints
  import opened CheckpointPrefixes
  import opened ResearchCompletion

  /** c is kept for the root. */
  const LETTERS := "abdefghijklmnopqrstuvwxyz"

  predicate IsLetter(c: char) {
    'a' <= c <= 'z'
  }

  lemma LettersCount()
    ensures |LETTERS| == 25
  {
  }

  lemma LettersDiffer(i: nat, j: nat)
    requires i < |LETTERS| && j < |LETTERS|
    ensures |LETTERS| == 25 && IsLetter(LETTERS[i]) && LETTERS[i] != 'c' && (LETTERS[i] == LETTERS[j] <==> i == j)
  {
    assert LETTERS[i] == (if i < 2 then 'a' + i as char else 'b' + i as char);
    assert LETTERS[j] == (if j < 2 then 'a' + j as char else 'b' + j as char);
  }

  /** The namespace of the subagent spawned in this place; the root's is empty. */
  function ResearchClaimNamespace(childIndex: int): (r: string)
    ensures forall i | 0 <= i < |r| :: r[i] in LETTERS
  {
    var letters := |LETTERS|;
    if childIndex < 0 || childIndex >= letters * (letters + 1) then ""
    else if childIndex < letters then [LETTERS[childIndex]]
    else [LETTERS[childIndex / letters - 1], LETTERS[childIndex % letters]]
  }

  /** Namespaces are used in the order of the alphabet without c, single letters first and
      then pairs: a later place has a longer name, or one that comes later. */
  lemma NamespacesAscend(i: nat, j: nat)
    requires i < j < 650
    ensures var a, b := ResearchClaimNamespace(i), ResearchClaimNamespace(j);
      1 <= |a| <= |b| <= 2 && (|a| == 1 <==> i < 25) && (|b| == 1 <==> j < 25) &&
      (|a| == |b| ==> a[0] < b[0] || (a[0] == b[0] && |a| == 2 && a[1] < b[1]))
  {
    hide ResearchClaimNamespace;
    LettersAscend();
    NamespaceLetters(i);
    NamespaceLetters(j);
    if i >= 25 {
      PairsAscend(i, j);
    }
  }

  lemma NamespaceLetters(i: nat)
    requires i < 650
    ensures |LETTERS| == 25 && (i >= 25 ==> 0 <= i / 25 - 1 < 25)
    ensures ResearchClaimNamespace(i) == if i < 25 then [LETTERS[i]] else [LETTERS[i / 25 - 1], LETTERS[i % 25]]
  {
    LettersCount();
  }

  lemma LettersAscend()
    ensures |LETTERS| == 25 && forall i, j | 0 <= i < j < |LETTERS| :: LETTERS[i] < LETTERS[j]
  {
    forall i, j | 0 <= i < j < |LETTERS| ensures LETTERS[i] < LETTERS[j] {
      assert LETTERS[i] == (if i < 2 then 'a' + i as char else 'b' + i as char);
      assert LETTERS[j] == (if j < 2 then 'a' + j as char else 'b' + j as char);
    }
  }

  lemma PairsAscend(i: nat, j: nat)
    requires 25 <= i < j < 650
    ensures i / 25 < j / 25 || (i / 25 == j / 25 && i % 25 < j % 25)
    ensures 0 <= i / 25 - 1 < 25 && 0 <= j / 25 - 1 < 25
  {
  }

  function ResearchClaimNamespacedId(namespace: string, ordinal: nat): string {
    if namespace == "" then "c" + Itoa(ordinal) else namespace + Itoa(ordinal)
  }

  const CHILDREN := 650

  /** Run 0 of a tree is its root, run k + 1 the k-th subagent. */
  function NamespaceOfRun(run: nat): string {
    if run == 0 then "" else ResearchClaimNamespace(run - 1)
  }

  function CardId(run: nat, ordinal: nat): string {
    ResearchClaimNamespacedId(NamespaceOfRun(run), ordinal)
  }

  /** The letters in front: c for the root. */
  function Front(run: nat): string {
    if NamespaceOfRun(run) == "" then "c" else NamespaceOfRun(run)
  }

  lemma NamespacesDiffer(i: nat, j: nat)
    requires i < CHILDREN && j < CHILDREN
    ensures ResearchClaimNamespace(i) != "" && ResearchClaimNamespace(i) != "c"
    ensures ResearchClaimNamespace(i) == ResearchClaimNamespace(j) ==> i == j
  {
    hide LETTERS;
    LettersCount();
    if i < 25 { LettersDiffer(i, i); }
    if i < 25 && j < 25 {
      LettersDiffer(i, j);
    } else if i >= 25 && j >= 25 {
      LettersDiffer(i / 25 - 1, j / 25 - 1);
      LettersDiffer(i % 25, j % 25);
    }
  }

  lemma NoDigitsInNamespace(i: nat)
    ensures forall k | 0 <= k < |ResearchClaimNamespace(i)| :: !IsDigit(ResearchClaimNamespace(i)[k])
  {
    hide LETTERS, ResearchClaimNamespace;
    LettersCount();
    var namespace := ResearchClaimNamespace(i);
    forall k | 0 <= k < |namespace| ensures !IsDigit(namespace[k]) {
      var n :| 0 <= n < |LETTERS| && LETTERS[n] == namespace[k];
      LettersDiffer(n, n);
    }
  }

  lemma FrontsDiffer(i: nat, j: nat)
    requires i <= CHILDREN && j <= CHILDREN
    ensures Front(i) == Front(j) ==> i == j
    ensures forall k | 0 <= k < |Front(i)| :: !IsDigit(Front(i)[k])
  {
    hide LETTERS, ResearchClaimNamespace;
    if i > 0 {
      NamespacesDiffer(i - 1, if j > 0 then j - 1 else 0);
      NoDigitsInNamespace(i - 1);
    }
    if j > 0 { NamespacesDiffer(j - 1, j - 1); }
  }

  lemma StartsWithNoDigit(a: string, x: string)
    requires a != "" && !IsDigit(a[0])
    ensures a + x != "" && !IsDigit((a + x)[0])
  {
  }

  /** Letters and then digits: where the digits begin is plain from the text. */
  lemma {:induction false} SplitAtDigits(a: string, x: string, b: string, y: string)
    requires a + x == b + y && (forall i | 0 <= i < |x| :: IsDigit(x[i])) && forall i | 0 <= i < |y| :: IsDigit(y[i])
    requires (forall i | 0 <= i < |a| :: !IsDigit(a[i])) && forall i | 0 <= i < |b| :: !IsDigit(b[i])
    ensures a == b && x == y
    decreases |a|
  {
    var s := a + x;
    if a == "" || b == "" {
      assert a == "" ==> s == x;
      assert b == "" ==> s == y;
      if a != "" {
        StartsWithNoDigit(a, x);
      } else if b != "" {
        StartsWithNoDigit(b, y);
      }
    } else {
      assert s[0] == a[0] && s[0] == b[0];
      assert a[1..] + x == s[1..] == b[1..] + y;
      SplitAtDigits(a[1..], x, b[1..], y);
      assert a == [a[0]] + a[1..] && b == [b[0]] + b[1..];
    }
  }

  /** With up to 650 subagents no two cards of a tree share an id. */
  lemma CardIdsAreDistinct(i: nat, m: nat, j: nat, n: nat)
    requires i <= CHILDREN && j <= CHILDREN && CardId(i, m) == CardId(j, n)
    ensures i == j && m == n
  {
    hide ResearchClaimNamespace, Itoa;
    FrontsDiffer(i, j);
    FrontsDiffer(j, i);
    SplitAtDigits(Front(i), Itoa(m), Front(j), Itoa(n));
    ItoaInjective(m, n);
  }

  /** The 651st subagent has no namespace left: its cards are named like the root's. */
  lemma TooManySubagentsCollide(child: nat, ordinal: nat)
    requires child >= CHILDREN
    ensures CardId(child + 1, ordinal) == CardId(0, ordinal)
  {
  }

  /** Ids differ over a whole tree exactly up to that many subagents. */
  lemma DistinctExactlyUpTo650(children: nat)
    ensures children <= CHILDREN <==>
      forall i: nat, j: nat, m: nat, n: nat | i <= children && j <= children && CardId(i, m) == CardId(j, n) ::
        i == j && m == n
  {
    if children <= CHILDREN {
      forall i: nat, j: nat, m: nat, n: nat | i <= children && j <= children && CardId(i, m) == CardId(j, n)
        ensures i == j && m == n {
        CardIdsAreDistinct(i, m, j, n);
      }
    } else {
      TooManySubagentsCollide(CHILDREN, 1);
      assert CardId(CHILDREN + 1, 1) == CardId(0, 1);
    }
  }

  // ----- Numbering -----

  const RECORD := "record_claim"

  /** The number of the claim proposed under this action id, or of the next one. */
  function Ordinal(actions: seq<AcceptedAction>, id: Identity): (r: nat)
    ensures r >= 1
  {
    if actions == [] then 1
    else if actions[0].name != RECORD then Ordinal(actions[1..], id)
    else if actions[0].actionId == id then 1
    else 1 + Ordinal(actions[1..], id)
  }

  predicate Claims(actions: seq<AcceptedAction>, id: Identity) {
    exists i :: 0 <= i < |actions| && actions[i].name == RECORD && actions[i].actionId == id
  }

  lemma OrdinalStep(actions: seq<AcceptedAction>, n: nat, id: Identity)
    requires n < |actions|
    ensures Ordinal(actions[n..], id) ==
      (if actions[n].name != RECORD then Ordinal(actions[n + 1..], id)
       else if actions[n].actionId == id then 1 else 1 + Ordinal(actions[n + 1..], id))
  {
    assert actions[n..][1..] == actions[n + 1..];
  }

  lemma ActionAt(proposals: seq<AcceptedProposal>, k: nat, i: nat)
    requires k < |proposals| && i < |proposals[k].actions|
    ensures var at := |AllActions(proposals[..k])| + i;
      at < |AllActions(proposals)| && AllActions(proposals)[at] == proposals[k].actions[i]
  {
    InFront(proposals, k + 1);
    assert proposals[..k + 1][..k] == proposals[..k];
    assert AllActions(proposals[..k + 1])[|AllActions(proposals[..k])| + i] == proposals[k].actions[i];
  }

  lemma EndOfDecision(proposals: seq<AcceptedProposal>, k: nat)
    requires k < |proposals|
    ensures |AllActions(proposals[..k + 1])| == |AllActions(proposals[..k])| + |proposals[k].actions|
    ensures |AllActions(proposals[..k + 1])| <= |AllActions(proposals)|
  {
    InFront(proposals, k + 1);
    assert proposals[..k + 1][..k] == proposals[..k];
  }

  /** The claims in actions n..k. */
  function ClaimsBetween(actions: seq<AcceptedAction>, n: nat, k: nat): set<int>
    requires n <= k <= |actions|
  {
    set i | n <= i < k && actions[i].name == RECORD
  }

  lemma {:induction false} OrdinalFrom(actions: seq<AcceptedAction>, n: nat, k: nat, id: Identity)
    requires n <= k <= |actions|
    requires forall i | n <= i < k && actions[i].name == RECORD :: actions[i].actionId != id
    requires k < |actions| ==> actions[k].name == RECORD && actions[k].actionId == id
    ensures Ordinal(actions[n..], id) == 1 + |ClaimsBetween(actions, n, k)|
    decreases k - n
  {
    if n < k {
      OrdinalStep(actions, n, id);
      OrdinalFrom(actions, n + 1, k, id);
      var rest := ClaimsBetween(actions, n + 1, k);
      assert ClaimsBetween(actions, n, k) == if actions[n].name == RECORD then {n} + rest else rest;
    } else if k < |actions| {
      OrdinalStep(actions, n, id);
      assert ClaimsBetween(actions, n, k) == {};
    } else {
      assert actions[n..] == [] && ClaimsBetween(actions, n, k) == {};
    }
  }

  /** The number of a claim is one more than the number of claims before it, in decision
      order and whatever their results; what was not proposed gets the next one. */
  lemma OrdinalCountsTheClaimsBefore(actions: seq<AcceptedAction>, k: nat, id: Identity)
    requires k <= |actions| && (k < |actions| ==> actions[k].name == RECORD && actions[k].actionId == id)
    requires forall i | 0 <= i < k && actions[i].name == RECORD :: actions[i].actionId != id
    ensures Ordinal(actions, id) == 1 + |ClaimsBetween(actions, 0, k)|
  {
    assert actions[0..] == actions;
    OrdinalFrom(actions, 0, k, id);
  }

  method ResearchClaimId(namespace: string, prefix: Prefix, id: Identity) returns (r: string)
    ensures r == ResearchClaimNamespacedId(namespace, Ordinal(AllActions(prefix.proposals), id))
  {
    hide Ordinal, AllActions, ResearchClaimNamespacedId;
    var proposals := prefix.proposals;
    ghost var all := AllActions(proposals);
    ghost var at := 0;
    var ordinal := 0;
    assert all[0..] == all;
    assert AllActions(proposals[..0]) == [] by { NoActions(); }
    for k := 0 to |proposals|
      invariant at == |AllActions(proposals[..k])| <= |all|
      invariant ordinal + Ordinal(all[at..], id) == Ordinal(all, id)
    {
      EndOfDecision(proposals, k);
      var actions := proposals[k].actions;
      for i := 0 to |actions|
        invariant at == |AllActions(proposals[..k])| + i <= |all|
        invariant ordinal + Ordinal(all[at..], id) == Ordinal(all, id)
      {
        ActionAt(proposals, k, i);
        OrdinalStep(all, at, id);
        at := at + 1;
        if actions[i].name != RECORD {
          continue;
        }
        ordinal := ordinal + 1;
        if actions[i].actionId == id {
          return ResearchClaimNamespacedId(namespace, ordinal);
        }
      }
    }
    assert proposals[..|proposals|] == proposals;
    assert all[at..] == [];
    NextOrdinal(id);
    return ResearchClaimNamespacedId(namespace, ordinal + 1);
  }

  lemma NoActions()
    ensures AllActions([]) == []
  {
  }

  lemma NextOrdinal(id: Identity)
    ensures Ordinal([], id) == 1
  {
  }

  lemma {:induction false} InFront(proposals: seq<AcceptedProposal>, k: nat)
    requires k <= |proposals|
    ensures AllActions(proposals[..k]) <= AllActions(proposals)
    decreases |proposals|
  {
    if k < |proposals| {
      InFront(proposals[..|proposals| - 1], k);
      assert proposals[..|proposals| - 1][..k] == proposals[..k];
    } else {
      assert proposals[..k] == proposals;
    }
  }

  /** The second list goes on after the calls of the first; results may have come
      in between. */
  ghost predicate GoesOn(actions: seq<AcceptedAction>, longer: seq<AcceptedAction>) {
    |actions| <= |longer| &&
    forall i | 0 <= i < |actions| :: longer[i].name == actions[i].name && longer[i].actionId == actions[i].actionId
  }

  /** An assigned number never changes when results arrive or more is proposed. */
  lemma {:induction false} OrdinalStays(actions: seq<AcceptedAction>, longer: seq<AcceptedAction>, id: Identity)
    requires Claims(actions, id) && GoesOn(actions, longer)
    ensures Ordinal(longer, id) == Ordinal(actions, id) <= |actions|
    decreases |actions|
  {
    var i :| 0 <= i < |actions| && actions[i].name == RECORD && actions[i].actionId == id;
    if actions[0].name != RECORD || actions[0].actionId != id {
      assert i > 0 && actions[1..][i - 1] == actions[i];
      assert forall k | 0 <= k < |actions| - 1 :: actions[1..][k] == actions[k + 1] && longer[1..][k] == longer[k + 1];
      OrdinalStays(actions[1..], longer[1..], id);
    }
  }

  /** The number the next claim will get is the number it has once proposed. */
  lemma {:induction false} OrdinalIsForeseen(actions: seq<AcceptedAction>, next: AcceptedAction)
    requires next.name == RECORD && !Claims(actions, next.actionId)
    ensures Ordinal(actions + [next], next.actionId) == Ordinal(actions, next.actionId)
    decreases |actions|
  {
    if actions == [] {
      assert actions + [next] == [next];
    } else {
      assert (actions + [next])[1..] == actions[1..] + [next];
      forall i | 0 <= i < |actions[1..]|
        ensures !(actions[1..][i].name == RECORD && actions[1..][i].actionId == next.actionId) {
        assert actions[1..][i] == actions[i + 1];
      }
      assert !(actions[0].name == RECORD && actions[0].actionId == next.actionId);
      OrdinalIsForeseen(actions[1..], next);
    }
  }

  /** Different claims of a Run have different numbers. */
  lemma {:induction false} OrdinalsDiffer(actions: seq<AcceptedAction>, a: Identity, b: Identity)
    requires Claims(actions, a) && Claims(actions, b) && a != b
    ensures Ordinal(actions, a) != Ordinal(actions, b)
    decreases |actions|
  {
    var i :| 0 <= i < |actions| && actions[i].name == RECORD && actions[i].actionId == a;
    var j :| 0 <= j < |actions| && actions[j].name == RECORD && actions[j].actionId == b;
    var first := actions[0];
    if first.name == RECORD && (first.actionId == a || first.actionId == b) {
    } else {
      assert actions[1..][i - 1] == actions[i] && actions[1..][j - 1] == actions[j];
      OrdinalsDiffer(actions[1..], a, b);
    }
  }

  lemma CallsBeforeAndLast(proposals: seq<AcceptedProposal>, last: AcceptedProposal)
    ensures AllActions(proposals + [last]) == AllActions(proposals) + last.actions
  {
    assert (proposals + [last])[..|proposals|] == proposals;
  }

  lemma CallsGoOn(p: Prefix, row: Row)
    requires Accept(p, row).Some?
    ensures GoesOn(AllActions(p.proposals), AllActions(Accept(p, row).value.proposals))
  {
    hide AllActions, ActionResult.Valid, HasIncompleteProposal;
    var q := Accept(p, row).value;
    if row.ProposalRow? {
      CallsBeforeAndLast(p.proposals, Last(q));
    } else if row.ResultRow? {
      var front := p.proposals[..|p.proposals| - 1];
      assert p.proposals == front + [Last(p)] && q.proposals == front + [Last(q)];
      CallsBeforeAndLast(front, Last(p));
      CallsBeforeAndLast(front, Last(q));
    }
  }

  lemma {:induction false} LaterLogsGoOn(rows: seq<Row>, more: seq<Row>)
    requires Load(rows).Some? && Load(rows + more).Some?
    ensures GoesOn(AllActions(Load(rows).value.proposals), AllActions(Load(rows + more).value.proposals))
    decreases |more|
  {
    hide Load, Accept, AllActions;
    if more == [] {
      assert rows + more == rows;
    } else {
      var n := |more| - 1;
      assert rows + more == rows + more[..n] + [more[n]];
      LoadOneMore(rows + more[..n], more[n]);
      LaterLogsGoOn(rows, more[..n]);
      CallsGoOn(Load(rows + more[..n]).value, more[n]);
    }
  }

  /** The id of a claim survives crashes: computed again over any later log of the
      Run it is the same id. */
  lemma ClaimIdIsStable(namespace: string, rows: seq<Row>, more: seq<Row>, id: Identity)
    requires Load(rows).Some? && Load(rows + more).Some? && Claims(AllActions(Load(rows).value.proposals), id)
    ensures ResearchClaimNamespacedId(namespace, Ordinal(AllActions(Load(rows + more).value.proposals), id)) ==
      ResearchClaimNamespacedId(namespace, Ordinal(AllActions(Load(rows).value.proposals), id))
  {
    hide Itoa, Load, AllActions;
    LaterLogsGoOn(rows, more);
    OrdinalStays(AllActions(Load(rows).value.proposals), AllActions(Load(rows + more).value.proposals), id);
  }
}

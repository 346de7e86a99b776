/** Which logs are accepted, said without the decoder: a grammar, and the freedom
    the decoder leaves in the order of results. */
module CheckpointGrammar {
  import opened Basics
  import opened Checkpoints
  import opened CheckpointPrefixes

  /** Results of one batch of n actions, no action answered twice. */
  ghost predicate AnswersOf(rows: seq<Row>, no: int, n: nat) {
    (forall i | 0 <= i < |rows| :: rows[i].ResultRow? && rows[i].no == no && rows[i].index < n) &&
    (forall i, j | 0 <= i < j < |rows| && rows[i].ResultRow? && rows[j].ResultRow? :: rows[i].index != rows[j].index)
  }

  /** Steering messages for the next decision, then a proposal with all of its
      results, again and again; the log may stop inside the last batch, or end
      with a Final. */
  ghost predicate InOrder(rows: seq<Row>, next: nat, delivered: set<string>)
    decreases |rows|
  {
    rows == [] ||
    match rows[0]
    case SteeringRow(no, messageId, _) =>
      no == next && messageId !in delivered && InOrder(rows[1..], next, delivered + {messageId})
    case FinalRow(no, _) =>
      no == next && |rows| == 1
    case ProposalRow(no, actions) =>
      no == next &&
      if |rows| - 1 < |actions| then AnswersOf(rows[1..], no, |actions|)
      else AnswersOf(rows[1..1 + |actions|], no, |actions|) && InOrder(rows[1 + |actions|..], next + 1, delivered)
    case ResultRow(_, _, _) => false
  }

  ghost predicate AllWellFormed(rows: seq<Row>) {
    forall i | 0 <= i < |rows| :: WellFormed(rows[i])
  }

  ghost function Ids(steering: seq<AcceptedSteering>): set<string> {
    set i | 0 <= i < |steering| :: steering[i].messageId
  }

  ghost function DeliveredIds(p: Prefix): set<string> {
    Ids(p.steering)
  }

  ghost function Missing(p: Prefix): set<int>
    requires |p.proposals| > 0
  {
    set i | 0 <= i < |Last(p).actions| && Last(p).actions[i].result.None?
  }

  ghost predicate AnswersIn(rows: seq<Row>, no: int, missing: set<int>) {
    (forall i | 0 <= i < |rows| :: rows[i].ResultRow? && rows[i].no == no && rows[i].index in missing) &&
    (forall i, j | 0 <= i < j < |rows| && rows[i].ResultRow? && rows[j].ResultRow? :: rows[i].index != rows[j].index)
  }

  /** The rest of a log that follows an unfinished batch. */
  ghost predicate BatchThenInOrder(rows: seq<Row>, no: int, missing: set<int>, next: nat, delivered: set<string>) {
    if |rows| < |missing| then AnswersIn(rows, no, missing)
    else AnswersIn(rows[..|missing|], no, missing) && InOrder(rows[|missing|..], next, delivered)
  }

  ghost function Indices(n: nat): (r: set<int>)
    ensures |r| == n
    ensures forall i :: i in r <==> 0 <= i < n
  {
    if n == 0 then {} else Indices(n - 1) + {n - 1}
  }

  lemma AnswersInStep(rows: seq<Row>, no: int, missing: set<int>)
    requires |rows| > 0
    ensures AnswersIn(rows, no, missing) <==>
      rows[0].ResultRow? && rows[0].no == no && rows[0].index in missing &&
      AnswersIn(rows[1..], no, missing - {rows[0].index})
  {
    var tail := rows[1..];
    assert forall i | 0 < i < |rows| :: rows[i] == tail[i - 1];
    if rows[0].ResultRow? && rows[0].no == no && rows[0].index in missing {
      if AnswersIn(tail, no, missing - {rows[0].index}) {
        forall i, j | 0 <= i < j < |rows| && rows[i].ResultRow? && rows[j].ResultRow?
          ensures rows[i].index != rows[j].index {
          assert tail[j - 1] == rows[j];
          if i > 0 { assert tail[i - 1] == rows[i]; }
        }
      }
      if AnswersIn(rows, no, missing) {
        assert forall i | 0 <= i < |tail| :: tail[i] == rows[i + 1];
        forall i, j | 0 <= i < j < |tail| && tail[i].ResultRow? && tail[j].ResultRow?
          ensures tail[i].index != tail[j].index {
          assert tail[i] == rows[i + 1] && tail[j] == rows[j + 1];
        }
      }
    }
  }

  lemma BatchStep(rows: seq<Row>, no: int, missing: set<int>, next: nat, delivered: set<string>)
    requires |rows| > 0 && |missing| > 0
    ensures BatchThenInOrder(rows, no, missing, next, delivered) <==>
      rows[0].ResultRow? && rows[0].no == no && rows[0].index in missing &&
      BatchThenInOrder(rows[1..], no, missing - {rows[0].index}, next, delivered)
  {
    var n := |missing|;
    if rows[0].ResultRow? && rows[0].index in missing {
      assert |missing - {rows[0].index}| == n - 1;
      if |rows| >= n {
        assert rows[..n][1..] == rows[1..][..n - 1];
        assert rows[n..] == rows[1..][n - 1..];
      }
    }
    AnswersInStep(if |rows| < n then rows else rows[..n], no, missing);
  }

  lemma AcceptedResult(p: Prefix, row: Row)
    requires Shape(p) && HasIncompleteProposal(p)
    ensures p.final.None?
    ensures Accept(p, row).Some? <==>
      WellFormed(row) && row.ResultRow? && row.no == |p.proposals| && row.index in Missing(p)
    ensures Accept(p, row).Some? ==>
      var q := Accept(p, row).value;
      Shape(q) && q.decisions == p.decisions && q.steering == p.steering && q.final == p.final &&
      |q.proposals| == |p.proposals| && Missing(q) == Missing(p) - {row.index}
  {
    if Accept(p, row).Some? {
      AcceptKeepsShape(p, row);
    }
  }

  lemma MissingMeansIncomplete(p: Prefix)
    requires |p.proposals| > 0
    ensures HasIncompleteProposal(p) <==> |Missing(p)| > 0
  {
    if HasIncompleteProposal(p) {
      var i :| 0 <= i < |Last(p).actions| && Last(p).actions[i].result.None?;
      assert i in Missing(p);
    } else {
      assert Missing(p) == {};
    }
  }

  /** After an unfinished batch the decoder accepts its missing answers, in any
      order, and then whatever may follow a finished batch. */
  lemma {:induction false} UnfinishedBatch(p: Prefix, rows: seq<Row>)
    requires Shape(p) && HasIncompleteProposal(p)
    ensures LoadFrom(p, rows).Some? <==>
      AllWellFormed(rows) && BatchThenInOrder(rows, |p.proposals|, Missing(p), p.decisions + 1, DeliveredIds(p))
    decreases |rows|
  {
    hide Accept, Shape;
    MissingMeansIncomplete(p);
    if rows != [] {
      AcceptedResult(p, rows[0]);
      BatchStep(rows, |p.proposals|, Missing(p), p.decisions + 1, DeliveredIds(p));
      SplitWellFormed(rows);
      if Accept(p, rows[0]).Some? {
        var q := Accept(p, rows[0]).value;
        MissingMeansIncomplete(q);
        if HasIncompleteProposal(q) {
          UnfinishedBatch(q, rows[1..]);
        } else {
          FinishedBatches(q, rows[1..]);
          assert rows[1..][..0] == [] && rows[1..][0..] == rows[1..];
        }
      }
    }
  }

  lemma SplitWellFormed(rows: seq<Row>)
    requires rows != []
    ensures AllWellFormed(rows) <==> WellFormed(rows[0]) && AllWellFormed(rows[1..])
  {
    assert forall i | 0 < i < |rows| :: rows[i] == rows[1..][i - 1];
  }

  lemma NewBatchIsMissingAll(p: Prefix, row: Row)
    requires Shape(p) && row.ProposalRow? && Accept(p, row).Some?
    ensures var q := Accept(p, row).value;
      Shape(q) && HasIncompleteProposal(q) && Missing(q) == Indices(|row.actions|)
      && |Missing(q)| == |row.actions| && |q.proposals| == q.decisions == p.decisions + 1 && q.steering == p.steering
  {
    AcceptKeepsShape(p, row);
    var q := Accept(p, row).value;
    assert Last(q).actions[0].result.None?;
    assert Missing(q) == Indices(|row.actions|);
  }

  lemma AnswersOfAll(rows: seq<Row>, no: int, n: nat)
    requires AllWellFormed(rows)
    ensures AnswersOf(rows, no, n) <==> AnswersIn(rows, no, Indices(n))
  {
  }

  lemma ProposalInOrder(rows: seq<Row>, next: nat, delivered: set<string>)
    requires rows != [] && rows[0].ProposalRow? && AllWellFormed(rows[1..])
    ensures InOrder(rows, next, delivered) <==>
      rows[0].no == next && BatchThenInOrder(rows[1..], next, Indices(|rows[0].actions|), next + 1, delivered)
  {
    var tail, n := rows[1..], |rows[0].actions|;
    if |tail| < n {
      AnswersOfAll(tail, next, n);
    } else {
      AnswersOfAll(tail[..n], next, n);
      assert rows[1..1 + n] == tail[..n];
      assert rows[1 + n..] == tail[n..];
    }
  }

  lemma {:induction false} NewBatchLoads(p: Prefix, rows: seq<Row>)
    requires Shape(p) && rows != [] && rows[0].ProposalRow?
    ensures LoadFrom(p, rows).Some? <==>
      Accept(p, rows[0]).Some? && AllWellFormed(rows[1..]) &&
      BatchThenInOrder(rows[1..], p.decisions + 1, Indices(|rows[0].actions|), p.decisions + 2, DeliveredIds(p))
    decreases |rows|, 0
  {
    hide Accept, Shape;
    if Accept(p, rows[0]).Some? {
      NewBatchIsMissingAll(p, rows[0]);
      var q := Accept(p, rows[0]).value;
      UnfinishedBatch(q, rows[1..]);
    }
  }

  lemma {:induction false} NewBatchThenInOrder(p: Prefix, rows: seq<Row>)
    requires Shape(p) && !HasIncompleteProposal(p) && p.final.None?
    requires rows != [] && rows[0].ProposalRow?
    ensures LoadFrom(p, rows).Some? <==> AllWellFormed(rows) && InOrder(rows, p.decisions + 1, DeliveredIds(p))
    decreases |rows|, 1
  {
    NewBatchLoads(p, rows);
    SplitWellFormed(rows);
    if AllWellFormed(rows[1..]) {
      ProposalInOrder(rows, p.decisions + 1, DeliveredIds(p));
    }
  }

  /** With every batch answered, the decoder accepts exactly the grammar. */
  lemma {:induction false} FinishedBatches(p: Prefix, rows: seq<Row>)
    requires Shape(p) && !HasIncompleteProposal(p) && p.final.None?
    ensures LoadFrom(p, rows).Some? <==> AllWellFormed(rows) && InOrder(rows, p.decisions + 1, DeliveredIds(p))
    decreases |rows|, 2
  {
    if rows == [] {
    } else {
      SplitWellFormed(rows);
      var row, tail := rows[0], rows[1..];
      var q := Accept(p, row);
      if q.Some? {
        AcceptKeepsShape(p, row);
      }
      match row
      case SteeringRow(no, messageId, _) =>
        assert Delivered(p, messageId) <==> messageId in DeliveredIds(p);
        if q.Some? {
          assert DeliveredIds(q.value) == DeliveredIds(p) + {messageId} by {
            assert q.value.steering[|p.steering|].messageId == messageId;
            assert forall i | 0 <= i < |p.steering| :: q.value.steering[i] == p.steering[i];
          }
          FinishedBatches(q.value, tail);
        }
      case FinalRow(_, _) =>
        if q.Some? && tail != [] {
          assert Accept(q.value, tail[0]).None?;
        }
      case ProposalRow(no, actions) =>
        NewBatchThenInOrder(p, rows);
      case ResultRow(_, _, _) =>
    }
  }

  /** A log is accepted exactly when every row is well formed and the rows come
      in the order of the grammar. */
  lemma AcceptedExactlyInOrder(rows: seq<Row>)
    ensures Load(rows).Some? <==> AllWellFormed(rows) && InOrder(rows, 1, {})
  {
    FinishedBatches(EMPTY, rows);
    assert DeliveredIds(EMPTY) == {};
  }

  // ----- Order of results -----

  lemma ResultsCommute(p: Prefix, a: Row, b: Row, rest: seq<Row>)
    requires a.ResultRow? && b.ResultRow?
    ensures LoadFrom(p, [a, b] + rest) == LoadFrom(p, [b, a] + rest)
  {
    LoadFromConcat(p, [a, b], rest);
    LoadFromConcat(p, [b, a], rest);
    assert [a, b][1..] == [b] && [b, a][1..] == [a];
    assert [a][1..] == [] && [b][1..] == [];
    if Accept(p, a).Some? && Accept(p, b).Some? && a.index != b.index {
      var i, j := a.index, b.index;
      var actions := Last(p).actions;
      var x, y := actions[i].(result := Some(a.result)), actions[j].(result := Some(b.result));
      assert actions[i := x][j := y] == actions[j := y][i := x];
      var both := Last(p).(actions := actions[i := x][j := y]);
      var k := |p.proposals| - 1;
      assert WithResult(WithResult(p, i, a.result), j, b.result).proposals == p.proposals[k := both];
      assert WithResult(WithResult(p, j, b.result), i, a.result).proposals == p.proposals[k := both];
    }
  }

  ghost predicate AllResults(rows: seq<Row>) {
    forall i | 0 <= i < |rows| :: rows[i].ResultRow?
  }

  lemma LoadFromFirst(p: Prefix, first: Row, rest: seq<Row>)
    ensures LoadFrom(p, [first] + rest) ==
      (if Accept(p, first).None? then None else LoadFrom(Accept(p, first).value, rest))
  {
    assert ([first] + rest)[1..] == rest;
  }

  lemma {:induction false} MoveToFront(p: Prefix, rows: seq<Row>, k: nat, rest: seq<Row>)
    requires AllResults(rows) && k < |rows|
    ensures LoadFrom(p, rows + rest) == LoadFrom(p, [rows[k]] + (rows[..k] + rows[k + 1..]) + rest)
    decreases k
  {
    hide Accept, LoadFrom;
    if k == 0 {
      assert [rows[0]] + (rows[..0] + rows[1..]) == rows;
    } else {
      var head, tail := rows[0], rows[1..];
      var others := tail[..k - 1] + tail[k..];
      if Accept(p, head).Some? {
        MoveToFront(Accept(p, head).value, tail, k - 1, rest);
      }
      LoadFromFirst(p, head, tail + rest);
      LoadFromFirst(p, head, [tail[k - 1]] + others + rest);
      assert rows + rest == [head] + (tail + rest);
      assert [head] + ([tail[k - 1]] + others + rest) == [head, rows[k]] + (others + rest);
      ResultsCommute(p, head, rows[k], others + rest);
      assert [head] + others == rows[..k] + rows[k + 1..];
      assert [rows[k], head] + (others + rest) == [rows[k]] + ([head] + others) + rest;
    }
  }

  lemma Without<T>(a: seq<T>, k: nat)
    requires k < |a|
    ensures multiset(a[..k] + a[k + 1..]) == multiset(a) - multiset{a[k]}
  {
    assert a == a[..k] + ([a[k]] + a[k + 1..]);
    assert multiset(a) == multiset(a[..k]) + multiset([a[k]] + a[k + 1..]);
  }

  lemma WithoutFirst<T>(b: seq<T>)
    requires b != []
    ensures multiset(b[1..]) == multiset(b) - multiset{b[0]}
  {
    assert b == [b[0]] + b[1..];
  }

  lemma IndexIn<T>(a: seq<T>, x: T) returns (k: nat)
    requires x in multiset(a)
    ensures k < |a| && a[k] == x
  {
    k :| 0 <= k < |a| && a[k] == x;
  }

  lemma FindFirst<T>(a: seq<T>, b: seq<T>) returns (k: nat)
    requires multiset(a) == multiset(b) && b != []
    ensures k < |a| && a[k] == b[0] && multiset(a[..k] + a[k + 1..]) == multiset(b[1..])
  {
    assert b[0] in multiset(b);
    k := IndexIn(a, b[0]);
    Without(a, k);
    WithoutFirst(b);
  }

  lemma {:induction false} PermutedResults(p: Prefix, a: seq<Row>, b: seq<Row>, rest: seq<Row>)
    requires AllResults(a) && multiset(a) == multiset(b)
    ensures LoadFrom(p, a + rest) == LoadFrom(p, b + rest)
    decreases |b|
  {
    hide Accept, LoadFrom;
    if |b| == 0 {
      assert |a| == |multiset(a)| == 0;
      assert a == b;
    } else {
      var first := b[0];
      var k := FindFirst(a, b);
      var others := a[..k] + a[k + 1..];
      if Accept(p, first).Some? {
        PermutedResults(Accept(p, first).value, others, b[1..], rest);
      }
      LoadFromFirst(p, first, others + rest);
      LoadFromFirst(p, first, b[1..] + rest);
      MoveToFront(p, a, k, rest);
      assert [first] + others + rest == [first] + (others + rest);
      assert b + rest == [first] + (b[1..] + rest);
    }
  }

  /** Permuting the results inside a batch changes neither acceptance nor the
      decoded value. */
  lemma ResultOrderIsForgotten(before: seq<Row>, a: seq<Row>, b: seq<Row>, rest: seq<Row>)
    requires AllResults(a) && multiset(a) == multiset(b)
    ensures Load(before + a + rest) == Load(before + b + rest)
  {
    assert before + a + rest == before + (a + rest);
    assert before + b + rest == before + (b + rest);
    LoadFromConcat(EMPTY, before, a + rest);
    LoadFromConcat(EMPTY, before, b + rest);
    if Load(before).Some? {
      PermutedResults(Load(before).value, a, b, rest);
    }
  }
}

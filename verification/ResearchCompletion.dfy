/** Declaring a research Run finished: when a declaration is accepted, which
    questions still owe a round, and how cards are counted per round. */
module ResearchCompletion {
  import opened Basics
  import opened Sorting
  import opened Json
  import opened Identities
  import opened Checkpoints
  import opened CheckpointPrefixes

  datatype Status = Answered | Partial | NotFound
  datatype Question = Question(number: int, status: Status, cards: seq<string>)
  datatype ClaimStatus = Verified | NearMatch | Rejected
  datatype Claim = Claim(id: string, status: ClaimStatus, question: int)

  datatype StopReason = StopAnswered | StopPartial | StopBudget

  datatype Problem =
    | StillRunning
    | DeclaredTwice(question: int)
    | NotInPlan(question: int)
    | Missing(questions: seq<int>)
    | NoCards(question: int)
    | Unknown(question: int, cards: seq<string>)
    | Unusable(question: int, cards: seq<string>)
    | Uncited(question: int, cards: seq<string>)
    | OwesRound(questions: seq<int>)

  datatype Output = Output(accepted: bool, stop: Option<StopReason>, questions: seq<Question>, problems: seq<Problem>,
    retry: seq<int>)

  /** What a declaration is checked against. `cited` are the card ids the report
      cites; `retried` the questions whose extra round has run. */
  datatype Check = Check(
    questions: seq<Question>, claims: seq<Claim>, cited: set<string>, planQuestions: int,
    running: nat, budgetExhausted: bool, retried: set<int>)

  predicate UsableClaim(claim: Claim) {
    claim.status.Verified? || claim.status.NearMatch?
  }

  /** The claim with this id; the last one if an id is used twice. */
  function ClaimOf(claims: seq<Claim>, id: string): Option<Claim> {
    if claims == [] then None
    else
      var last := claims[|claims| - 1];
      if last.id == id then Some(last) else ClaimOf(claims[..|claims| - 1], id)
  }

  /** An id names the last claim that has it. */
  lemma {:induction false} ClaimOfIsTheLast(claims: seq<Claim>, id: string)
    ensures var claim := ClaimOf(claims, id);
      if claim.None? then forall i | 0 <= i < |claims| :: claims[i].id != id
      else
        claim.value.id == id &&
        exists k :: 0 <= k < |claims| && claims[k] == claim.value && forall i | k < i < |claims| :: claims[i].id != id
    decreases |claims|
  {
    if claims != [] {
      ClaimOfIsTheLast(claims[..|claims| - 1], id);
    }
  }

  predicate Tagged(claims: seq<Claim>, question: int) {
    question > 0 && exists i :: 0 <= i < |claims| && UsableClaim(claims[i]) && claims[i].question == question
  }

  predicate GoodCard(check: Check, id: string) {
    var claim := ClaimOf(check.claims, id);
    claim.Some? && UsableClaim(claim.value) && id in check.cited
  }

  /** A question declared not_found without any usable card owes one more round,
      once, while there is budget. */
  predicate Owes(check: Check, q: Question) {
    q.status.NotFound? && !Tagged(check.claims, q.number) && !check.budgetExhausted && q.number !in check.retried
  }

  predicate GoodQuestion(check: Check, q: Question) {
    (q.status.NotFound? || q.cards != []) && (forall i | 0 <= i < |q.cards| :: GoodCard(check, q.cards[i])) &&
    !Owes(check, q)
  }

  /** Each question of the plan once, and nothing else; without a plan any
      questions, but none twice. */
  predicate DeclaresThePlan(check: Check) {
    (forall i, j | 0 <= i < j < |check.questions| :: check.questions[i].number != check.questions[j].number) &&
    (check.planQuestions > 0 ==>
      forall i | 0 <= i < |check.questions| :: check.questions[i].number <= check.planQuestions) &&
    (forall n | 1 <= n <= check.planQuestions :: Declares(check.questions, n))
  }

  predicate Declares(questions: seq<Question>, number: int) {
    exists i :: 0 <= i < |questions| && questions[i].number == number
  }

  predicate Acceptable(check: Check) {
    check.running == 0 && DeclaresThePlan(check) && forall i | 0 <= i < |check.questions| ::
      GoodQuestion(check, check.questions[i])
  }

  function StopOf(check: Check): StopReason {
    if check.budgetExhausted then StopBudget
    else if forall i | 0 <= i < |check.questions| :: check.questions[i].status.Answered? then StopAnswered
    else StopPartial
  }

  /** The named cards that do not exist, that failed verification, and that the report never
      cites, in the order in which they are named. */
  function Unknowns(check: Check, cards: seq<string>): seq<string> {
    if cards == [] then []
    else
      var id := cards[|cards| - 1];
      Unknowns(check, cards[..|cards| - 1]) + (if ClaimOf(check.claims, id).None? then [id] else [])
  }

  function Unusables(check: Check, cards: seq<string>): seq<string> {
    if cards == [] then []
    else
      var id := cards[|cards| - 1];
      var claim := ClaimOf(check.claims, id);
      Unusables(check, cards[..|cards| - 1]) + (if claim.Some? && !UsableClaim(claim.value) then [id] else [])
  }

  function Uncitables(check: Check, cards: seq<string>): seq<string> {
    if cards == [] then []
    else
      var id := cards[|cards| - 1];
      var claim := ClaimOf(check.claims, id);
      Uncitables(check, cards[..|cards| - 1]) +
      (if claim.Some? && UsableClaim(claim.value) && id !in check.cited then [id] else [])
  }

  /** What is wrong with one question. */
  predicate QuestionProblem(check: Check, q: Question, p: Problem) {
    (p == NoCards(q.number) && !q.status.NotFound? && q.cards == []) ||
    (p == Unknown(q.number, Unknowns(check, q.cards)) && Unknowns(check, q.cards) != []) ||
    (p == Unusable(q.number, Unusables(check, q.cards)) && Unusables(check, q.cards) != []) ||
    (p == Uncited(q.number, Uncitables(check, q.cards)) && Uncitables(check, q.cards) != [])
  }

  /** Among the first k questions this number is declared, and declared twice. */
  predicate DeclaredIn(check: Check, k: nat, number: int)
    requires k <= |check.questions|
  {
    exists i :: 0 <= i < k && check.questions[i].number == number
  }

  predicate TwiceIn(check: Check, k: nat, number: int)
    requires k <= |check.questions|
  {
    exists i :: 0 <= i < k && check.questions[i].number == number && DeclaredIn(check, i, number)
  }

  /** What is wrong with the numbers of the first k questions. */
  predicate NumberProblemIn(check: Check, k: nat, p: Problem)
    requires k <= |check.questions|
  {
    (p.DeclaredTwice? && TwiceIn(check, k, p.question)) ||
    (p.NotInPlan? && 0 < check.planQuestions < p.question && DeclaredIn(check, k, p.question))
  }

  predicate NumberProblem(check: Check, p: Problem) {
    NumberProblemIn(check, |check.questions|, p)
  }

  /** Everything that keeps a declaration from being accepted. */
  ghost predicate IsProblem(check: Check, p: Problem) {
    match p
    case StillRunning => check.running > 0
    case DeclaredTwice(_) => NumberProblem(check, p)
    case NotInPlan(_) => NumberProblem(check, p)
    case Missing(qs) =>
      qs != [] && forall n :: n in qs <==> 1 <= n <= check.planQuestions && !Declares(check.questions, n)
    case OwesRound(qs) => qs != [] && forall n :: n in qs <==> OwesNumber(check, n)
    case NoCards(_) => SomeQuestionProblem(check, p)
    case Unknown(_, _) => SomeQuestionProblem(check, p)
    case Unusable(_, _) => SomeQuestionProblem(check, p)
    case Uncited(_, _) => SomeQuestionProblem(check, p)
  }

  ghost predicate SomeQuestionProblem(check: Check, p: Problem) {
    exists i :: 0 <= i < |check.questions| && QuestionProblem(check, check.questions[i], p)
  }

  ghost predicate OwesNumber(check: Check, n: int) {
    exists i :: 0 <= i < |check.questions| && check.questions[i].number == n && Owes(check, check.questions[i])
  }

  // ----- The check -----

  lemma NumbersOneMore(check: Check, k: nat)
    requires k < |check.questions|
    ensures forall n :: DeclaredIn(check, k + 1, n) <==> DeclaredIn(check, k, n) || n == check.questions[k].number
    ensures forall n :: TwiceIn(check, k + 1, n) <==>
      TwiceIn(check, k, n) || (n == check.questions[k].number && DeclaredIn(check, k, n))
  {
    forall n
      ensures DeclaredIn(check, k + 1, n) <==> DeclaredIn(check, k, n) || n == check.questions[k].number
      ensures TwiceIn(check, k + 1, n) <==>
        TwiceIn(check, k, n) || (n == check.questions[k].number && DeclaredIn(check, k, n))
    {
    }
  }

  lemma NoNumbersYet(check: Check)
    ensures forall n :: !DeclaredIn(check, 0, n) && !TwiceIn(check, 0, n)
  {
  }

  /** No number problem means the numbers differ and are in the plan. */
  lemma NumbersAreFine(check: Check)
    ensures (forall p :: !NumberProblem(check, p)) <==>
      (forall i, j | 0 <= i < j < |check.questions| :: check.questions[i].number != check.questions[j].number) &&
      (check.planQuestions > 0 ==>
        forall i | 0 <= i < |check.questions| :: check.questions[i].number <= check.planQuestions)
    ensures forall n :: DeclaredIn(check, |check.questions|, n) <==> Declares(check.questions, n)
  {
    if forall p :: !NumberProblem(check, p) {
      forall i, j | 0 <= i < j < |check.questions| ensures check.questions[i].number != check.questions[j].number {
        assert !NumberProblem(check, DeclaredTwice(check.questions[j].number));
      }
      forall i | 0 <= i < |check.questions| && check.planQuestions > 0
        ensures check.questions[i].number <= check.planQuestions
      {
        assert !NumberProblem(check, NotInPlan(check.questions[i].number));
      }
    }
  }

  /** Numbers declared, and the problems of declaring them. */
  method CheckNumbers(check: Check) returns (problems: seq<Problem>, declared: set<int>)
    ensures problems == [] <==>
      (forall i, j | 0 <= i < j < |check.questions| :: check.questions[i].number != check.questions[j].number) &&
      (check.planQuestions > 0 ==>
        forall i | 0 <= i < |check.questions| :: check.questions[i].number <= check.planQuestions)
    ensures forall n :: n in declared <==> Declares(check.questions, n)
    ensures forall p :: p in problems <==> NumberProblem(check, p)
  {
    hide DeclaredIn, TwiceIn, Declares;
    problems, declared := [], {};
    NoNumbersYet(check);
    for k := 0 to |check.questions|
      invariant forall p :: p in problems <==> NumberProblemIn(check, k, p)
      invariant forall n :: n in declared <==> DeclaredIn(check, k, n)
    {
      NumbersOneMore(check, k);
      var number := check.questions[k].number;
      if number in declared {
        problems := problems + [DeclaredTwice(number)];
      } else if check.planQuestions > 0 && number > check.planQuestions {
        problems := problems + [NotInPlan(number)];
      }
      declared := declared + {number};
    }
    NumbersAreFine(check);
    if problems != [] {
      assert problems[0] in problems;
      assert NumberProblem(check, problems[0]);
    } else {
      forall p ensures !NumberProblem(check, p) {
        assert p !in problems;
      }
    }
  }

  method MissingQuestions(declared: set<int>, planQuestions: int) returns (missing: seq<int>)
    ensures forall n :: n in missing <==> 1 <= n <= planQuestions && n !in declared
    ensures missing == [] <==> forall n | 1 <= n <= planQuestions :: n in declared
  {
    missing := [];
    var question := 1;
    while question <= planQuestions
      invariant 1 <= question
      invariant question <= planQuestions + 1 || question == 1
      invariant forall n :: n in missing <==> 1 <= n < question && n !in declared
      invariant missing == [] <==> forall n | 1 <= n < question :: n in declared
      decreases planQuestions - question
    {
      if question !in declared {
        missing := missing + [question];
      }
      question := question + 1;
    }
  }

  method TaggedQuestions(claims: seq<Claim>) returns (tagged: set<int>)
    ensures forall n :: n in tagged <==> Tagged(claims, n)
  {
    tagged := {};
    for k := 0 to |claims|
      invariant forall n :: n in tagged <==>
        n > 0 && exists i :: 0 <= i < k && UsableClaim(claims[i]) && claims[i].question == n
    {
      if UsableClaim(claims[k]) && claims[k].question > 0 {
        tagged := tagged + {claims[k].question};
      }
    }
  }

  lemma {:induction false} FiltersMean(check: Check, cards: seq<string>)
    ensures forall id :: id in Unknowns(check, cards) <==> id in cards && ClaimOf(check.claims, id).None?
    ensures forall id :: id in Unusables(check, cards) <==>
      id in cards && ClaimOf(check.claims, id).Some? && !UsableClaim(ClaimOf(check.claims, id).value)
    ensures forall id :: id in Uncitables(check, cards) <==>
      id in cards && ClaimOf(check.claims, id).Some? && UsableClaim(ClaimOf(check.claims, id).value) &&
      id !in check.cited
    ensures Unknowns(check, cards) == [] && Unusables(check, cards) == [] && Uncitables(check, cards) == [] <==>
      forall i | 0 <= i < |cards| :: GoodCard(check, cards[i])
    decreases |cards|
  {
    hide ClaimOf, UsableClaim;
    if cards != [] {
      var front, last := cards[..|cards| - 1], cards[|cards| - 1];
      FiltersMean(check, front);
      assert forall id :: id in cards <==> id in front || id == last;
      assert forall i | 0 <= i < |front| :: front[i] == cards[i];
    }
  }

  /** Named cards that do not exist, that failed verification, and that the report
      never cites; a card is listed for the first of these that applies. */
  method CheckCards(check: Check, q: Question)
    returns (unknown: seq<string>, unusable: seq<string>, uncited: seq<string>)
    ensures unknown == Unknowns(check, q.cards) && unusable == Unusables(check, q.cards)
    ensures uncited == Uncitables(check, q.cards)
    ensures forall id :: id in unknown <==> id in q.cards && ClaimOf(check.claims, id).None?
    ensures forall id :: id in unusable <==>
      id in q.cards && ClaimOf(check.claims, id).Some? && !UsableClaim(ClaimOf(check.claims, id).value)
    ensures forall id :: id in uncited <==>
      id in q.cards && ClaimOf(check.claims, id).Some? && UsableClaim(ClaimOf(check.claims, id).value) &&
      id !in check.cited
    ensures unknown == [] && unusable == [] && uncited == [] <==>
      forall i | 0 <= i < |q.cards| :: GoodCard(check, q.cards[i])
  {
    hide ClaimOf, UsableClaim;
    unknown, unusable, uncited := [], [], [];
    for k := 0 to |q.cards|
      invariant unknown == Unknowns(check, q.cards[..k]) && unusable == Unusables(check, q.cards[..k])
      invariant uncited == Uncitables(check, q.cards[..k])
    {
      assert q.cards[..k + 1][..k] == q.cards[..k];
      var claim := ClaimOf(check.claims, q.cards[k]);
      if claim.None? {
        unknown := unknown + [q.cards[k]];
      } else if !UsableClaim(claim.value) {
        unusable := unusable + [q.cards[k]];
      } else if q.cards[k] !in check.cited {
        uncited := uncited + [q.cards[k]];
      }
    }
    assert q.cards[..|q.cards|] == q.cards;
    FiltersMean(check, q.cards);
  }

  predicate ByNumber(a: Question, b: Question) {
    a.number <= b.number
  }

  method CheckPlan(check: Check) returns (problems: seq<Problem>)
    ensures problems == [] <==> check.running == 0 && DeclaresThePlan(check)
    ensures forall p :: p in problems ==> IsProblem(check, p)
    ensures forall p :: IsProblem(check, p) && (p.StillRunning? || p.DeclaredTwice? || p.NotInPlan?) ==> p in problems
    ensures (exists n :: 1 <= n <= check.planQuestions && !Declares(check.questions, n)) ==>
      exists qs :: Missing(qs) in problems
  {
    hide NumberProblem;
    problems := [];
    if check.running > 0 {
      problems := problems + [StillRunning];
    }
    var numbers, declared := CheckNumbers(check);
    NumberProblemsAreTwo(check);
    problems := problems + numbers;
    var missing := MissingQuestions(declared, check.planQuestions);
    if |missing| > 0 {
      problems := problems + [Missing(missing)];
      assert problems[|problems| - 1] == Missing(missing);
    }
  }

  lemma NumberProblemsAreTwo(check: Check)
    ensures forall p :: NumberProblem(check, p) ==> p.DeclaredTwice? || p.NotInPlan?
  {
  }

  /** What is wrong with one question, apart from a round it owes. */
  method CheckQuestion(check: Check, q: Question) returns (problems: seq<Problem>)
    ensures forall p :: p in problems <==> QuestionProblem(check, q, p)
    ensures problems == [] && !Owes(check, q) <==> GoodQuestion(check, q)
  {
    hide GoodCard, Owes, Unknowns, Unusables, Uncitables;
    problems := [];
    if !q.status.NotFound? && |q.cards| == 0 {
      problems := problems + [NoCards(q.number)];
    }
    var unknown, unusable, uncited := CheckCards(check, q);
    if |unknown| > 0 {
      problems := problems + [Unknown(q.number, unknown)];
    }
    if |unusable| > 0 {
      problems := problems + [Unusable(q.number, unusable)];
    }
    if |uncited| > 0 {
      problems := problems + [Uncited(q.number, uncited)];
    }
  }

  method CheckQuestions(check: Check) returns (problems: seq<Problem>, retry: seq<int>)
    ensures problems == [] && retry == [] <==>
      forall i | 0 <= i < |check.questions| :: GoodQuestion(check, check.questions[i])
    ensures forall n :: n in retry <==> OwesNumber(check, n)
    ensures forall p :: p in problems <==> SomeQuestionProblem(check, p)
  {
    hide GoodQuestion, QuestionProblem, Tagged;
    var tagged := TaggedQuestions(check.claims);
    problems, retry := [], [];
    for k := 0 to |check.questions|
      invariant problems == [] && retry == [] <==> forall i | 0 <= i < k :: GoodQuestion(check, check.questions[i])
      invariant forall n :: n in retry <==>
        exists i :: 0 <= i < k && check.questions[i].number == n && Owes(check, check.questions[i])
      invariant forall p :: p in problems <==>
        exists i :: 0 <= i < k && QuestionProblem(check, check.questions[i], p)
    {
      var q := check.questions[k];
      var found := CheckQuestion(check, q);
      problems := problems + found;
      if q.status.NotFound? && q.number !in tagged && !check.budgetExhausted && q.number !in check.retried {
        retry := retry + [q.number];
      }
    }
  }

  method StopReasonOf(check: Check, questions: seq<Question>) returns (stop: StopReason)
    requires forall q :: q in questions <==> q in check.questions
    ensures stop == StopOf(check)
  {
    stop := StopAnswered;
    for k := 0 to |questions|
      invariant stop == if forall i | 0 <= i < k :: questions[i].status.Answered? then StopAnswered else StopPartial
    {
      if !questions[k].status.Answered? {
        stop := StopPartial;
      }
    }
    SameStatuses(questions, check.questions);
    if check.budgetExhausted {
      stop := StopBudget;
    }
  }

  /** A declaration is accepted exactly when no subagent runs, the plan is
      declared, every named card is usable and cited, and no question owes a
      round. What is sent back for a round is exactly what owes one, and the problems
      that are listed are exactly those there are. */
  method CheckResearchCompletion(check: Check) returns (r: Output)
    ensures r.accepted <==> Acceptable(check)
    ensures r.accepted <==> r.problems == []
    ensures r.accepted ==> multiset(r.questions) == multiset(check.questions) && Ascending(ByNumber, r.questions)
    ensures r.accepted ==> r.stop == Some(StopOf(check)) && r.retry == []
    ensures r.accepted ==> (r.stop == Some(StopBudget) <==> check.budgetExhausted)
    ensures r.accepted ==>
      (r.stop == Some(StopAnswered) <==>
        !check.budgetExhausted && forall i | 0 <= i < |check.questions| :: check.questions[i].status.Answered?)
    ensures r.retry != [] ==> OwesRound(r.retry) in r.problems
    ensures forall n :: n in r.retry <==> OwesNumber(check, n)
    ensures forall p :: p in r.problems ==> IsProblem(check, p)
    ensures forall p :: IsProblem(check, p) && !p.Missing? && !p.OwesRound? ==> p in r.problems
    ensures (exists n :: 1 <= n <= check.planQuestions && !Declares(check.questions, n)) ==>
      exists qs :: Missing(qs) in r.problems
  {
    hide DeclaresThePlan, GoodQuestion, OwesNumber, Sorted, Ascending, NumberProblem, SomeQuestionProblem;
    QuestionProblemsAreFour(check);
    var problems := CheckPlan(check);
    var more, retry := CheckQuestions(check);
    problems := problems + more;
    if |retry| > 0 {
      problems := problems + [OwesRound(retry)];
    }
    if |problems| > 0 {
      return Output(false, None, [], problems, retry);
    }
    var questions := Sorted(ByNumber, check.questions);
    SortedAscends(ByNumber, check.questions);
    SortedHasTheSame(ByNumber, check.questions);
    var stop := StopReasonOf(check, questions);
    return Output(true, Some(stop), questions, [], []);
  }

  lemma QuestionProblemsAreFour(check: Check)
    ensures forall p :: SomeQuestionProblem(check, p) ==> p.NoCards? || p.Unknown? || p.Unusable? || p.Uncited?
  {
    hide Unknowns, Unusables, Uncitables;
  }

  lemma SameStatuses(a: seq<Question>, b: seq<Question>)
    requires forall q :: q in a <==> q in b
    ensures (forall i | 0 <= i < |a| :: a[i].status.Answered?) <==> forall i | 0 <= i < |b| :: b[i].status.Answered?
  {
    assert (forall i | 0 <= i < |a| :: a[i].status.Answered?) <==> forall q :: q in a ==> q.status.Answered?;
    assert (forall i | 0 <= i < |b| :: b[i].status.Answered?) <==> forall q :: q in b ==> q.status.Answered?;
  }

  // ----- Rounds that were asked for -----

  const COMPLETE := "complete_research"
  const ASSEMBLE := "assemble_research_report"

  predicate IsRetryAction(name: string) {
    name in ["web_search", "read_url", "read_document_pages", "read_source", "search_evidence", "search_text",
      "save_url_as_source", "spawn_agent"]
  }

  predicate Succeeds(action: AcceptedAction) {
    action.result.Some? && action.result.value.status.Succeeded?
  }

  /** What a stored complete_research result says; None if it does not decode. */
  datatype Declaration = Declaration(accepted: bool, retry: seq<int>)
  type Decoder = Raw -> Option<Declaration>

  function DeclarationOf(decode: Decoder, action: AcceptedAction): Option<Declaration> {
    if action.name == COMPLETE && Succeeds(action) then decode(action.result.value.output) else None
  }

  predicate Searches(proposal: AcceptedProposal) {
    exists i :: 0 <= i < |proposal.actions| && IsRetryAction(proposal.actions[i].name) && Succeeds(proposal.actions[i])
  }

  /** A declaration in this decision sent the question back. */
  predicate SendsBack(decode: Decoder, proposal: AcceptedProposal, question: int) {
    exists i :: 0 <= i < |proposal.actions| && SentBackBy(decode, proposal.actions[i], question)
  }

  predicate SentBackBy(decode: Decoder, action: AcceptedAction, question: int) {
    var declaration := DeclarationOf(decode, action);
    declaration.Some? && question in declaration.value.retry
  }

  /** The question was sent back by decision i and a later decision j looked for
      new evidence. */
  ghost predicate Retried(decode: Decoder, proposals: seq<AcceptedProposal>, question: int) {
    exists i, j :: 0 <= i < j < |proposals| && SendsBack(decode, proposals[i], question) && Searches(proposals[j])
  }

  ghost predicate Named(decode: Decoder, proposals: seq<AcceptedProposal>, question: int) {
    exists i :: 0 <= i < |proposals| && SendsBack(decode, proposals[i], question)
  }

  lemma NamedOneMore(decode: Decoder, proposals: seq<AcceptedProposal>, k: nat, question: int)
    requires k < |proposals|
    ensures Named(decode, proposals[..k + 1], question) <==>
      Named(decode, proposals[..k], question) || SendsBack(decode, proposals[k], question)
  {
    hide SendsBack;
    var front, longer := proposals[..k], proposals[..k + 1];
    if Named(decode, front, question) {
      var i :| 0 <= i < k && SendsBack(decode, front[i], question);
      assert SendsBack(decode, longer[i], question);
    }
    if SendsBack(decode, proposals[k], question) {
      assert SendsBack(decode, longer[k], question);
    }
    if Named(decode, longer, question) {
      var i :| 0 <= i < k + 1 && SendsBack(decode, longer[i], question);
      assert i < k ==> SendsBack(decode, front[i], question);
    }
  }

  lemma RetriedOneMore(decode: Decoder, proposals: seq<AcceptedProposal>, k: nat, question: int)
    requires k < |proposals|
    ensures Retried(decode, proposals[..k + 1], question) <==>
      Retried(decode, proposals[..k], question) || (Named(decode, proposals[..k], question) && Searches(proposals[k]))
  {
    hide SendsBack, Searches;
    var front, longer := proposals[..k], proposals[..k + 1];
    if Retried(decode, front, question) {
      var i, j :| 0 <= i < j < k && SendsBack(decode, front[i], question) && Searches(front[j]);
      assert SendsBack(decode, longer[i], question) && Searches(longer[j]);
    }
    if Named(decode, front, question) && Searches(proposals[k]) {
      var i :| 0 <= i < k && SendsBack(decode, front[i], question);
      assert SendsBack(decode, longer[i], question) && Searches(longer[k]);
    }
    if Retried(decode, longer, question) {
      var i, j :| 0 <= i < j < k + 1 && SendsBack(decode, longer[i], question) && Searches(longer[j]);
      assert SendsBack(decode, front[i], question);
      assert j < k ==> Searches(front[j]);
    }
  }

  method LooksForEvidence(proposal: AcceptedProposal) returns (searched: bool)
    ensures searched <==> Searches(proposal)
  {
    hide Succeeds;
    searched := false;
    for i := 0 to |proposal.actions|
      invariant searched <==>
        exists j :: 0 <= j < i && IsRetryAction(proposal.actions[j].name) && Succeeds(proposal.actions[j])
    {
      if IsRetryAction(proposal.actions[i].name) && Succeeds(proposal.actions[i]) {
        searched := true;
      }
    }
  }

  /** Adds what the declarations of a decision sent back and that is not done. */
  method AddSentBack(decode: Decoder, proposal: AcceptedProposal, pending: set<int>, done: set<int>)
    returns (r: set<int>)
    ensures forall q :: q in r <==> q in pending || (q !in done && SendsBack(decode, proposal, q))
  {
    hide DeclarationOf;
    r := pending;
    for i := 0 to |proposal.actions|
      invariant forall q :: q in r <==>
        q in pending || (q !in done && exists j :: 0 <= j < i && SentBackBy(decode, proposal.actions[j], q))
    {
      var declaration := DeclarationOf(decode, proposal.actions[i]);
      if declaration.Some? {
        r := r + (set q | q in declaration.value.retry && q !in done);
      }
    }
  }

  /** The questions whose extra round has run: exactly those a declaration sent
      back before a later decision that looked for new evidence. */
  method ResearchCompletionRetriedQuestions(decode: Decoder, prefix: Prefix) returns (done: set<int>)
    ensures forall q :: q in done <==> Retried(decode, prefix.proposals, q)
  {
    hide SendsBack, Searches, Retried, Named;
    var proposals := prefix.proposals;
    var pending: set<int> := {};
    done := {};
    NothingYet(decode);
    assert proposals[..0] == [];
    for k := 0 to |proposals|
      invariant forall q :: q in done <==> Retried(decode, proposals[..k], q)
      invariant forall q :: q in pending || q in done <==> Named(decode, proposals[..k], q)
    {
      forall q ensures Retried(decode, proposals[..k + 1], q) <==>
        Retried(decode, proposals[..k], q) || (Named(decode, proposals[..k], q) && Searches(proposals[k]))
      {
        RetriedOneMore(decode, proposals, k, q);
      }
      forall q ensures Named(decode, proposals[..k + 1], q) <==>
        Named(decode, proposals[..k], q) || SendsBack(decode, proposals[k], q) {
        NamedOneMore(decode, proposals, k, q);
      }
      var searched := LooksForEvidence(proposals[k]);
      if searched {
        done := done + pending;
        pending := {};
      }
      pending := AddSentBack(decode, proposals[k], pending, done);
    }
    assert proposals[..|proposals|] == proposals;
  }

  lemma NothingYet(decode: Decoder)
    ensures forall q :: !Retried(decode, [], q) && !Named(decode, [], q)
  {
  }

  /** Once the extra round has run it stays run, so no later declaration sends the
      question back again. */
  lemma NoSecondRound(
    decode: Decoder, proposals: seq<AcceptedProposal>, more: seq<AcceptedProposal>, question: int, check: Check)
    requires Retried(decode, proposals, question)
    requires forall q :: q in check.retried <==> Retried(decode, proposals + more, q)
    ensures question in check.retried
    ensures forall i | 0 <= i < |check.questions| && check.questions[i].number == question ::
      !Owes(check, check.questions[i])
  {
    hide SendsBack, Searches;
    var i, j :| 0 <= i < j < |proposals| && SendsBack(decode, proposals[i], question) && Searches(proposals[j]);
    assert SendsBack(decode, (proposals + more)[i], question) && Searches((proposals + more)[j]);
  }

  // ----- The declaration that stands -----

  function AllActions(proposals: seq<AcceptedProposal>): seq<AcceptedAction> {
    if proposals == [] then [] else AllActions(proposals[..|proposals| - 1]) + proposals[|proposals| - 1].actions
  }

  predicate Assembles(action: AcceptedAction) {
    action.name == ASSEMBLE && Succeeds(action)
  }

  predicate Accepts(decode: Decoder, action: AcceptedAction) {
    var declaration := DeclarationOf(decode, action);
    declaration.Some? && declaration.value.accepted
  }

  /** The last accepted declaration, if no assembly came after it. */
  function Standing(decode: Decoder, actions: seq<AcceptedAction>): Option<Declaration> {
    if actions == [] then None
    else
      var last := actions[|actions| - 1];
      if Accepts(decode, last) then DeclarationOf(decode, last)
      else if Assembles(last) then None
      else Standing(decode, actions[..|actions| - 1])
  }

  lemma StandingOneMore(decode: Decoder, actions: seq<AcceptedAction>, action: AcceptedAction)
    ensures Standing(decode, actions + [action]) ==
      (if Accepts(decode, action) then DeclarationOf(decode, action) else if Assembles(action) then None
      else Standing(decode, actions))
  {
    assert (actions + [action])[..|actions|] == actions;
  }

  ghost predicate StandsAt(decode: Decoder, actions: seq<AcceptedAction>, k: int) {
    0 <= k < |actions| && Accepts(decode, actions[k]) && forall m | k < m < |actions| :: !Assembles(actions[m])
  }

  /** The one that stands is the last accepted one, and no assembly came after it. */
  lemma {:induction false} TheLastAcceptedStands(decode: Decoder, actions: seq<AcceptedAction>, k: nat)
    requires k < |actions| && Accepts(decode, actions[k])
    requires forall m | k < m < |actions| :: !Accepts(decode, actions[m])
    ensures Standing(decode, actions) ==
      if StandsAt(decode, actions, k) then DeclarationOf(decode, actions[k]) else None
    decreases |actions|
  {
    hide DeclarationOf, Assembles, Accepts;
    var n := |actions| - 1;
    if k < n {
      if !Assembles(actions[n]) {
        TheLastAcceptedStands(decode, actions[..n], k);
        assert StandsAt(decode, actions, k) <==> StandsAt(decode, actions[..n], k);
      } else {
        assert !StandsAt(decode, actions, k);
      }
    }
  }

  /** It is found exactly when a declaration was accepted after the last
      successful assembly. */
  lemma {:induction false} StandsExactlyAfterAssembly(decode: Decoder, actions: seq<AcceptedAction>)
    ensures Standing(decode, actions).Some? <==> exists k :: StandsAt(decode, actions, k)
    decreases |actions|
  {
    hide DeclarationOf, Assembles, Accepts;
    if actions != [] {
      var n := |actions| - 1;
      var front := actions[..n];
      StandsExactlyAfterAssembly(decode, front);
      if Accepts(decode, actions[n]) {
        StandingIsAccepted(decode, actions);
        assert StandsAt(decode, actions, n);
      } else if !Assembles(actions[n]) && Standing(decode, front).Some? {
        var k :| StandsAt(decode, front, k);
        assert StandsAt(decode, actions, k);
      }
      if k :| StandsAt(decode, actions, k) {
        assert k < n ==> StandsAt(decode, front, k);
      }
    }
  }

  lemma StandingIsAccepted(decode: Decoder, actions: seq<AcceptedAction>)
    requires actions != [] && Accepts(decode, actions[|actions| - 1])
    ensures Standing(decode, actions).Some?
  {
  }

  method AcceptedResearchCompletion(decode: Decoder, prefix: Prefix) returns (latest: Option<Declaration>)
    ensures latest == Standing(decode, AllActions(prefix.proposals))
  {
    hide Standing, Accepts, Assembles, DeclarationOf;
    var proposals := prefix.proposals;
    latest := None;
    assert Standing(decode, []) == None by { NothingStands(decode); }
    for k := 0 to |proposals|
      invariant latest == Standing(decode, AllActions(proposals[..k]))
    {
      assert proposals[..k + 1][..k] == proposals[..k];
      var actions := proposals[k].actions;
      ghost var before := AllActions(proposals[..k]);
      assert before + actions[..0] == before;
      for i := 0 to |actions|
        invariant latest == Standing(decode, before + actions[..i])
      {
        var action := actions[i];
        assert before + actions[..i + 1] == before + actions[..i] + [action];
        StandingOneMore(decode, before + actions[..i], action);
        NotBoth(decode, action);
        if Assembles(action) {
          latest := None;
        }
        if Accepts(decode, action) {
          latest := DeclarationOf(decode, action);
        }
      }
      assert actions[..|actions|] == actions;
    }
    assert proposals[..|proposals|] == proposals;
  }

  lemma NothingStands(decode: Decoder)
    ensures Standing(decode, []) == None
  {
  }

  lemma NotBoth(decode: Decoder, action: AcceptedAction)
    ensures !(Assembles(action) && Accepts(decode, action))
  {
  }
}

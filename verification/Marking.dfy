/** Marking a paper: however it was dealt, the marks are the same. */
module Marking {
  import opened Bytes
  import opened Exams

  type Id = string

  datatype ExamOption = ExamOption(id: Id, correct: bool)

  datatype Question = Question(id: Id, options: seq<ExamOption>, points: real)

  datatype Exam = Exam(questions: seq<Question>, weighted: bool, passPercent: nat)

  /** The option ids a candidate selected for a question. */
  datatype Selection = Selection(question: Id, options: seq<Id>)

  datatype QuestionResult = QuestionResult(question: Id, answered: bool, correct: bool, points: real, earned: real,
      key: seq<Id>)

  datatype Marks = Marks(total: real, earned: real, percent: int, passed: bool, correctCount: nat, questionCount: nat)

  function Weight(q: Question, weighted: bool): real { if weighted then q.points else 1.0 }

  function CorrectIds(options: seq<ExamOption>): seq<Id> {
    if options == [] then []
    else (if options[0].correct then [options[0].id] else []) + CorrectIds(options[1..])
  }

  predicate IsAnswerCorrect(key: seq<Id>, selected: seq<Id>) {
    && key != []
    && var chosen := set s | s in selected;
    |key| == |chosen| && forall id :: id in key ==> id in chosen
  }

  // ── When an answer is right ───────────────────────────────────────────────

  lemma {:induction false} ElementsOfDistinct<T>(s: seq<T>)
    ensures |Elements(s)| <= |s|
    ensures |Elements(s)| == |s| <==> Distinct(s)
  {
    if s != [] {
      var rest, last := s[..|s| - 1], s[|s| - 1];
      ElementsOfDistinct(rest);
      assert Elements(s) == Elements(rest) + {last};
      if last in rest {
        var i :| 0 <= i < |rest| && rest[i] == last;
        assert s[i] == s[|s| - 1];
        assert Elements(s) == Elements(rest);
      } else if Distinct(rest) {
        assert Distinct(s);
      } else {
        var i, j :| 0 <= i < j < |rest| && rest[i] == rest[j];
        assert s[i] == s[j];
      }
    }
  }

  /** The whole key was chosen and nothing else. */
  ghost predicate Matches(key: seq<Id>, selected: seq<Id>) { key != [] && Elements(selected) == Elements(key) }

  /** The size test says "exactly the key" for every selection exactly when no id occurs in the key twice. */
  lemma RightMeansTheWholeKey(key: seq<Id>)
    ensures Distinct(key) <==> forall selected :: IsAnswerCorrect(key, selected) <==> Matches(key, selected)
  {
    ElementsOfDistinct(key);
    if Distinct(key) {
      forall selected
        ensures IsAnswerCorrect(key, selected) <==> Matches(key, selected)
      {
        DistinctKeyMatches(key, selected);
      }
    } else {
      assert Matches(key, key) && !IsAnswerCorrect(key, key) by {
        assert (set s | s in key) == Elements(key);
      }
    }
  }

  lemma DistinctKeyMatches(key: seq<Id>, selected: seq<Id>)
    requires Distinct(key)
    ensures IsAnswerCorrect(key, selected) <==> Matches(key, selected)
  {
    ElementsOfDistinct(key);
    var chosen := set s | s in selected;
    assert chosen == Elements(selected);
    if IsAnswerCorrect(key, selected) {
      assert Elements(key) <= chosen;
      SubsetOfSameSize(Elements(key), chosen);
    }
  }

  lemma SubsetOfSameSize<T>(a: set<T>, b: set<T>)
    requires a <= b && |a| == |b|
    ensures a == b
  {
    assert b == a + (b - a);
    assert |b| == |a| + |b - a|;
  }

  // ── Marking ───────────────────────────────────────────────────────────────

  /** `new Map(answers)`: of several answers to one question the last counts. */
  function SelectedFor(answers: seq<Selection>, question: Id): seq<Id> {
    if answers == [] then []
    else
      var last := |answers| - 1;
      if answers[last].question == question then answers[last].options else SelectedFor(answers[..last], question)
  }

  predicate Right(q: Question, answers: seq<Selection>) {
    var selected := SelectedFor(answers, q.id);
    selected != [] && IsAnswerCorrect(CorrectIds(q.options), selected)
  }

  function Result(q: Question, weighted: bool, answers: seq<Selection>): QuestionResult {
    var right, points := Right(q, answers), Weight(q, weighted);
    var earned := if right then points else 0.0;
    QuestionResult(q.id, SelectedFor(answers, q.id) != [], right, points, earned, CorrectIds(q.options))
  }

  /** The running totals of the marking loop. */
  datatype Tally = Tally(total: real, earned: real, right: nat)

  function Add(t: Tally, q: Question, weighted: bool, answers: seq<Selection>): Tally {
    var points := Weight(q, weighted);
    if Right(q, answers) then Tally(t.total + points, t.earned + points, t.right + 1) else t.(total := t.total + points)
  }

  function TallyOf(qs: seq<Question>, weighted: bool, answers: seq<Selection>): Tally {
    if qs == [] then Tally(0.0, 0.0, 0)
    else Add(TallyOf(qs[..|qs| - 1], weighted, answers), qs[|qs| - 1], weighted, answers)
  }

  /** `Math.round`: halves go up. */
  function Round(x: real): int { (x + 0.5).Floor }

  /** A paper of no weight at all is scored by the share of questions answered correctly. */
  function Percent(t: Tally, count: nat): int {
    if t.total > 0.0 then Round(t.earned / t.total * 100.0)
    else if count > 0 then Round(t.right as real / count as real * 100.0)
    else 0
  }

  function MarksOf(exam: Exam, t: Tally): Marks {
    var percent := Percent(t, |exam.questions|);
    Marks(t.total, t.earned, percent, percent >= exam.passPercent, t.right, |exam.questions|)
  }

  function Grade(exam: Exam, answers: seq<Selection>): Marks {
    MarksOf(exam, TallyOf(exam.questions, exam.weighted, answers))
  }

  method ByQuestion(answers: seq<Selection>) returns (byQuestion: map<Id, seq<Id>>)
    ensures forall id :: (if id in byQuestion then byQuestion[id] else []) == SelectedFor(answers, id)
  {
    byQuestion := map[];
    for i := 0 to |answers|
      invariant forall id :: (if id in byQuestion then byQuestion[id] else []) == SelectedFor(answers[..i], id)
    {
      byQuestion := byQuestion[answers[i].question := answers[i].options];
      assert answers[..i + 1][..i] == answers[..i];
    }
    assert answers[..|answers|] == answers;
  }

  method MarkOne(q: Question, weighted: bool, selected: seq<Id>, ghost answers: seq<Selection>)
    returns (result: QuestionResult)
    requires selected == SelectedFor(answers, q.id)
    ensures result == Result(q, weighted, answers)
  {
    var points := Weight(q, weighted);
    var correct := selected != [] && IsAnswerCorrect(CorrectIds(q.options), selected);
    result := QuestionResult(q.id, selected != [], correct, points, if correct then points else 0.0,
        CorrectIds(q.options));
  }

  /** What one result adds to the totals. */
  function Counting(t: Tally, r: QuestionResult): Tally {
    if r.correct then Tally(t.total + r.points, t.earned + r.points, t.right + 1) else t.(total := t.total + r.points)
  }

  lemma TallyNext(qs: seq<Question>, i: nat, weighted: bool, answers: seq<Selection>, r: QuestionResult)
    requires i < |qs| && r == Result(qs[i], weighted, answers)
    ensures TallyOf(qs[..i + 1], weighted, answers) == Counting(TallyOf(qs[..i], weighted, answers), r)
  {
    assert qs[..i + 1][..i] == qs[..i];
  }

  ghost predicate AllMarked(results: seq<QuestionResult>, qs: seq<Question>, weighted: bool, answers: seq<Selection>) {
    |results| == |qs| && forall i :: 0 <= i < |results| ==> results[i] == Result(qs[i], weighted, answers)
  }

  lemma MarkedNext(results: seq<QuestionResult>, qs: seq<Question>, i: nat, weighted: bool, answers: seq<Selection>,
                   r: QuestionResult)
    requires i < |qs| && AllMarked(results, qs[..i], weighted, answers) && r == Result(qs[i], weighted, answers)
    ensures AllMarked(results + [r], qs[..i + 1], weighted, answers)
  {
  }

  method Count(t: Tally, r: QuestionResult) returns (after: Tally)
    ensures after == Counting(t, r)
  {
    after := t.(total := t.total + r.points);
    if r.correct {
      after := after.(earned := after.earned + r.points, right := after.right + 1);
    }
  }

  method TallyUp(exam: Exam, answers: seq<Selection>) returns (t: Tally, results: seq<QuestionResult>)
    ensures t == TallyOf(exam.questions, exam.weighted, answers)
    ensures AllMarked(results, exam.questions, exam.weighted, answers)
  {
    var byQuestion := ByQuestion(answers);
    t, results := Tally(0.0, 0.0, 0), [];
    for i := 0 to |exam.questions|
      invariant t == TallyOf(exam.questions[..i], exam.weighted, answers)
      invariant AllMarked(results, exam.questions[..i], exam.weighted, answers)
    {
      var q := exam.questions[i];
      var result := MarkOne(q, exam.weighted, if q.id in byQuestion then byQuestion[q.id] else [], answers);
      t := Count(t, result);
      TallyNext(exam.questions, i, exam.weighted, answers, result);
      MarkedNext(results, exam.questions, i, exam.weighted, answers, result);
      results := results + [result];
    }
    assert exam.questions[..|exam.questions|] == exam.questions;
  }

  method GradeExam(exam: Exam, answers: seq<Selection>) returns (marks: Marks, results: seq<QuestionResult>)
    ensures marks == Grade(exam, answers)
    ensures AllMarked(results, exam.questions, exam.weighted, answers)
    ensures FollowsKey(results, exam, answers)
    ensures Totals(marks, results)
  {
    var t;
    t, results := TallyUp(exam, answers);
    marks := MarksOf(exam, t);
    MarkedByTheKey(exam, answers, results);
    TotalsAreSums(exam.questions, exam.weighted, answers, results);
  }

  // ── What the marks mean ───────────────────────────────────────────────────

  /** The ids of the options that are correct. */
  ghost function KeyOf(options: seq<ExamOption>): set<Id> { set o | o in options && o.correct :: o.id }

  /** No two correct options share an id. */
  ghost predicate KeyIsDistinct(options: seq<ExamOption>) {
    forall i, j :: 0 <= i < j < |options| && options[i].correct && options[j].correct ==> options[i].id != options[j].id
  }

  /** What the last of the answers to a question chose. */
  ghost predicate Chose(answers: seq<Selection>, question: Id, chosen: set<Id>) {
    || (chosen == {} && forall a :: a in answers ==> a.question != question)
    || exists i | LastAnswer(answers, question, i) :: chosen == Elements(answers[i].options)
  }

  ghost predicate LastAnswer(answers: seq<Selection>, question: Id, i: int) {
    && 0 <= i < |answers| && answers[i].question == question
    && forall j :: i < j < |answers| ==> answers[j].question != question
  }

  /**
   * A question is right exactly when there is a key and the last answer to it chose all of it and nothing else; a
   * right one earns its points and any other earns nothing.
   */
  ghost predicate FollowsKey(results: seq<QuestionResult>, exam: Exam, answers: seq<Selection>) {
    && |results| == |exam.questions|
    && forall i :: 0 <= i < |results| ==> ResultFollowsKey(results[i], exam.questions[i], exam.weighted, answers)
  }

  ghost predicate ResultFollowsKey(r: QuestionResult, q: Question, weighted: bool, answers: seq<Selection>) {
    exists chosen ::
      && Chose(answers, q.id, chosen)
      && r.question == q.id && (r.answered <==> chosen != {}) && Elements(r.key) == KeyOf(q.options)
      && (KeyIsDistinct(q.options) ==> (r.correct <==> chosen == KeyOf(q.options) != {}))
      && r.points == (if weighted then q.points else 1.0)
      && r.earned == (if r.correct then r.points else 0.0)
  }

  /** The marks add up what the results say. */
  ghost predicate Totals(marks: Marks, results: seq<QuestionResult>) {
    && marks.total == PointsOf(results) && marks.earned == EarnedOf(results)
    && marks.correctCount == |RightOnes(results)|
    && marks.questionCount == |results|
  }

  function PointsOf(results: seq<QuestionResult>): real {
    if results == [] then 0.0 else PointsOf(results[..|results| - 1]) + results[|results| - 1].points
  }

  function EarnedOf(results: seq<QuestionResult>): real {
    if results == [] then 0.0 else EarnedOf(results[..|results| - 1]) + results[|results| - 1].earned
  }

  lemma {:induction false} SelectedIsChosen(answers: seq<Selection>, question: Id)
    ensures Chose(answers, question, Elements(SelectedFor(answers, question)))
  {
    if answers != [] {
      var last := |answers| - 1;
      if answers[last].question != question {
        SelectedIsChosen(answers[..last], question);
        ChoseStays(answers, question, Elements(SelectedFor(answers, question)));
      }
    }
  }

  lemma ChoseStays(answers: seq<Selection>, question: Id, chosen: set<Id>)
    requires answers != [] && answers[|answers| - 1].question != question
    requires Chose(answers[..|answers| - 1], question, chosen)
    ensures Chose(answers, question, chosen)
  {
    var before, last := answers[..|answers| - 1], answers[|answers| - 1];
    assert answers == before + [last];
    if i :| LastAnswer(before, question, i) && chosen == Elements(before[i].options) {
      assert answers[i] == before[i];
      assert forall j :: i < j < |before| ==> answers[j] == before[j];
      assert LastAnswer(answers, question, i);
    }
  }

  lemma {:induction false} KeyIsCorrectIds(options: seq<ExamOption>)
    ensures Elements(CorrectIds(options)) == KeyOf(options)
  {
    if options != [] {
      KeyIsCorrectIds(options[1..]);
      KeySplits(options);
      var own := if options[0].correct then [options[0].id] else [];
      assert Elements(own + CorrectIds(options[1..])) == Elements(own) + Elements(CorrectIds(options[1..]));
    }
  }

  lemma KeySplits(options: seq<ExamOption>)
    requires options != []
    ensures KeyOf(options) == (if options[0].correct then {options[0].id} else {}) + KeyOf(options[1..])
  {
    assert forall o :: o in options <==> o == options[0] || o in options[1..];
  }

  lemma {:induction false} DistinctOptions(options: seq<ExamOption>)
    requires KeyIsDistinct(options)
    ensures Distinct(CorrectIds(options))
  {
    if options != [] {
      var rest := options[1..];
      DistinctOptions(rest);
      KeyIsCorrectIds(rest);
      if options[0].correct {
        FirstIsApart(options);
        assert options[0].id !in Elements(CorrectIds(rest));
        DistinctCons(options[0].id, CorrectIds(rest));
      }
    }
  }

  lemma FirstIsApart(options: seq<ExamOption>)
    requires options != [] && options[0].correct && KeyIsDistinct(options)
    ensures options[0].id !in KeyOf(options[1..])
  {
    assert forall o :: o in options[1..] && o.correct ==> o.id != options[0].id;
  }

  lemma DistinctCons<T>(x: T, s: seq<T>)
    requires Distinct(s) && x !in s
    ensures Distinct([x] + s)
  {
  }

  lemma ResultIsByTheKey(q: Question, weighted: bool, answers: seq<Selection>)
    ensures ResultFollowsKey(Result(q, weighted, answers), q, weighted, answers)
  {
    var selected, key := SelectedFor(answers, q.id), CorrectIds(q.options);
    var chosen := Elements(selected);
    SelectedIsChosen(answers, q.id);
    KeyIsCorrectIds(q.options);
    assert selected != [] ==> selected[0] in chosen;
    assert key != [] ==> key[0] in Elements(key);
    if KeyIsDistinct(q.options) {
      DistinctOptions(q.options);
      DistinctKeyMatches(key, selected);
    }
  }

  lemma MarkedByTheKey(exam: Exam, answers: seq<Selection>, results: seq<QuestionResult>)
    requires AllMarked(results, exam.questions, exam.weighted, answers)
    ensures FollowsKey(results, exam, answers)
  {
    forall i | 0 <= i < |results|
      ensures ResultFollowsKey(results[i], exam.questions[i], exam.weighted, answers)
    {
      ResultIsByTheKey(exam.questions[i], exam.weighted, answers);
    }
  }

  /** The results that are right. */
  ghost function RightOnes(results: seq<QuestionResult>): set<nat> {
    set i: nat | i < |results| && results[i].correct
  }

  lemma {:induction false} TotalsAreSums(qs: seq<Question>, weighted: bool, answers: seq<Selection>,
                                         results: seq<QuestionResult>)
    requires AllMarked(results, qs, weighted, answers)
    ensures var t := TallyOf(qs, weighted, answers);
      t.total == PointsOf(results) && t.earned == EarnedOf(results) && t.right == |RightOnes(results)|
  {
    if results != [] {
      var n := |results| - 1;
      TotalsAreSums(qs[..n], weighted, answers, results[..n]);
      TallyNext(qs, n, weighted, answers, results[n]);
      assert qs[..n + 1] == qs;
      RightOneMore(results, n);
    }
  }

  lemma RightOneMore(results: seq<QuestionResult>, n: nat)
    requires |results| == n + 1
    ensures |RightOnes(results)| == |RightOnes(results[..n])| + if results[n].correct then 1 else 0
  {
    var before := RightOnes(results[..n]);
    assert n !in before;
    assert RightOnes(results) == if results[n].correct then before + {n} else before;
  }

  // ── Bounds ────────────────────────────────────────────────────────────────

  /** What the paper's schema guarantees. */
  predicate PointsOk(qs: seq<Question>) { forall q :: q in qs ==> 0.0 <= q.points <= 100.0 }

  lemma {:induction false} EarnedWithinTotal(qs: seq<Question>, weighted: bool, answers: seq<Selection>)
    requires PointsOk(qs)
    ensures 0.0 <= TallyOf(qs, weighted, answers).earned <= TallyOf(qs, weighted, answers).total
    ensures TallyOf(qs, weighted, answers).right <= |qs|
  {
    if qs != [] {
      assert qs[|qs| - 1] in qs;
      EarnedWithinTotal(qs[..|qs| - 1], weighted, answers);
    }
  }

  lemma ShareIsAPercentage(part: real, whole: real)
    requires 0.0 <= part <= whole && whole > 0.0
    ensures 0.0 <= part / whole * 100.0 <= 100.0
  {
    var x := part / whole;
    assert x * whole == part;
    FactorIsPositive(x, whole);
    FactorIsPositive(1.0 - x, whole);
  }

  lemma FactorIsPositive(x: real, whole: real)
    requires whole > 0.0 && x * whole >= 0.0
    ensures x >= 0.0
  {
  }

  /** Nobody earns more than the paper is worth, and the mark is a whole percentage. */
  lemma GradeIsAPercentage(exam: Exam, answers: seq<Selection>)
    requires PointsOk(exam.questions)
    ensures 0.0 <= Grade(exam, answers).earned <= Grade(exam, answers).total
    ensures 0 <= Grade(exam, answers).percent <= 100
    ensures Grade(exam, answers).correctCount <= Grade(exam, answers).questionCount
  {
    var t := TallyOf(exam.questions, exam.weighted, answers);
    EarnedWithinTotal(exam.questions, exam.weighted, answers);
    if t.total > 0.0 {
      ShareIsAPercentage(t.earned, t.total);
    } else if exam.questions != [] {
      ShareIsAPercentage(t.right as real, |exam.questions| as real);
    }
  }

  /** The share a paper is judged by: of the marks, or of the questions when no question carries any. */
  function Share(exam: Exam, t: Tally): real {
    if t.total > 0.0 then t.earned / t.total * 100.0
    else if exam.questions != [] then t.right as real / |exam.questions| as real * 100.0
    else 0.0
  }

  /** The mark is the whole percentage nearest the share, so the bar is half a percent lower, and no more. */
  lemma PassMark(exam: Exam, answers: seq<Selection>)
    ensures var share, marks := Share(exam, TallyOf(exam.questions, exam.weighted, answers)), Grade(exam, answers);
      && marks.percent as real - 0.5 <= share < marks.percent as real + 0.5
      && (marks.passed <==> share >= exam.passPercent as real - 0.5)
  {
  }

  // ── However it was dealt ──────────────────────────────────────────────────

  lemma AddCommutes(t: Tally, p: Question, q: Question, weighted: bool, answers: seq<Selection>)
    ensures Add(Add(t, p, weighted, answers), q, weighted, answers) ==
      Add(Add(t, q, weighted, answers), p, weighted, answers)
  {
  }

  function Without<T>(s: seq<T>, k: nat): seq<T>
    requires k < |s|
  {
    s[..k] + s[k + 1..]
  }

  /** Any question can be marked last. */
  lemma {:induction false} MarkedLast(qs: seq<Question>, k: nat, weighted: bool, answers: seq<Selection>)
    requires k < |qs|
    ensures TallyOf(qs, weighted, answers) == Add(TallyOf(Without(qs, k), weighted, answers), qs[k], weighted, answers)
  {
    var last := |qs| - 1;
    if k == last {
      assert Without(qs, k) == qs[..last];
    } else {
      MarkedLast(qs[..last], k, weighted, answers);
      assert Without(qs, k)[..last - 1] == Without(qs[..last], k);
      AddCommutes(TallyOf(Without(qs[..last], k), weighted, answers), qs[k], qs[last], weighted, answers);
    }
  }

  lemma RemoveOne<T>(s: seq<T>, k: nat)
    requires k < |s|
    ensures multiset(s) == multiset(Without(s, k)) + multiset{s[k]}
  {
    assert s == s[..k] + [s[k]] + s[k + 1..];
  }

  /** The order of the questions does not matter. */
  lemma {:induction false} TallyIgnoresOrder(qs: seq<Question>, dealt: seq<Question>, weighted: bool,
                                             answers: seq<Selection>)
    requires multiset(qs) == multiset(dealt)
    ensures TallyOf(qs, weighted, answers) == TallyOf(dealt, weighted, answers) && |qs| == |dealt|
    decreases |qs|
  {
    assert |multiset(qs)| == |qs| && |multiset(dealt)| == |dealt|;
    if qs != [] {
      var last := |qs| - 1;
      assert qs[last] in multiset(dealt);
      var k :| 0 <= k < |dealt| && dealt[k] == qs[last];
      RemoveOne(qs, last);
      RemoveOne(dealt, k);
      assert Without(qs, last) == qs[..last];
      Cancelled(multiset(qs[..last]), multiset(Without(dealt, k)), qs[last]);
      TallyIgnoresOrder(qs[..last], Without(dealt, k), weighted, answers);
      MarkedLast(dealt, k, weighted, answers);
    }
  }

  /** The key's ids, counted: they depend only on the options there are. */
  function KeyCount(options: multiset<ExamOption>, id: Id): nat { options[ExamOption(id, true)] }

  lemma {:induction false} KeyIsCounted(options: seq<ExamOption>, id: Id)
    ensures multiset(CorrectIds(options))[id] == KeyCount(multiset(options), id)
  {
    if options != [] {
      KeyIsCounted(options[1..], id);
      var own := if options[0].correct then [options[0].id] else [];
      CountOfBoth([options[0]], options[1..], ExamOption(id, true));
      CountOfBoth(own, CorrectIds(options[1..]), id);
      assert options == [options[0]] + options[1..];
    }
  }

  lemma CountOfBoth<T>(a: seq<T>, b: seq<T>, x: T)
    ensures multiset(a + b)[x] == multiset(a)[x] + multiset(b)[x]
  {
  }

  /** The order of the options does not matter. */
  lemma KeyIgnoresOrder(options: seq<ExamOption>, dealt: seq<ExamOption>, selected: seq<Id>)
    requires multiset(options) == multiset(dealt)
    ensures multiset(CorrectIds(options)) == multiset(CorrectIds(dealt))
    ensures IsAnswerCorrect(CorrectIds(options), selected) == IsAnswerCorrect(CorrectIds(dealt), selected)
  {
    var a, b := CorrectIds(options), CorrectIds(dealt);
    forall id: Id
      ensures multiset(a)[id] == multiset(b)[id]
    {
      KeyIsCounted(options, id);
      KeyIsCounted(dealt, id);
    }
    SameMultiset(a, b);
  }

  lemma SameMultiset<T>(a: seq<T>, b: seq<T>)
    requires multiset(a) == multiset(b)
    ensures |a| == |b| && forall x :: x in a <==> x in b
  {
    assert |multiset(a)| == |a| && |multiset(b)| == |b|;
    forall x
      ensures x in a <==> x in b
    {
      assert x in a <==> x in multiset(a);
      assert x in b <==> x in multiset(b);
    }
  }

  /** The same question with its options dealt in another order. */
  predicate Redealt(q: Question, dealt: Question) {
    q.id == dealt.id && q.points == dealt.points && multiset(q.options) == multiset(dealt.options)
  }

  lemma {:induction false} TallyIgnoresOptions(qs: seq<Question>, dealt: seq<Question>, weighted: bool,
                                               answers: seq<Selection>)
    requires |qs| == |dealt| && forall i :: 0 <= i < |qs| ==> Redealt(qs[i], dealt[i])
    ensures TallyOf(qs, weighted, answers) == TallyOf(dealt, weighted, answers)
  {
    if qs != [] {
      var last := |qs| - 1;
      TallyIgnoresOptions(qs[..last], dealt[..last], weighted, answers);
      KeyIgnoresOrder(qs[last].options, dealt[last].options, SelectedFor(answers, qs[last].id));
    }
  }

  /** At most one answer to a question. */
  ghost predicate OneEach(answers: seq<Selection>) {
    forall i, j :: 0 <= i < j < |answers| ==> answers[i].question != answers[j].question
  }

  lemma {:induction false} SelectedIsListed(answers: seq<Selection>, question: Id, a: Selection)
    requires OneEach(answers) && a in answers && a.question == question
    ensures SelectedFor(answers, question) == a.options
  {
    var last := |answers| - 1;
    if answers[last] != a {
      SelectedIsListed(answers[..last], question, a);
    }
  }

  lemma {:induction false} UnansweredIsEmpty(answers: seq<Selection>, question: Id)
    requires forall a :: a in answers ==> a.question != question
    ensures SelectedFor(answers, question) == []
  {
    if answers != [] {
      assert answers[|answers| - 1] in answers;
      UnansweredIsEmpty(answers[..|answers| - 1], question);
    }
  }

  /** The order in which answers were given does not matter. */
  lemma SelectedIgnoresOrder(answers: seq<Selection>, given: seq<Selection>, question: Id)
    requires OneEach(answers) && OneEach(given) && multiset(answers) == multiset(given)
    ensures SelectedFor(answers, question) == SelectedFor(given, question)
  {
    SameMultiset(answers, given);
    if a :| a in answers && a.question == question {
      SelectedIsListed(answers, question, a);
      SelectedIsListed(given, question, a);
    } else {
      UnansweredIsEmpty(answers, question);
      UnansweredIsEmpty(given, question);
    }
  }

  lemma {:induction false} TallyIgnoresAnswerOrder(qs: seq<Question>, weighted: bool, answers: seq<Selection>,
                                                   given: seq<Selection>)
    requires OneEach(answers) && OneEach(given) && multiset(answers) == multiset(given)
    ensures TallyOf(qs, weighted, answers) == TallyOf(qs, weighted, given)
  {
    if qs != [] {
      TallyIgnoresAnswerOrder(qs[..|qs| - 1], weighted, answers, given);
      SelectedIgnoresOrder(answers, given, qs[|qs| - 1].id);
    }
  }

  /** Questions, options and answers in any order: every candidate is marked on the same paper. */
  lemma GradeIgnoresDealing(exam: Exam, reordered: seq<Question>, dealt: Exam, answers: seq<Selection>,
                            given: seq<Selection>)
    requires multiset(exam.questions) == multiset(reordered)
    requires |reordered| == |dealt.questions| && forall i :: 0 <= i < |reordered| ==>
      Redealt(reordered[i], dealt.questions[i])
    requires dealt.weighted == exam.weighted && dealt.passPercent == exam.passPercent
    requires OneEach(answers) && OneEach(given) && multiset(answers) == multiset(given)
    ensures Grade(dealt, given) == Grade(exam, answers)
  {
    TallyIgnoresOrder(exam.questions, reordered, exam.weighted, answers);
    TallyIgnoresOptions(reordered, dealt.questions, exam.weighted, answers);
    TallyIgnoresAnswerOrder(dealt.questions, exam.weighted, answers, given);
  }

  /** A paper as dealt: the questions shuffled by some draws, each question's options by some of its own. */
  ghost predicate IsDealt(exam: Exam, draws: seq<nat>, optionDraws: seq<seq<nat>>, dealt: Exam)
    requires IsDraws(draws, |exam.questions|)
  {
    var order := Dealt(exam.questions, draws);
    && dealt.weighted == exam.weighted && dealt.passPercent == exam.passPercent
    && |dealt.questions| == |optionDraws| == |order|
    && forall i :: 0 <= i < |order| ==>
         IsDraws(optionDraws[i], |order[i].options|)
         && dealt.questions[i] == order[i].(options := Dealt(order[i].options, optionDraws[i]))
  }

  /** Whatever a candidate was dealt, marking it is marking the paper as written. */
  lemma DealtPaperIsMarkedAsWritten(exam: Exam, draws: seq<nat>, optionDraws: seq<seq<nat>>, dealt: Exam,
                                    answers: seq<Selection>)
    requires IsDraws(draws, |exam.questions|) && IsDealt(exam, draws, optionDraws, dealt)
    ensures Grade(dealt, answers) == Grade(exam, answers)
  {
    var order := Dealt(exam.questions, draws);
    DealtPermutes(exam.questions, draws);
    forall i | 0 <= i < |order|
      ensures Redealt(order[i], dealt.questions[i])
    {
      DealtPermutes(order[i].options, optionDraws[i]);
    }
    TallyIgnoresOrder(exam.questions, order, exam.weighted, answers);
    TallyIgnoresOptions(order, dealt.questions, exam.weighted, answers);
  }
}

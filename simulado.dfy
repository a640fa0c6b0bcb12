/**
 * The mock-exam page: a fixed set of 40 questions, one attempt with a 90-minute
 * countdown, navigation between questions, answer selection, finishing (by the
 * button or by the clock) and scoring.
 */
module Simulado {
  import opened Wrappers
  import opened Decimal

  const QuestionCount: nat := 40
  const ExamSeconds: nat := 90 * 60
  /** 65% of 40 questions. */
  const PassMark: nat := 26
  const OptionCount: nat := 4

  datatype Question = Question(
    id: string,
    question: string,
    options: seq<string>,
    correctAnswer: int,
    explanation: Option<string>)

  /** What the result notification carries: the number of correct answers and the verdict. */
  datatype Verdict = Verdict(correct: nat, passed: bool)

  // ---------------------------------------------------------------------------
  // The question set
  // ---------------------------------------------------------------------------

  /** The id of the question at 0-based position `i`: "q1" .. "q40". */
  function MockId(i: nat): string {
    "q" + NatToString(i + 1)
  }

  const MockOptions: seq<string> := [
    "Um processo de verificação de que o software funciona conforme especificado",
    "Uma atividade realizada apenas após o desenvolvimento estar completo",
    "Um processo que garante 100% de ausência de defeitos",
    "Uma técnica de programação para evitar bugs" ]

  const MockExplanation: string :=
    "Teste de software é um processo de verificação e validação que o software atende aos requisitos especificados."

  /** The question at 0-based position `i` of the hardcoded set. */
  function MockQuestion(i: nat): Question {
    Question(
      MockId(i),
      "Questão " + NatToString(i + 1) + ": Qual das seguintes opções melhor descreve o conceito de teste de software no contexto CTFL?",
      MockOptions,
      0,
      Some(MockExplanation))
  }

  function MockQuestions(): (qs: seq<Question>)
    ensures |qs| == QuestionCount
  {
    seq(QuestionCount, i requires 0 <= i => MockQuestion(i))
  }

  predicate DistinctIds(qs: seq<Question>) {
    forall i, j :: 0 <= i < j < |qs| ==> qs[i].id != qs[j].id
  }

  /** Every question has four options and its correct answer is one of them. */
  predicate WellFormedQuestions(qs: seq<Question>) {
    forall i :: 0 <= i < |qs| ==> |qs[i].options| == OptionCount && 0 <= qs[i].correctAnswer < OptionCount
  }

  function Ids(qs: seq<Question>): set<string> {
    set i | 0 <= i < |qs| :: qs[i].id
  }

  lemma MockIdInjective(i: nat, j: nat)
    ensures MockId(i) == MockId(j) ==> i == j
  {
    if MockId(i) == MockId(j) {
      assert MockId(i)[1..] == NatToString(i + 1);
      assert MockId(j)[1..] == NatToString(j + 1);
    }
    NatToStringInjective(i + 1, j + 1);
  }

  /** The hardcoded set: ids "q1" .. "q40" are pairwise distinct and every answer key is option 0. */
  lemma MockQuestionsWellFormed()
    ensures DistinctIds(MockQuestions()) && WellFormedQuestions(MockQuestions())
    ensures forall i :: 0 <= i < QuestionCount ==> MockQuestions()[i].id == MockId(i)
    ensures forall i :: 0 <= i < QuestionCount ==> MockQuestions()[i].correctAnswer == 0
  {
    var qs := MockQuestions();
    forall i | 0 <= i < QuestionCount
      ensures qs[i].id == MockId(i) && qs[i].correctAnswer == 0 && qs[i].options == MockOptions
    {
      assert qs[i] == MockQuestion(i);
    }
    forall i, j | 0 <= i < j < |qs| ensures qs[i].id != qs[j].id {
      MockIdInjective(i, j);
    }
  }

  lemma SubsetCardinality<T>(a: set<T>, b: set<T>)
    requires a <= b
    ensures |a| <= |b|
    ensures |a| == |b| ==> a == b
  {
    assert b == a + (b - a);
    assert a * (b - a) == {};
    if |a| == |b| {
      assert |b - a| == 0;
    }
  }

  /** There are at most as many ids as questions, and exactly as many when they are distinct. */
  lemma {:induction false} IdsCardinality(qs: seq<Question>)
    ensures |Ids(qs)| <= |qs|
    ensures DistinctIds(qs) ==> |Ids(qs)| == |qs|
  {
    if qs != [] {
      var rest := qs[..|qs| - 1];
      var last := qs[|qs| - 1].id;
      IdsCardinality(rest);
      assert Ids(qs) == Ids(rest) + {last};
      if DistinctIds(qs) {
        assert DistinctIds(rest);
        assert last !in Ids(rest);
      }
    }
  }

  // ---------------------------------------------------------------------------
  // Scoring
  // ---------------------------------------------------------------------------

  /** `Array.prototype.find` on the question set: the first question with this id. */
  function Find(qs: seq<Question>, id: string): (r: Option<Question>)
    ensures r.Some? <==> id in Ids(qs)
    ensures r.Some? ==> r.value.id == id && r.value in qs
    decreases |qs|
  {
    if qs == [] then None
    else if qs[0].id == id then Some(qs[0])
    else
      assert Ids(qs) == {qs[0].id} + Ids(qs[1..]);
      Find(qs[1..], id)
  }

  /** The question found is the first one carrying the id. */
  lemma {:induction false} FindFirst(qs: seq<Question>, id: string, i: nat)
    requires i < |qs| && qs[i].id == id
    requires forall j :: 0 <= j < i ==> qs[j].id != id
    ensures Find(qs, id) == Some(qs[i])
    decreases i
  {
    if i > 0 {
      FindFirst(qs[1..], id, i - 1);
    }
  }

  /** An answer entry counts when its question exists and the stored option is the correct one. */
  predicate IsCorrect(qs: seq<Question>, id: string, answer: int) {
    var q := Find(qs, id);
    q.Some? && q.value.correctAnswer == answer
  }

  /** The ids of the answer entries that are correct. */
  function CorrectIds(answers: map<string, int>, qs: seq<Question>): set<string> {
    set id | id in answers && IsCorrect(qs, id, answers[id])
  }

  /** The number of answer entries whose question's correct answer equals the stored answer. */
  function CorrectCount(answers: map<string, int>, qs: seq<Question>): nat {
    |CorrectIds(answers, qs)|
  }

  function Passed(correct: nat): bool {
    correct >= PassMark
  }

  /** The result shown and notified at the end of the attempt. */
  function Evaluate(answers: map<string, int>): (v: Verdict)
    ensures v.correct <= |answers| && v.correct <= QuestionCount
    ensures v.passed <==> v.correct >= PassMark
  {
    CorrectCountBounds(answers, MockQuestions());
    var c := CorrectCount(answers, MockQuestions());
    Verdict(c, Passed(c))
  }

  /** The correct count is bounded by the number of answers and by the number of questions. */
  lemma CorrectCountBounds(answers: map<string, int>, qs: seq<Question>)
    ensures CorrectCount(answers, qs) <= |answers|
    ensures CorrectCount(answers, qs) <= |qs|
  {
    var c := CorrectIds(answers, qs);
    assert |answers.Keys| == |answers|;
    SubsetCardinality(c, answers.Keys);
    assert c <= Ids(qs) by {
      forall id | id in c ensures id in Ids(qs) { assert Find(qs, id).Some?; }
    }
    SubsetCardinality(c, Ids(qs));
    IdsCardinality(qs);
  }

  /** The question-by-question reading of the score: how many questions have their correct option stored. */
  function CountAnsweredCorrectly(qs: seq<Question>, answers: map<string, int>): (n: nat)
    ensures n <= |qs|
  {
    if qs == [] then 0
    else
      (if qs[0].id in answers && answers[qs[0].id] == qs[0].correctAnswer then 1 else 0)
      + CountAnsweredCorrectly(qs[1..], answers)
  }

  /** With distinct ids, counting correct answer entries equals counting correctly answered questions. */
  lemma {:induction false} CorrectCountPerQuestion(answers: map<string, int>, qs: seq<Question>)
    requires DistinctIds(qs)
    ensures CorrectCount(answers, qs) == CountAnsweredCorrectly(qs, answers)
    decreases |qs|
  {
    if qs == [] {
      assert CorrectIds(answers, qs) == {};
    } else {
      var q, rest := qs[0], qs[1..];
      assert DistinctIds(rest);
      CorrectCountPerQuestion(answers, rest);
      assert q.id !in Ids(rest) by {
        forall k | 0 <= k < |rest| ensures rest[k].id != q.id {
          assert rest[k] == qs[k + 1];
        }
      }
      var head := if q.id in answers && answers[q.id] == q.correctAnswer then {q.id} else {};
      assert CorrectIds(answers, qs) == head + CorrectIds(answers, rest) by {
        forall id ensures id in CorrectIds(answers, qs) <==> id in head + CorrectIds(answers, rest) {
          if id != q.id {
            assert Find(qs, id) == Find(rest, id);
          } else {
            assert Find(rest, id).None?;
          }
        }
      }
      assert head !! CorrectIds(answers, rest);
    }
  }

  lemma {:induction false} CountAllCorrect(qs: seq<Question>, answers: map<string, int>)
    requires forall i :: 0 <= i < |qs| ==> qs[i].id in answers && answers[qs[i].id] == qs[i].correctAnswer
    ensures CountAnsweredCorrectly(qs, answers) == |qs|
    decreases |qs|
  {
    if qs != [] {
      CountAllCorrect(qs[1..], answers);
    }
  }

  /** Answering every question with its key scores 40 of 40 and passes. */
  lemma AllCorrectPasses(answers: map<string, int>)
    requires forall i :: 0 <= i < QuestionCount ==> MockId(i) in answers && answers[MockId(i)] == 0
    ensures Evaluate(answers) == Verdict(QuestionCount, true)
  {
    var qs := MockQuestions();
    MockQuestionsWellFormed();
    CorrectCountPerQuestion(answers, qs);
    CountAllCorrect(qs, answers);
  }

  /** When no stored answer is correct the score is 0 and the attempt fails. */
  lemma NoneCorrectFails(answers: map<string, int>)
    requires forall id :: id in answers ==> !IsCorrect(MockQuestions(), id, answers[id])
    ensures Evaluate(answers) == Verdict(0, false)
  {
  }

  /** The pass mark is the smallest count reaching 65% of the questions: 25 fails, 26 passes. */
  lemma PassMarkIsSixtyFivePercent(correct: nat)
    ensures Passed(correct) <==> 100 * correct >= 65 * QuestionCount
    ensures !Passed(25) && Passed(26)
  {
  }

  // ---------------------------------------------------------------------------
  // The clock display
  // ---------------------------------------------------------------------------

  /** `n.toString().padStart(2, '0')`. */
  function TwoDigits(n: nat): string {
    PadStart(NatToString(n), 2, '0')
  }

  /** `formatTime`: whole minutes and leftover seconds, each zero-padded to two digits, joined by ':'. */
  function FormatTime(seconds: nat): string {
    TwoDigits(seconds / 60) + ":" + TwoDigits(seconds % 60)
  }

  /** Reads an "m..m:ss" clock back into minutes and seconds. */
  function ParseClock(t: string): Option<(nat, nat)> {
    if |t| >= 4 && t[|t| - 3] == ':' && IsDigits(t[..|t| - 3]) && IsDigits(t[|t| - 2..])
    then Some((ParseNat(t[..|t| - 3]), ParseNat(t[|t| - 2..])))
    else None
  }

  /** A padded number has at least two digits, exactly two below 100, and reads back as itself. */
  lemma TwoDigitsReadBack(n: nat)
    ensures IsDigits(TwoDigits(n)) && ParseNat(TwoDigits(n)) == n
    ensures |TwoDigits(n)| >= 2 && (n < 100 ==> |TwoDigits(n)| == 2)
  {
    if 10 <= n < 100 {
      assert |NatToString(n / 10)| == 1;
    }
    ParseNatPadded(NatToString(n), 2);
    ParseNatToString(n);
  }

  /** Splitting "m..m:ss" recovers the two digit runs it was joined from. */
  lemma ClockParts(mins: string, secs: string)
    requires IsDigits(mins) && IsDigits(secs) && |secs| == 2
    ensures ParseClock(mins + ":" + secs) == Some((ParseNat(mins), ParseNat(secs)))
  {
    var t := mins + ":" + secs;
    assert t[..|t| - 3] == mins;
    assert t[|t| - 2..] == secs;
  }

  lemma ClockReadBack(minutes: nat, secs: nat)
    requires secs < 100
    ensures ParseClock(TwoDigits(minutes) + ":" + TwoDigits(secs)) == Some((minutes, secs))
  {
    TwoDigitsReadBack(minutes);
    TwoDigitsReadBack(secs);
    ClockParts(TwoDigits(minutes), TwoDigits(secs));
  }

  /** The display shows `seconds / 60` minutes and `seconds % 60` seconds, which recombine to `seconds`. */
  lemma FormatTimeRoundTrip(seconds: nat)
    ensures |FormatTime(seconds)| >= 5
    ensures ParseClock(FormatTime(seconds)) == Some((seconds / 60, seconds % 60))
    ensures (seconds / 60) * 60 + seconds % 60 == seconds && seconds % 60 < 60
  {
    var m, s := seconds / 60, seconds % 60;
    assert m * 60 + s == seconds && s < 60;
    assert FormatTime(seconds) == TwoDigits(m) + ":" + TwoDigits(s);
    TwoDigitsReadBack(m);
    ClockReadBack(m, s);
  }

  /** The clock starts at "90:00". */
  lemma FormatTimeAtStart()
    ensures FormatTime(ExamSeconds) == "90:00"
  {
  }

  // ---------------------------------------------------------------------------
  // The attempt
  // ---------------------------------------------------------------------------

  /** Selecting answers can only create entries for ids of the question set, so at most 40 are answered. */
  lemma AnsweredAtMostQuestionCount(answers: map<string, int>)
    requires answers.Keys <= Ids(MockQuestions())
    ensures |answers| <= QuestionCount
  {
    IdsCardinality(MockQuestions());
    SubsetCardinality(answers.Keys, Ids(MockQuestions()));
    assert |answers.Keys| == |answers|;
  }

  /** The finish button is enabled (40 entries) exactly when every question of the set has an answer. */
  lemma {:induction false} FinishEnabledIffAllAnswered(answers: map<string, int>)
    requires answers.Keys <= Ids(MockQuestions())
    ensures |answers| >= QuestionCount <==> forall i :: 0 <= i < QuestionCount ==> MockQuestions()[i].id in answers
  {
    var qs := MockQuestions();
    MockQuestionsWellFormed();
    IdsCardinality(qs);
    assert |answers.Keys| == |answers|;
    SubsetCardinality(answers.Keys, Ids(qs));
    if forall i :: 0 <= i < QuestionCount ==> qs[i].id in answers {
      assert Ids(qs) <= answers.Keys;
      SubsetCardinality(Ids(qs), answers.Keys);
    }
    if |answers| >= QuestionCount {
      forall i | 0 <= i < QuestionCount ensures qs[i].id in answers {
        assert qs[i].id in Ids(qs);
      }
    }
  }

  /**
   * One attempt. The handlers of the question view (answer, next, previous,
   * quick navigation, finish button) only exist while that view is rendered,
   * that is while the results are not shown; an event arriving otherwise has
   * no effect.
   */
  class Session {
    var currentQuestion: nat
    var answers: map<string, int>
    var timeLeft: nat
    var isFinished: bool
    var showResults: bool
    /** The result notifications issued so far. */
    var notices: seq<Verdict>

    ghost predicate Valid()
      reads this
    {
      && currentQuestion < QuestionCount
      && timeLeft <= ExamSeconds
      && showResults == isFinished
      && answers.Keys <= Ids(MockQuestions())
      && notices == (if isFinished then [Evaluate(answers)] else [])
    }

    constructor ()
      ensures Valid()
      ensures currentQuestion == 0 && answers == map[] && timeLeft == ExamSeconds
      ensures !isFinished && !showResults && notices == []
    {
      currentQuestion := 0;
      answers := map[];
      timeLeft := ExamSeconds;
      isFinished := false;
      showResults := false;
      notices := [];
    }

    /** `handleAnswerChange`: record `value` for the current question, replacing any earlier choice. */
    method AnswerChange(value: int)
      requires Valid()
      modifies this`answers
      ensures Valid()
      ensures old(showResults) ==> answers == old(answers)
      ensures !old(showResults) ==> answers == old(answers)[MockQuestions()[currentQuestion].id := value]
    {
      if !showResults {
        var id := MockQuestions()[currentQuestion].id;
        assert id in Ids(MockQuestions());
        answers := answers[id := value];
      }
    }

    /** `handleNextQuestion`: one question forward, never past the last. */
    method NextQuestion()
      requires Valid()
      modifies this`currentQuestion
      ensures Valid()
      ensures currentQuestion == if !showResults && old(currentQuestion) < QuestionCount - 1
                                 then old(currentQuestion) + 1 else old(currentQuestion)
    {
      if !showResults && currentQuestion < QuestionCount - 1 {
        currentQuestion := currentQuestion + 1;
      }
    }

    /** `handlePreviousQuestion`: one question back, never before the first. */
    method PreviousQuestion()
      requires Valid()
      modifies this`currentQuestion
      ensures Valid()
      ensures currentQuestion == if !showResults && old(currentQuestion) > 0
                                 then old(currentQuestion) - 1 else old(currentQuestion)
    {
      if !showResults && currentQuestion > 0 {
        currentQuestion := currentQuestion - 1;
      }
    }

    /** A click on box `index` of the quick-navigation grid; the grid only has boxes 0 .. 39. */
    method GoToQuestion(index: int)
      requires Valid()
      modifies this`currentQuestion
      ensures Valid()
      ensures currentQuestion == if !showResults && 0 <= index < QuestionCount
                                 then index else old(currentQuestion)
    {
      if !showResults && 0 <= index < QuestionCount {
        currentQuestion := index;
      }
    }

    /** `handleFinishExam`: mark the attempt finished, notify the verdict and show the results. */
    method FinishExam()
      requires Valid() && !isFinished
      modifies this`isFinished, this`showResults, this`notices
      ensures Valid()
      ensures isFinished && showResults && notices == [Evaluate(answers)]
    {
      isFinished := true;
      notices := notices + [Evaluate(answers)];
      showResults := true;
    }

    /** The finish button is rendered only on the last question of the question view. */
    predicate FinishOffered()
      reads this
    {
      !showResults && currentQuestion == QuestionCount - 1
    }

    /** The finish button is disabled while fewer than 40 questions are answered. */
    predicate FinishEnabled()
      reads this
    {
      |answers| >= QuestionCount
    }

    /** A click on the finish button: it finishes only when offered and enabled. */
    method FinishClicked()
      requires Valid()
      modifies this`isFinished, this`showResults, this`notices
      ensures Valid()
      ensures old(FinishOffered() && FinishEnabled()) ==> isFinished && notices == [Evaluate(answers)]
      ensures !old(FinishOffered() && FinishEnabled()) ==>
                isFinished == old(isFinished) && showResults == old(showResults) && notices == old(notices)
    {
      if FinishOffered() && FinishEnabled() {
        FinishExam();
      }
    }

    /**
     * One step of the timer effect. While time is left, it is the 1 s timeout
     * callback that counts down by one. Once the count is 0, it is the next
     * effect run, right after that render, which finishes the attempt. Once
     * the attempt is finished, nothing happens. Running out of time needs no
     * answers at all.
     */
    method Tick()
      requires Valid()
      modifies this`timeLeft, this`isFinished, this`showResults, this`notices
      ensures Valid()
      ensures timeLeft <= old(timeLeft)
      ensures old(isFinished) ==>
                timeLeft == old(timeLeft) && isFinished && notices == old(notices)
      ensures !old(isFinished) && old(timeLeft) > 0 ==>
                timeLeft == old(timeLeft) - 1 && !isFinished && notices == old(notices)
      ensures !old(isFinished) && old(timeLeft) == 0 ==>
                timeLeft == 0 && isFinished && showResults && notices == [Evaluate(answers)]
    {
      if timeLeft > 0 && !isFinished {
        timeLeft := timeLeft - 1;
      } else if timeLeft == 0 && !isFinished {
        FinishExam();
      }
    }

    /** The results view: the score it shows is the verdict that was notified. */
    method Results() returns (correct: nat, passed: bool)
      requires Valid() && showResults
      ensures correct <= |answers| && correct <= QuestionCount
      ensures passed <==> correct >= PassMark
      ensures notices == [Verdict(correct, passed)]
    {
      var v := Evaluate(answers);
      correct, passed := v.correct, v.passed;
    }
  }
}

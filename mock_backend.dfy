/**
 * The in-memory mock backend: three mutable lists (subjects, questions,
 * attempts) seeded with sample data, CRUD operations on the first two, and
 * exam start, scoring and result listing. The clock is a parameter: `stamp`
 * stands for `Date.now()` and `now` for the current ISO timestamp.
 */
module MockBackend {
  import opened Common
  import opened ExamTypes

  /** A new subject as the admin form sends it: everything but the id and creation time. */
  datatype SubjectInput = SubjectInput(
    name: string, description: string, duration: int, totalQuestions: int, passingScore: int)

  /** A new question: everything but the id and creation time. */
  datatype QuestionInput = QuestionInput(
    subjectId: string, question: string, options: Four<string>, correctAnswer: int)

  /** A partial subject: the fields present override the stored ones. */
  datatype SubjectPatch = SubjectPatch(
    id: Option<string>, name: Option<string>, description: Option<string>,
    duration: Option<int>, totalQuestions: Option<int>, passingScore: Option<int>,
    createdAt: Option<string>)

  /** A partial question: the fields present override the stored ones. */
  datatype QuestionPatch = QuestionPatch(
    id: Option<string>, subjectId: Option<string>, question: Option<string>,
    options: Option<Four<string>>, correctAnswer: Option<int>, createdAt: Option<string>)

  const SubjectNotFound := "Subject not found"
  const QuestionNotFound := "Question not found"

  // ---------------------------------------------------------------------
  // Seed data

  function SeedSubjects(): seq<Subject> {
    [ Subject("1", "Mathematics", "Basic mathematics concepts and problem solving", 60, 10, 70, "2024-01-01T00:00:00Z"),
      Subject("2", "Science", "General science knowledge and principles", 45, 8, 75, "2024-01-02T00:00:00Z") ]
  }

  function SeedQuestions(): seq<Question> {
    [ Question("q1", "1", "What is 2 + 2?", Four("3", "4", "5", "6"), 1, "2024-01-01T00:00:00Z"),
      Question("q2", "1", "What is 10 - 7?", Four("2", "3", "4", "5"), 1, "2024-01-01T00:00:00Z"),
      Question("q3", "2", "What is the chemical symbol for water?", Four("H2O", "CO2", "O2", "N2"), 0, "2024-01-02T00:00:00Z") ]
  }

  function SeedAttempts(): seq<Attempt> {
    [ Attempt("attempt1", "student1", "Student User", "1", "Mathematics", map["q1" := 1, "q2" := 1],
        2, 2, Finite(100), "completed", 0, Some("2024-01-10T10:00:00Z"), "2024-01-10T09:00:00Z") ]
  }

  // ---------------------------------------------------------------------
  // Pure parts of the operations

  /** `{ ...subject, id, createdAt }`. */
  function NewSubject(input: SubjectInput, stamp: string, now: string): Subject {
    Subject(stamp, input.name, input.description, input.duration, input.totalQuestions, input.passingScore, now)
  }

  /** `{ ...question, id: 'q' + stamp, createdAt }`. */
  function NewQuestion(input: QuestionInput, stamp: string, now: string): Question {
    Question("q" + stamp, input.subjectId, input.question, input.options, input.correctAnswer, now)
  }

  /** `{ ...stored, ...patch }` for subjects. */
  function PatchSubject(s: Subject, p: SubjectPatch): Subject {
    Subject(p.id.GetOr(s.id), p.name.GetOr(s.name), p.description.GetOr(s.description),
      p.duration.GetOr(s.duration), p.totalQuestions.GetOr(s.totalQuestions),
      p.passingScore.GetOr(s.passingScore), p.createdAt.GetOr(s.createdAt))
  }

  /** `{ ...stored, ...patch }` for questions. */
  function PatchQuestion(q: Question, p: QuestionPatch): Question {
    Question(p.id.GetOr(q.id), p.subjectId.GetOr(q.subjectId), p.question.GetOr(q.question),
      p.options.GetOr(q.options), p.correctAnswer.GetOr(q.correctAnswer), p.createdAt.GetOr(q.createdAt))
  }

  /** An empty patch leaves a subject as it was; a present field always wins. */
  lemma PatchSubjectLaws(s: Subject, p: SubjectPatch)
    ensures p == SubjectPatch(None, None, None, None, None, None, None) ==> PatchSubject(s, p) == s
    ensures p.name.Some? ==> PatchSubject(s, p).name == p.name.value
    ensures p.name.None? ==> PatchSubject(s, p).name == s.name
    ensures p.passingScore.Some? ==> PatchSubject(s, p).passingScore == p.passingScore.value
    ensures p.id.None? ==> PatchSubject(s, p).id == s.id
    ensures PatchSubject(PatchSubject(s, p), p) == PatchSubject(s, p)
  {
  }

  /** An empty patch leaves a question as it was, and patching twice is patching once. */
  lemma PatchQuestionLaws(q: Question, p: QuestionPatch)
    ensures p == QuestionPatch(None, None, None, None, None, None) ==> PatchQuestion(q, p) == q
    ensures p.correctAnswer.Some? ==> PatchQuestion(q, p).correctAnswer == p.correctAnswer.value
    ensures p.id.None? ==> PatchQuestion(q, p).id == q.id
    ensures PatchQuestion(PatchQuestion(q, p), p) == PatchQuestion(q, p)
  {
  }

  function IndexOfSubject(subjects: seq<Subject>, id: string): Option<nat> {
    FirstIndex(subjects, (s: Subject) => s.id == id)
  }

  function IndexOfQuestion(questions: seq<Question>, id: string): Option<nat> {
    FirstIndex(questions, (q: Question) => q.id == id)
  }

  /** `questions.find(q => q.id === id)`. */
  function FindQuestion(questions: seq<Question>, id: string): Option<Question> {
    Find(questions, (q: Question) => q.id == id)
  }

  /**
   * The questions of one subject: those questions in stored order, each as
   * often as it is stored.
   */
  function OfSubject(questions: seq<Question>, subjectId: string): (r: seq<Question>)
    ensures forall q :: q in r <==> q in questions && q.subjectId == subjectId
    ensures SubsequenceOf(r, questions)
    ensures forall q :: multiset(r)[q] == if q.subjectId == subjectId then multiset(questions)[q] else 0
  {
    var keep := (q: Question) => q.subjectId == subjectId;
    FilterSelects(questions, keep);
    Filter(questions, keep)
  }

  /** One answer scores when its question exists (first match by id) and the chosen index is the correct one. */
  predicate Scores(questions: seq<Question>, answers: Answers, key: string)
    requires key in answers
  {
    var q := FindQuestion(questions, key);
    q.Some? && q.value.correctAnswer == answers[key]
  }

  /** The score over the answer keys in the given order. */
  function CorrectCount(keys: seq<string>, answers: Answers, questions: seq<Question>): nat
    requires forall k :: k in keys ==> k in answers
  {
    if keys == [] then 0
    else
      var front := keys[..|keys| - 1];
      CorrectCount(front, answers, questions) + (if Scores(questions, answers, keys[|keys| - 1]) then 1 else 0)
  }

  /** The answers that score, as a set: the order-free definition of the score. */
  function ScoringKeys(answers: Answers, questions: seq<Question>): set<string> {
    set k | k in answers && Scores(questions, answers, k)
  }

  /** `Math.round(score / total * 100)`, NaN when there are no answers. */
  function Percent(score: nat, total: nat): (p: Number)
    ensures p.NaN? <==> total == 0
    ensures total > 0 && score <= total ==> 0 <= p.value <= 100
    ensures total > 0 && score == total ==> p == Finite(100)
    ensures total > 0 && score == 0 ==> p == Finite(0)
  {
    if total == 0 then NaN
    else
      var r := RoundDiv(100 * score, total);
      assert score <= total ==> 0 <= r <= 100 by {
        if score <= total {
          assert 100 * score <= 100 * total;
          RoundDivBounds(100 * score, total, 0, 100);
        }
      }
      assert score == total ==> r == 100 by {
        if score == total {
          assert 100 * score == 100 * total;
          RoundDivExact(100, total);
        }
      }
      assert score == 0 ==> r == 0 by {
        if score == 0 {
          RoundDivExact(0, total);
        }
      }
      Finite(r)
  }

  // ---------------------------------------------------------------------
  // Properties of scoring

  /** The score never exceeds the number of answers counted. */
  lemma {:induction false} CorrectCountBound(keys: seq<string>, answers: Answers, questions: seq<Question>)
    requires forall k :: k in keys ==> k in answers
    ensures CorrectCount(keys, answers, questions) <= |keys|
  {
    if keys != [] {
      CorrectCountBound(keys[..|keys| - 1], answers, questions);
    }
  }

  /**
   * Over an enumeration of the answers, the score is the number of scoring
   * answers, whatever the enumeration order.
   */
  lemma {:induction false} CorrectCountIsScoringKeys(keys: seq<string>, answers: Answers, questions: seq<Question>)
    requires Enumerates(keys, answers)
    ensures CorrectCount(keys, answers, questions) == |ScoringKeys(answers, questions)|
  {
    CorrectCountSubset(keys, answers, questions);
    assert (set k | k in keys && Scores(questions, answers, k)) == ScoringKeys(answers, questions);
  }

  lemma {:induction false} CorrectCountSubset(keys: seq<string>, answers: Answers, questions: seq<Question>)
    requires forall k :: k in keys ==> k in answers
    requires forall i, j :: 0 <= i < j < |keys| ==> keys[i] != keys[j]
    ensures CorrectCount(keys, answers, questions) == |set k | k in keys && Scores(questions, answers, k)|
  {
    if keys != [] {
      var front := keys[..|keys| - 1];
      var last := keys[|keys| - 1];
      CorrectCountSubset(front, answers, questions);
      assert last !in front;
      assert keys == front + [last];
      ScoringSetStep(front, last, answers, questions);
    }
  }

  /** Adding one new key to the counted keys adds one to the scoring set exactly when that key scores. */
  lemma ScoringSetStep(front: seq<string>, last: string, answers: Answers, questions: seq<Question>)
    requires forall k :: k in front ==> k in answers
    requires last in answers && last !in front
    ensures |set k | k in front + [last] && Scores(questions, answers, k)|
            == |set k | k in front && Scores(questions, answers, k)| + (if Scores(questions, answers, last) then 1 else 0)
  {
    var before := set k | k in front && Scores(questions, answers, k);
    var after := set k | k in front + [last] && Scores(questions, answers, k);
    if Scores(questions, answers, last) {
      assert after == before + {last};
    } else {
      assert after == before;
    }
  }

  /** An answer to a question the store does not hold never scores. */
  lemma UnknownQuestionNeverScores(questions: seq<Question>, answers: Answers, key: string)
    requires key in answers && forall i :: 0 <= i < |questions| ==> questions[i].id != key
    ensures !Scores(questions, answers, key)
  {
  }

  /** The seeded attempt is consistent with the seeded questions: both answers score, 100 percent. */
  lemma SeedAttemptConsistent()
    ensures var a := SeedAttempts()[0];
      && Enumerates(["q1", "q2"], a.answers)
      && CorrectCount(["q1", "q2"], a.answers, SeedQuestions()) == a.score
      && Percent(a.score, a.totalQuestions) == a.percentage
  {
    var a := SeedAttempts()[0];
    var qs := SeedQuestions();
    assert FindQuestion(qs, "q1") == Some(qs[0]);
    assert FindQuestion(qs, "q2") == Some(qs[1]);
    assert ["q1", "q2"][..1] == ["q1"];
    assert ["q1"][..0] == [];
  }

  // ---------------------------------------------------------------------
  // The store

  class ExamStore {
    var subjects: seq<Subject>
    var questions: seq<Question>
    var attempts: seq<Attempt>

    /** The store as the module starts: the sample subjects, questions and attempt. */
    constructor Seeded()
      ensures subjects == SeedSubjects() && questions == SeedQuestions() && attempts == SeedAttempts()
    {
      subjects := SeedSubjects();
      questions := SeedQuestions();
      attempts := SeedAttempts();
    }

    /** `subjectApi.getAll`: a copy of the subject list. */
    function AllSubjects(): seq<Subject>
      reads this
    {
      subjects
    }

    /** `questionApi.getBySubjectId`: the subject's questions, in stored order. */
    function QuestionsOf(subjectId: string): (r: seq<Question>)
      reads this
      ensures forall q :: q in r <==> q in questions && q.subjectId == subjectId
      ensures SubsequenceOf(r, questions)
      ensures forall q :: multiset(r)[q] == if q.subjectId == subjectId then multiset(questions)[q] else 0
    {
      OfSubject(questions, subjectId)
    }

    /** `examApi.getStudentResults`: the attempts recorded for a student, in order. */
    function StudentResults(studentId: string): (r: seq<Attempt>)
      reads this
      ensures forall a :: a in r <==> a in attempts && a.studentId == studentId
      ensures SubsequenceOf(r, attempts)
      ensures forall a :: multiset(r)[a] == if a.studentId == studentId then multiset(attempts)[a] else 0
    {
      var keep := (a: Attempt) => a.studentId == studentId;
      FilterSelects(attempts, keep);
      Filter(attempts, keep)
    }

    /** `examApi.getAllResults`. */
    function AllResults(): seq<Attempt>
      reads this
    {
      attempts
    }

    /**
     * `examApi.startExam`: fails with "Subject not found" for an unknown
     * subject; otherwise a fresh session over the subject's questions with
     * its duration converted to seconds and no answers.
     */
    function StartExam(subjectId: string, studentId: string, stamp: string, now: string): (r: Result<Session>)
      reads this
      ensures r.Err? <==> forall i :: 0 <= i < |subjects| ==> subjects[i].id != subjectId
      ensures r.Err? ==> r.message == SubjectNotFound
      ensures r.Ok? ==> exists i ::
        && 0 <= i < |subjects| && subjects[i].id == subjectId
        && (forall j :: 0 <= j < i ==> subjects[j].id != subjectId)
        && r.value.timeRemaining == subjects[i].duration * 60
      ensures r.Ok? ==> r.value.subjectId == subjectId && r.value.studentId == studentId
                        && r.value.answers == map[]
                        && forall q :: q in r.value.questions <==> q in questions && q.subjectId == subjectId
      ensures r.Ok? ==> SubsequenceOf(r.value.questions, questions)
                        && forall q :: multiset(r.value.questions)[q]
                                      == if q.subjectId == subjectId then multiset(questions)[q] else 0
    {
      match Find(subjects, (s: Subject) => s.id == subjectId)
      case None => Err(SubjectNotFound)
      case Some(subject) =>
        Ok(Session("session_" + stamp, subjectId, studentId, OfSubject(questions, subjectId), map[],
          subject.duration * 60, now))
    }

    /** `subjectApi.create`: append the new subject and return it. */
    method CreateSubject(input: SubjectInput, stamp: string, now: string) returns (created: Subject)
      modifies this
      ensures created == NewSubject(input, stamp, now)
      ensures subjects == old(subjects) + [created]
      ensures questions == old(questions) && attempts == old(attempts)
    {
      created := NewSubject(input, stamp, now);
      subjects := subjects + [created];
    }

    /** `subjectApi.update`: merge the patch into the first subject with the id, or fail. */
    method UpdateSubject(id: string, patch: SubjectPatch) returns (r: Result<Subject>)
      modifies this
      ensures match IndexOfSubject(old(subjects), id)
        case None => r == Err(SubjectNotFound) && subjects == old(subjects)
        case Some(i) =>
          && subjects == old(subjects)[i := PatchSubject(old(subjects)[i], patch)]
          && r == Ok(subjects[i])
      ensures questions == old(questions) && attempts == old(attempts)
    {
      var found := IndexOfSubject(subjects, id);
      if found.None? {
        return Err(SubjectNotFound);
      }
      var i := found.value;
      subjects := subjects[i := PatchSubject(subjects[i], patch)];
      r := Ok(subjects[i]);
    }

    /** `subjectApi.delete`: remove the first subject with the id, or fail. */
    method DeleteSubject(id: string) returns (r: Result<()>)
      modifies this
      ensures match IndexOfSubject(old(subjects), id)
        case None => r == Err(SubjectNotFound) && subjects == old(subjects)
        case Some(i) => r == Ok(()) && subjects == old(subjects)[..i] + old(subjects)[i + 1..]
      ensures questions == old(questions) && attempts == old(attempts)
    {
      var found := IndexOfSubject(subjects, id);
      if found.None? {
        return Err(SubjectNotFound);
      }
      var i := found.value;
      subjects := subjects[..i] + subjects[i + 1..];
      r := Ok(());
    }

    /** `questionApi.create`: append the new question and return it. */
    method CreateQuestion(input: QuestionInput, stamp: string, now: string) returns (created: Question)
      modifies this
      ensures created == NewQuestion(input, stamp, now)
      ensures questions == old(questions) + [created]
      ensures subjects == old(subjects) && attempts == old(attempts)
    {
      created := NewQuestion(input, stamp, now);
      questions := questions + [created];
    }

    /** `questionApi.update`: merge the patch into the first question with the id, or fail. */
    method UpdateQuestion(id: string, patch: QuestionPatch) returns (r: Result<Question>)
      modifies this
      ensures match IndexOfQuestion(old(questions), id)
        case None => r == Err(QuestionNotFound) && questions == old(questions)
        case Some(i) =>
          && questions == old(questions)[i := PatchQuestion(old(questions)[i], patch)]
          && r == Ok(questions[i])
      ensures subjects == old(subjects) && attempts == old(attempts)
    {
      var found := IndexOfQuestion(questions, id);
      if found.None? {
        return Err(QuestionNotFound);
      }
      var i := found.value;
      questions := questions[i := PatchQuestion(questions[i], patch)];
      r := Ok(questions[i]);
    }

    /** `questionApi.delete`: remove the first question with the id, or fail. */
    method DeleteQuestion(id: string) returns (r: Result<()>)
      modifies this
      ensures match IndexOfQuestion(old(questions), id)
        case None => r == Err(QuestionNotFound) && questions == old(questions)
        case Some(i) => r == Ok(()) && questions == old(questions)[..i] + old(questions)[i + 1..]
      ensures subjects == old(subjects) && attempts == old(attempts)
    {
      var found := IndexOfQuestion(questions, id);
      if found.None? {
        return Err(QuestionNotFound);
      }
      var i := found.value;
      questions := questions[..i] + questions[i + 1..];
      r := Ok(());
    }

    /**
     * The scoring loop of `examApi.submitExam`: one point per answer whose
     * question is found among all stored questions and whose chosen index is
     * the correct one. `keys` is the enumeration order of the answers.
     */
    method Score(answers: Answers, keys: seq<string>) returns (score: nat)
      requires Enumerates(keys, answers)
      ensures score == CorrectCount(keys, answers, questions)
      ensures score == |ScoringKeys(answers, questions)|
      ensures score <= |keys|
    {
      score := 0;
      var i := 0;
      while i < |keys|
        invariant 0 <= i <= |keys|
        invariant score == CorrectCount(keys[..i], answers, questions)
      {
        var question := FindQuestion(questions, keys[i]);
        if question.Some? && question.value.correctAnswer == answers[keys[i]] {
          score := score + 1;
        }
        assert keys[..i + 1][..i] == keys[..i];
        i := i + 1;
      }
      assert keys[..i] == keys;
      CorrectCountIsScoringKeys(keys, answers, questions);
      CorrectCountBound(keys, answers, questions);
    }

    /**
     * `examApi.submitExam`: score the answers and record a completed attempt.
     * The student and subject are fixed ("student1", subject "1"), whatever
     * the session; the total is the number of answers, not of questions.
     */
    method SubmitExam(sessionId: string, answers: Answers, keys: seq<string>, stamp: string, now: string)
      returns (attempt: Attempt)
      requires Enumerates(keys, answers)
      modifies this
      ensures attempt.score == |ScoringKeys(answers, old(questions))|
      ensures attempt.totalQuestions == |keys| && 0 <= attempt.score <= attempt.totalQuestions
      ensures attempt.percentage == Percent(attempt.score, attempt.totalQuestions)
      ensures attempt.answers == answers && attempt.status == "completed" && attempt.timeRemaining == 0
      ensures attempt.studentId == "student1" && attempt.studentName == "Student User"
      ensures attempt.subjectId == "1" && attempt.subjectName == "Mathematics"
      ensures attempt.id == "attempt_" + stamp && attempt.submittedAt == Some(now) && attempt.createdAt == now
      ensures attempts == old(attempts) + [attempt]
      ensures subjects == old(subjects) && questions == old(questions)
    {
      var score := Score(answers, keys);
      var total := |keys|;
      attempt := Attempt("attempt_" + stamp, "student1", "Student User", "1", "Mathematics", answers,
        score, total, Percent(score, total), "completed", 0, Some(now), now);
      attempts := attempts + [attempt];
    }
  }

  /** Every submission is recorded under "student1": it shows in that student's results and nobody else's. */
  lemma SubmissionsGoToStudentOne(before: seq<Attempt>, attempt: Attempt, studentId: string)
    requires attempt.studentId == "student1"
    ensures Filter(before + [attempt], (a: Attempt) => a.studentId == studentId)
            == Filter(before, (a: Attempt) => a.studentId == studentId)
               + (if studentId == "student1" then [attempt] else [])
  {
    FilterAppend(before, [attempt], (a: Attempt) => a.studentId == studentId);
  }
}

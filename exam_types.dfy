/**
 * The client's domain records: subjects, questions, exam sessions and
 * recorded attempts, as the pages and services pass them around.
 */
module ExamTypes {
  import opened Common

  /** Exactly four values, one per option letter A..D. */
  datatype Four<T> = Four(a: T, b: T, c: T, d: T) {
    /** The value at option index 0..3. */
    function At(i: int): T
      requires 0 <= i < 4
    {
      if i == 0 then a else if i == 1 then b else if i == 2 then c else d
    }
  }

  /** An exam subject; `duration` is in minutes, `passingScore` a percentage. */
  datatype Subject = Subject(
    id: string,
    name: string,
    description: string,
    duration: int,
    totalQuestions: int,
    passingScore: int,
    createdAt: string)

  /** A multiple-choice question; `correctAnswer` is meant to be an option index 0..3. */
  datatype Question = Question(
    id: string,
    subjectId: string,
    question: string,
    options: Four<string>,
    correctAnswer: int,
    createdAt: string)

  /** Question id to the chosen option index. */
  type Answers = map<string, int>

  /** A submitted exam; `percentage` is NaN when it was computed over zero answers. */
  datatype Attempt = Attempt(
    id: string,
    studentId: string,
    studentName: string,
    subjectId: string,
    subjectName: string,
    answers: Answers,
    score: int,
    totalQuestions: int,
    percentage: Number,
    status: string,
    timeRemaining: int,
    submittedAt: Option<string>,
    createdAt: string)

  /** A running exam as the exam page receives it; `timeRemaining` is in seconds. */
  datatype Session = Session(
    id: string,
    subjectId: string,
    studentId: string,
    questions: seq<Question>,
    answers: Answers,
    timeRemaining: int,
    startedAt: string)

  /** True when the keys list every key of the map exactly once. */
  ghost predicate Enumerates<V>(keys: seq<string>, m: map<string, V>) {
    (forall i, j :: 0 <= i < j < |keys| ==> keys[i] != keys[j])
    && (forall k :: k in keys <==> k in m)
  }
}

/**
 * The earlier student dashboard, which works on typed attempts: a subject
 * is completed when an attempt's subject id is strictly equal to its id,
 * completed subjects offer their result instead of a new exam, and the
 * quick statistics count available subjects and average the percentages.
 */
module LegacyDashboard {
  import opened Common
  import opened ExamTypes
  import opened Grading
  import Dashboard

  function SubjectAttempt(attempts: seq<Attempt>, subjectId: string): (r: Option<Attempt>)
    ensures r.Some? <==> exists i :: 0 <= i < |attempts| && attempts[i].subjectId == subjectId
    ensures r.Some? ==> r.value.subjectId == subjectId
    ensures r.Some? ==> exists i :: (0 <= i < |attempts| && attempts[i] == r.value
      && forall j :: 0 <= j < i ==> attempts[j].subjectId != subjectId)
  {
    match FirstIndex(attempts, (a: Attempt) => a.subjectId == subjectId)
    case None => None
    case Some(i) => Some(attempts[i])
  }

  /** 'completed' exactly when some attempt belongs to the subject. */
  function SubjectStatus(attempts: seq<Attempt>, subjectId: string): (s: Dashboard.Status)
    ensures s == Dashboard.Completed <==> exists i :: 0 <= i < |attempts| && attempts[i].subjectId == subjectId
  {
    if SubjectAttempt(attempts, subjectId).Some? then Dashboard.Completed else Dashboard.Available
  }

  /** The button a subject card offers and where it leads. */
  datatype Action = StartExam(examRoute: string) | ViewResult(resultRoute: Option<string>)

  /**
   * An available subject offers "Start Exam"; a completed one offers "View
   * Result", which leads to the first matching attempt's result.
   */
  function CardAction(attempts: seq<Attempt>, subjectId: string): (r: Action)
    ensures r.StartExam? <==> SubjectStatus(attempts, subjectId) == Dashboard.Available
    ensures r.StartExam? ==> r.examRoute == "/exam/" + subjectId
    ensures r.ViewResult? ==> r.resultRoute.Some?
  {
    if SubjectStatus(attempts, subjectId) == Dashboard.Available then StartExam("/exam/" + subjectId)
    else ViewResult(ViewResultRoute(attempts, subjectId))
  }

  /** `handleViewResult`: navigates only when the subject has an attempt. */
  function ViewResultRoute(attempts: seq<Attempt>, subjectId: string): (r: Option<string>)
    ensures r.Some? <==> SubjectStatus(attempts, subjectId) == Dashboard.Completed
    ensures r.Some? ==> exists i ::
      && 0 <= i < |attempts| && attempts[i].subjectId == subjectId
      && (forall j :: 0 <= j < i ==> attempts[j].subjectId != subjectId)
      && r.value == "/result/" + attempts[i].id
  {
    match SubjectAttempt(attempts, subjectId)
    case Some(a) => Some("/result/" + a.id)
    case None => None
  }

  /** The "Available Exams" card: the number of subjects whose status is 'available'. */
  function AvailableCount(subjects: seq<Subject>, attempts: seq<Attempt>): (n: nat)
    ensures n <= |subjects|
    ensures n == |set i | 0 <= i < |subjects| && SubjectStatus(attempts, subjects[i].id) == Dashboard.Available|
  {
    var open := (s: Subject) => SubjectStatus(attempts, s.id) == Dashboard.Available;
    FilterCount(subjects, open);
    assert Positions(subjects, open)
        == set i | 0 <= i < |subjects| && SubjectStatus(attempts, subjects[i].id) == Dashboard.Available;
    |Filter(subjects, open)|
  }

  /** Available and completed subjects together are all subjects. */
  lemma AvailablePlusCompleted(subjects: seq<Subject>, attempts: seq<Attempt>)
    ensures AvailableCount(subjects, attempts)
      + |Filter(subjects, (s: Subject) => SubjectStatus(attempts, s.id) == Dashboard.Completed)| == |subjects|
  {
    var none := (s: Subject) => false;
    Dashboard.FilterSplits3(subjects, (s: Subject) => SubjectStatus(attempts, s.id) == Dashboard.Available,
      (s: Subject) => SubjectStatus(attempts, s.id) == Dashboard.Completed, none);
    FilterKeepsNone(subjects, none);
  }

  /** The "Average Score" card: the rounded mean percentage, or 'N/A' without attempts. */
  function AverageCard(attempts: seq<Attempt>): (r: Option<Number>)
    ensures r.None? <==> attempts == []
    ensures attempts != [] ==> r.value == RoundedMean(Map(attempts, (a: Attempt) => a.percentage))
  {
    AverageScore(Map(attempts, (a: Attempt) => a.percentage))
  }

  /** Everyone with the same percentage averages to it. */
  lemma AverageOfEqualScores(attempts: seq<Attempt>, c: int)
    requires attempts != [] && forall i :: 0 <= i < |attempts| ==> attempts[i].percentage == Finite(c)
    ensures AverageCard(attempts) == Some(Finite(c))
  {
    assert Map(attempts, (a: Attempt) => a.percentage) == seq(|attempts|, _ => Finite(c));
    MeanOfConstant(c, |attempts|);
  }

  /** A typed attempt as the newer dashboard receives it. */
  function AsDash(a: Attempt): Dashboard.DashAttempt {
    Dashboard.DashAttempt(a.id, JStr(a.subjectId), Undefined, a.percentage, a.subjectName)
  }

  /**
   * On typed attempts the newer, looser comparison agrees with strict
   * equality, except for a subject whose id is the text "undefined".
   */
  lemma NewerMatchAgrees(a: Attempt, subjectId: string)
    ensures a.subjectId == subjectId ==> Dashboard.MatchesSubject(AsDash(a), subjectId)
    ensures subjectId != "undefined" && Dashboard.MatchesSubject(AsDash(a), subjectId) ==> a.subjectId == subjectId
  {
  }

  /** Both dashboards give a subject the same status for typed attempts whose ids are not "undefined". */
  lemma StatusesAgree(attempts: seq<Attempt>, subjectId: string)
    requires subjectId != "undefined"
    ensures SubjectStatus(attempts, subjectId) == Dashboard.SubjectStatus(Map(attempts, AsDash), subjectId)
  {
    var dash := Map(attempts, AsDash);
    forall i | 0 <= i < |attempts|
      ensures attempts[i].subjectId == subjectId <==> Dashboard.MatchesSubject(dash[i], subjectId)
    {
      NewerMatchAgrees(attempts[i], subjectId);
    }
  }
}

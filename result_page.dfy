/**
 * The student's result page: the result it shows (a fixed sample in
 * place of a backend call), the coloured grade, the pass verdict, the
 * count of incorrect answers, and the retake button and study
 * recommendations offered to a student who did not pass.
 */
module ResultPage {
  import opened Common
  import opened ExamTypes
  import opened Grading
  import MockBackend

  /** The text colour class of each grade. */
  function ColourOf(g: Grade): string {
    match g
    case A => "text-green-600"
    case B => "text-green-500"
    case C => "text-yellow-600"
    case D => "text-orange-600"
    case F => "text-red-600"
  }

  /** `getGrade` of the result page: the grade and its colour at the 90/80/70/60 thresholds. */
  function GradeWithColour(p: Number): (r: (Grade, string))
    ensures r.0 == GradeOf(p)
    ensures r.1 == ColourOf(r.0)
  {
    if p.AtLeast(90) then (A, "text-green-600")
    else if p.AtLeast(80) then (B, "text-green-500")
    else if p.AtLeast(70) then (C, "text-yellow-600")
    else if p.AtLeast(60) then (D, "text-orange-600")
    else (F, "text-red-600")
  }

  /** Each grade has a colour of its own. */
  lemma ColoursDistinct(g: Grade, h: Grade)
    ensures ColourOf(g) == ColourOf(h) <==> g == h
  {
  }

  /** What the page shows for a result. */
  datatype View = View(
    grade: Grade,
    colour: string,
    passed: bool,
    correct: int,
    incorrect: int,
    retakeRoute: Option<string>,
    recommendations: bool)

  function Present(r: Attempt): (v: View)
    ensures (v.grade, v.colour) == GradeWithColour(r.percentage)
    ensures v.passed <==> Passed(r.percentage, DefaultPassingScore)
    ensures v.correct == r.score && v.incorrect == r.totalQuestions - r.score
    ensures v.retakeRoute.Some? <==> !v.passed
    ensures v.recommendations <==> !v.passed
    ensures v.retakeRoute.Some? ==> v.retakeRoute.value == "/exam/" + r.subjectId
  {
    var (grade, colour) := GradeWithColour(r.percentage);
    var passed := Passed(r.percentage, DefaultPassingScore);
    View(grade, colour, passed, r.score, r.totalQuestions - r.score,
      if passed then None else Some("/exam/" + r.subjectId), !passed)
  }

  /** The verdict and the grade never disagree: a pass is a C or better, a fail a D or F. */
  lemma VerdictMatchesGrade(r: Attempt)
    ensures Present(r).passed <==> Rank(Present(r).grade) >= Rank(C)
  {
    PassedIffAtLeastC(r.percentage);
  }

  /** A score within the question count shows no negative number of incorrect answers. */
  lemma IncorrectWithinTotal(r: Attempt)
    requires 0 <= r.score <= r.totalQuestions
    ensures 0 <= Present(r).incorrect <= r.totalQuestions
  {
  }

  /** The sample result the page shows: two of two questions right, 100%. */
  function SampleResult(attemptId: Option<string>, now: string): (r: Attempt)
    ensures r.id == attemptId.GetOr("")
  {
    Attempt(attemptId.GetOr(""), "student1", "Student User", "1", "Mathematics",
      map["q1" := 1, "q2" := 1], 2, 2, Finite(100), "completed", 0, Some(now), now)
  }

  /**
   * The sample result is consistent with its own score, is graded A in
   * green, passes, and offers neither a retake nor recommendations.
   */
  lemma SampleResultPasses(attemptId: Option<string>, now: string)
    ensures var r := SampleResult(attemptId, now);
      && r.percentage == MockBackend.Percent(r.score, r.totalQuestions)
      && Present(r) == View(A, "text-green-600", true, 2, 0, None, false)
  {
    var r := SampleResult(attemptId, now);
    assert MockBackend.Percent(2, 2) == Finite(100);
  }
}

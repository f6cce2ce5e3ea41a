/**
 * The student dashboard: loading subjects, the student's attempts and the
 * question count of every subject; deciding per subject whether it was
 * completed; splitting the subjects into available, completed and
 * question-less ones; and the quick statistics.
 *
 * Replies are inputs: the value or error each request ends with, in the
 * order the requests are made.
 */
module Dashboard {
  import opened Common
  import opened ExamTypes
  import opened Grading
  import BulkEntry

  /**
   * An attempt as the results call returns it: the subject id may be a
   * string or a number, under `subjectId` or under the `subject_id`
   * spelling (`subjectIdAlt`).
   */
  datatype DashAttempt = DashAttempt(
    id: string,
    subjectId: JsVal,
    subjectIdAlt: JsVal,
    percentage: Number,
    subjectName: string)

  // ---------------------------------------------------------------------
  // Loading

  /** The student's attempts: an authentication error means none yet; other errors propagate; a non-list means none. */
  function LoadAttempts(reply: Result<Option<seq<DashAttempt>>>): (r: Result<seq<DashAttempt>>)
    ensures reply.Err? && BulkEntry.IsAuthError(reply.message) ==> r == Ok([])
    ensures reply.Err? && !BulkEntry.IsAuthError(reply.message) ==> r == Err(reply.message)
    ensures reply.Ok? && reply.value.None? ==> r == Ok([])
    ensures reply.Ok? && reply.value.Some? ==> r == Ok(reply.value.value)
  {
    match reply
    case Err(m) => if BulkEntry.IsAuthError(m) then Ok([]) else Err(m)
    case Ok(None) => Ok([])
    case Ok(Some(xs)) => Ok(xs)
  }

  /** `Array.isArray(d) ? d : []` for the subject list. */
  function ListOf<T>(d: Option<seq<T>>): seq<T> {
    if d.Some? then d.value else []
  }

  const UnknownSubject := "Unknown Subject"

  /**
   * The name of the first subject whose id strictly equals the attempt's,
   * 'Unknown Subject' when there is none or that name is empty.
   */
  function NameFor(subjects: seq<Subject>, subjectId: JsVal): (name: string)
    ensures (forall i :: 0 <= i < |subjects| ==> JStr(subjects[i].id) != subjectId) ==> name == UnknownSubject
    ensures forall i :: 0 <= i < |subjects| && JStr(subjects[i].id) == subjectId
                        && (forall j :: 0 <= j < i ==> JStr(subjects[j].id) != subjectId) ==>
      name == (if subjects[i].name != "" then subjects[i].name else UnknownSubject)
  {
    var found := Find(subjects, (s: Subject) => JStr(s.id) == subjectId);
    if found.Some? && found.value.name != "" then found.value.name else UnknownSubject
  }

  /** Every attempt gains the name of its subject. */
  function WithSubjectNames(attempts: seq<DashAttempt>, subjects: seq<Subject>): (r: seq<DashAttempt>)
    ensures |r| == |attempts|
    ensures forall i :: 0 <= i < |r| ==>
      r[i] == attempts[i].(subjectName := NameFor(subjects, attempts[i].subjectId))
  {
    Map(attempts, (a: DashAttempt) => a.(subjectName := NameFor(subjects, a.subjectId)))
  }

  /** The reply to one question-count request: a list of some length, something else, or an error. */
  function CountOf(reply: Result<Option<nat>>): nat {
    if reply.Ok? && reply.value.Some? then reply.value.value else 0
  }

  /** The question counts after the loop: one entry per subject id, the later subject winning. */
  function Counts(subjects: seq<Subject>, replies: seq<Result<Option<nat>>>): (m: map<string, nat>)
    requires |replies| == |subjects|
    ensures forall id :: id in m <==> exists i :: 0 <= i < |subjects| && subjects[i].id == id
  {
    if subjects == [] then map[]
    else
      var n := |subjects| - 1;
      Counts(subjects[..n], replies[..n])[subjects[n].id := CountOf(replies[n])]
  }

  /**
   * The count of a subject is what its own request returned (0 when the
   * request failed), provided no later subject has the same id; the other
   * subjects' requests do not affect it.
   */
  lemma {:induction false} CountsOwnReply(subjects: seq<Subject>, replies: seq<Result<Option<nat>>>, i: nat)
    requires |replies| == |subjects| && i < |subjects|
    requires forall j :: i < j < |subjects| ==> subjects[j].id != subjects[i].id
    ensures Counts(subjects, replies)[subjects[i].id] == CountOf(replies[i])
  {
    var n := |subjects| - 1;
    if i < n {
      CountsOwnReply(subjects[..n], replies[..n], i);
    }
  }

  /** The question-count loop: one request per subject, a failed request counting 0. */
  method LoadQuestionCounts(subjects: seq<Subject>, replies: seq<Result<Option<nat>>>)
    returns (counts: map<string, nat>)
    requires |replies| == |subjects|
    ensures counts == Counts(subjects, replies)
  {
    counts := map[];
    var i := 0;
    while i < |subjects|
      invariant 0 <= i <= |subjects|
      invariant counts == Counts(subjects[..i], replies[..i])
    {
      assert subjects[..i + 1][..i] == subjects[..i];
      assert replies[..i + 1][..i] == replies[..i];
      var reply := replies[i];
      if reply.Ok? {
        counts := counts[subjects[i].id := if reply.value.Some? then reply.value.value else 0];
      } else {
        counts := counts[subjects[i].id := 0];
      }
      i := i + 1;
    }
    assert subjects[..i] == subjects && replies[..i] == replies;
  }

  /** The dashboard's loaded state. */
  datatype Loaded = Loaded(subjects: seq<Subject>, attempts: seq<DashAttempt>, counts: map<string, nat>, error: string)

  /**
   * `loadData`: both lists are requested together; if either request fails
   * (after the attempts call's own recovery) everything is cleared and the
   * error shown; otherwise the attempts are named and the counts loaded.
   */
  method LoadData(subjectsReply: Result<Option<seq<Subject>>>, attemptsReply: Result<Option<seq<DashAttempt>>>,
                  countReplies: seq<Result<Option<nat>>>)
    returns (d: Loaded)
    requires subjectsReply.Ok? ==> |countReplies| == |ListOf(subjectsReply.value)|
    ensures subjectsReply.Err? ==> d == Loaded([], [], map[], subjectsReply.message)
    ensures subjectsReply.Ok? && LoadAttempts(attemptsReply).Err? ==>
      d == Loaded([], [], map[], LoadAttempts(attemptsReply).message)
    ensures subjectsReply.Ok? && LoadAttempts(attemptsReply).Ok? ==>
      var subjects := ListOf(subjectsReply.value);
      d == Loaded(subjects, WithSubjectNames(LoadAttempts(attemptsReply).value, subjects),
                  Counts(subjects, countReplies), "")
  {
    var attempts := LoadAttempts(attemptsReply);
    if subjectsReply.Err? {
      d := Loaded([], [], map[], subjectsReply.message);
    } else if attempts.Err? {
      d := Loaded([], [], map[], attempts.message);
    } else {
      var subjects := ListOf(subjectsReply.value);
      var named := WithSubjectNames(attempts.value, subjects);
      var counts := LoadQuestionCounts(subjects, countReplies);
      d := Loaded(subjects, named, counts, "");
    }
  }

  // ---------------------------------------------------------------------
  // Status of a subject

  /** The five-way id comparison of `getSubjectStatus` and `getSubjectAttempt`. */
  predicate MatchesSubject(a: DashAttempt, subjectId: string) {
    || a.subjectId == JStr(subjectId)
    || JsString(a.subjectIdAlt) == subjectId
    || JsString(a.subjectId) == subjectId
    || JsString(a.subjectIdAlt) == subjectId
    || JsString(a.subjectId) == subjectId
  }

  /** The comparison is string equality of either spelling of the attempt's subject id. */
  lemma MatchesIffString(a: DashAttempt, subjectId: string)
    ensures MatchesSubject(a, subjectId) <==> JsString(a.subjectId) == subjectId || JsString(a.subjectIdAlt) == subjectId
  {
  }

  /** A numeric subject id matches the subject whose id is its decimal numeral. */
  lemma NumericIdMatches(id: string, n: int, p: Number)
    ensures MatchesSubject(DashAttempt(id, JNum(n), Undefined, p, ""), IntToString(n))
  {
  }

  /**
   * An attempt that carries its subject id under one spelling only also
   * matches a subject whose id is the text "undefined", since the missing
   * spelling is converted with `String`.
   */
  lemma MissingSpellingMatchesUndefinedText(a: DashAttempt)
    requires a.subjectIdAlt.Undefined?
    ensures MatchesSubject(a, "undefined")
  {
  }

  /** An attempt whose subject id is a number completes its subject but is not named after it. */
  lemma NumericIdIsUnnamed(subjects: seq<Subject>, id: string, n: int, p: Number)
    ensures NameFor(subjects, JNum(n)) == UnknownSubject
    ensures MatchesSubject(DashAttempt(id, JNum(n), Undefined, p, ""), IntToString(n))
  {
  }

  datatype Status = Available | Completed

  /** `getSubjectAttempt`: the first attempt that matches the subject. */
  function SubjectAttempt(attempts: seq<DashAttempt>, subjectId: string): (r: Option<DashAttempt>)
    ensures r.Some? <==> exists i :: 0 <= i < |attempts| && MatchesSubject(attempts[i], subjectId)
    ensures r.Some? ==> exists i ::
      && 0 <= i < |attempts| && attempts[i] == r.value && MatchesSubject(r.value, subjectId)
      && forall j :: 0 <= j < i ==> !MatchesSubject(attempts[j], subjectId)
  {
    Find(attempts, (a: DashAttempt) => MatchesSubject(a, subjectId))
  }

  /** 'completed' exactly when some attempt matches the subject. */
  function SubjectStatus(attempts: seq<DashAttempt>, subjectId: string): (s: Status)
    ensures s == Completed <==> exists i :: 0 <= i < |attempts| && MatchesSubject(attempts[i], subjectId)
  {
    if SubjectAttempt(attempts, subjectId).Some? then Completed else Available
  }

  /** `handleViewResult`: the result route of the first matching attempt, if any. */
  function ViewResultRoute(attempts: seq<DashAttempt>, subjectId: string): (r: Option<string>)
    ensures r.Some? <==> SubjectStatus(attempts, subjectId) == Completed
    ensures r.Some? ==> exists i ::
      && 0 <= i < |attempts| && MatchesSubject(attempts[i], subjectId)
      && (forall j :: 0 <= j < i ==> !MatchesSubject(attempts[j], subjectId))
      && r.value == "/result/" + attempts[i].id
  {
    match SubjectAttempt(attempts, subjectId)
    case Some(a) => Some("/result/" + a.id)
    case None => None
  }

  /** `handleStartExam`: the exam route with the subject id parsed as an integer. */
  function StartRoute(subjectId: string): string {
    "/exam/" + NumberString(ParseInt(subjectId))
  }

  /** A decimal subject id reaches the exam route unchanged. */
  lemma StartRouteKeepsNumericIds(n: int)
    ensures StartRoute(IntToString(n)) == "/exam/" + IntToString(n)
  {
    ParseIntRoundTrip(n);
  }

  // ---------------------------------------------------------------------
  // The three lists

  /** `counts[id] || 0`. */
  function CountFor(counts: map<string, nat>, id: string): nat {
    if id in counts then counts[id] else 0
  }

  predicate IsAvailable(attempts: seq<DashAttempt>, counts: map<string, nat>, s: Subject) {
    SubjectStatus(attempts, s.id) == Available && CountFor(counts, s.id) > 0
  }

  predicate IsCompleted(attempts: seq<DashAttempt>, s: Subject) {
    SubjectStatus(attempts, s.id) == Completed
  }

  predicate IsWithoutQuestions(attempts: seq<DashAttempt>, counts: map<string, nat>, s: Subject) {
    SubjectStatus(attempts, s.id) == Available && CountFor(counts, s.id) == 0
  }

  function AvailableSubjects(subjects: seq<Subject>, attempts: seq<DashAttempt>, counts: map<string, nat>)
    : (r: seq<Subject>)
    ensures SubsequenceOf(r, subjects)
  {
    var keep := (s: Subject) => IsAvailable(attempts, counts, s);
    FilterSelects(subjects, keep);
    Filter(subjects, keep)
  }

  function CompletedSubjects(subjects: seq<Subject>, attempts: seq<DashAttempt>): (r: seq<Subject>)
    ensures SubsequenceOf(r, subjects)
  {
    var keep := (s: Subject) => IsCompleted(attempts, s);
    FilterSelects(subjects, keep);
    Filter(subjects, keep)
  }

  function SubjectsWithoutQuestions(subjects: seq<Subject>, attempts: seq<DashAttempt>, counts: map<string, nat>)
    : (r: seq<Subject>)
    ensures SubsequenceOf(r, subjects)
  {
    var keep := (s: Subject) => IsWithoutQuestions(attempts, counts, s);
    FilterSelects(subjects, keep);
    Filter(subjects, keep)
  }

  /** Three filters that between them accept every element exactly once split its length. */
  lemma {:induction false} FilterSplits3<T(!new)>(s: seq<T>, p: T -> bool, q: T -> bool, r: T -> bool)
    requires forall i :: 0 <= i < |s| ==> (p(s[i]) || q(s[i]) || r(s[i]))
    requires forall i :: 0 <= i < |s| ==> !(p(s[i]) && q(s[i])) && !(p(s[i]) && r(s[i])) && !(q(s[i]) && r(s[i]))
    ensures |Filter(s, p)| + |Filter(s, q)| + |Filter(s, r)| == |s|
  {
    if s != [] {
      FilterSplits3(s[1..], p, q, r);
    }
  }

  /**
   * The available, completed and question-less lists partition the
   * subjects: each subject is in exactly one of them, each list keeps the
   * subjects' order, and their lengths add up.
   */
  lemma ListsPartition(subjects: seq<Subject>, attempts: seq<DashAttempt>, counts: map<string, nat>)
    ensures forall s :: s in subjects ==>
      (s in AvailableSubjects(subjects, attempts, counts) <==> IsAvailable(attempts, counts, s))
      && (s in CompletedSubjects(subjects, attempts) <==> IsCompleted(attempts, s))
      && (s in SubjectsWithoutQuestions(subjects, attempts, counts) <==> IsWithoutQuestions(attempts, counts, s))
    ensures forall s :: s in subjects ==>
      (IsAvailable(attempts, counts, s) || IsCompleted(attempts, s) || IsWithoutQuestions(attempts, counts, s))
    ensures forall s :: s in subjects ==>
      !(IsAvailable(attempts, counts, s) && IsCompleted(attempts, s))
      && !(IsAvailable(attempts, counts, s) && IsWithoutQuestions(attempts, counts, s))
      && !(IsCompleted(attempts, s) && IsWithoutQuestions(attempts, counts, s))
    ensures |AvailableSubjects(subjects, attempts, counts)| + |CompletedSubjects(subjects, attempts)|
      + |SubjectsWithoutQuestions(subjects, attempts, counts)| == |subjects|
    ensures SubsequenceOf(AvailableSubjects(subjects, attempts, counts), subjects)
      && SubsequenceOf(CompletedSubjects(subjects, attempts), subjects)
      && SubsequenceOf(SubjectsWithoutQuestions(subjects, attempts, counts), subjects)
  {
    FilterSplits3(subjects, (s: Subject) => IsAvailable(attempts, counts, s),
      (s: Subject) => IsCompleted(attempts, s), (s: Subject) => IsWithoutQuestions(attempts, counts, s));
  }

  /** The subjects counted on the "Available Exams" card: every subject not yet completed. */
  function AvailableCount(subjects: seq<Subject>, attempts: seq<DashAttempt>): (n: nat)
    ensures n == |set i | 0 <= i < |subjects| && SubjectStatus(attempts, subjects[i].id) == Available|
  {
    var open := (s: Subject) => SubjectStatus(attempts, s.id) == Available;
    FilterCount(subjects, open);
    assert Positions(subjects, open) == set i | 0 <= i < |subjects| && SubjectStatus(attempts, subjects[i].id) == Available;
    |Filter(subjects, open)|
  }

  /** The card counts the question-less subjects too, which the list of available exams leaves out. */
  lemma AvailableCountIncludesEmptySubjects(subjects: seq<Subject>, attempts: seq<DashAttempt>, counts: map<string, nat>)
    ensures AvailableCount(subjects, attempts)
      == |AvailableSubjects(subjects, attempts, counts)| + |SubjectsWithoutQuestions(subjects, attempts, counts)|
  {
    var open := (s: Subject) => SubjectStatus(attempts, s.id) == Available;
    var none := (s: Subject) => false;
    FilterSplits3(subjects, open, (s: Subject) => IsCompleted(attempts, s), none);
    FilterKeepsNone(subjects, none);
    ListsPartition(subjects, attempts, counts);
  }

  /** The "Average Score" card: the rounded mean percentage of the attempts, or 'N/A'. */
  function AverageCard(attempts: seq<DashAttempt>): (r: Option<Number>)
    ensures r.None? <==> attempts == []
    ensures attempts != [] ==> r.value == RoundedMean(Map(attempts, (a: DashAttempt) => a.percentage))
    ensures attempts != [] && Within(Map(attempts, (a: DashAttempt) => a.percentage), 0, 100) ==>
      r.value.Finite? && 0 <= r.value.value <= 100
  {
    var ps := Map(attempts, (a: DashAttempt) => a.percentage);
    assert attempts != [] && Within(ps, 0, 100) ==> RoundedMean(ps).Finite? && 0 <= RoundedMean(ps).value <= 100 by {
      if attempts != [] && Within(ps, 0, 100) {
        MeanWithin(ps, 0, 100);
      }
    }
    AverageScore(ps)
  }
}

/**
 * The backend client the pages call: subject listing, the question calls
 * with their own decoding rules, and starting and submitting an exam.
 * Replies are inputs (the value each request resolves to), `stamp` stands
 * for `Date.now()`, `now` for the current ISO timestamp and `storedUser`
 * for the id of the user kept in local storage.
 */
module Api {
  import opened Common
  import opened ExamTypes
  import opened QuestionCodec
  import MockBackend

  /** The error a decoder meets when it reads a field of a value that has none. */
  const UndefinedField := "TypeError: Cannot read properties of undefined"

  // ---------------------------------------------------------------------
  // Subjects

  /** `subjects.getAll`: the reply when it is a list, the empty list otherwise. */
  function SubjectsGetAll(reply: Reply<Subject>): (r: seq<Subject>)
    ensures reply.Many? ==> r == reply.items
    ensures !reply.Many? ==> r == []
  {
    if reply.Many? then reply.items else []
  }

  // ---------------------------------------------------------------------
  // Questions

  /** The answer ternary of the listing: A..D to 0..3, anything else to 0. */
  function DecodeCorrectOption(letter: string): (i: int)
    ensures 0 <= i < 4
    ensures letter in Letters ==> i == IndexOf(letter)
    ensures letter !in Letters ==> i == 0
  {
    if letter == "A" then 0
    else if letter == "B" then 1
    else if letter == "C" then 2
    else if letter == "D" then 3
    else 0
  }

  /** One listed record: a falsy id is replaced by the stamp. */
  function DecodeListed(q: APIQuestion, stamp: string, now: string): (r: Question)
    ensures r.id == (if q.id.Falsy() then stamp else q.id.ToString())
    ensures r.subjectId == q.subjectId.ToString()
    ensures r.question == q.questionText && r.options == q.options
    ensures 0 <= r.correctAnswer < 4
    ensures r.createdAt == CreatedAtOr(q.createdAt, now)
  {
    Question(if q.id.Falsy() then stamp else q.id.ToString(), q.subjectId.ToString(), q.questionText,
      q.options, DecodeCorrectOption(q.correctOption), CreatedAtOr(q.createdAt, now))
  }

  /**
   * `questions.getBySubject`: a falsy reply falls back to the built-in sample
   * questions of the subject; otherwise a single record or a list is decoded
   * in order; errors are rethrown.
   */
  function GetBySubject(subjectId: string, reply: Result<Reply<APIQuestion>>, stamp: string, now: string)
    : (r: Result<seq<Question>>)
    ensures reply.Err? ==> r == Err(reply.message)
    ensures reply.Ok? && reply.value.Falsy? ==> r == Ok(MockBackend.OfSubject(MockBackend.SeedQuestions(), subjectId))
    ensures reply.Ok? && !reply.value.Falsy? ==> r.Ok? && |r.value| == |Normalize(reply.value)|
    ensures reply.Ok? && !reply.value.Falsy? ==>
      forall i :: 0 <= i < |r.value| ==> r.value[i] == DecodeListed(Normalize(reply.value)[i], stamp, now)
  {
    match reply
    case Err(m) => Err(m)
    case Ok(Falsy) => Ok(MockBackend.OfSubject(MockBackend.SeedQuestions(), subjectId))
    case Ok(d) => Ok(Map(Normalize(d), (q: APIQuestion) => DecodeListed(q, stamp, now)))
  }

  /** The fallback list holds only questions of the requested subject, and all of its sample questions. */
  lemma FallbackIsSubjectsSamples(subjectId: string, stamp: string, now: string)
    ensures var r := GetBySubject(subjectId, Ok(Falsy), stamp, now);
      r.Ok? && forall q :: q in r.value <==> q in MockBackend.SeedQuestions() && q.subjectId == subjectId
  {
  }

  /** The body `questions.create` sends: every field, the index as its letter. */
  function CreateBody(question: string, options: Four<string>, correctAnswer: int): Payload {
    FullPayload(question, options, correctAnswer)
  }

  /**
   * `questions.create` after the request. A falsy reply is replaced by a
   * default record with id '0', the subject id parsed as a number and the
   * submitted content; the answer is the position of the letter (-1 when
   * the index named no letter); the creation time is always now.
   */
  function Create(subjectId: string, question: string, options: Four<string>, correctAnswer: int,
                  reply: Result<Reply<APIQuestion>>, now: string): (r: Result<Question>)
    ensures reply.Err? ==> r == Err(reply.message)
    ensures reply == Ok(Falsy) ==>
      && r.Ok? && r.value.id == "0" && r.value.subjectId == NumberString(ParseInt(subjectId))
      && r.value.question == question && r.value.options == options
      && r.value.correctAnswer == (if 0 <= correctAnswer < 4 then correctAnswer else -1)
    ensures reply.Ok? && reply.value.One? ==>
      var q := reply.value.item;
      && r.Ok? && r.value.id == q.id.ToString() && r.value.subjectId == q.subjectId.ToString()
      && r.value.question == q.questionText && r.value.options == q.options
      && -1 <= r.value.correctAnswer < 4 && (r.value.correctAnswer == -1 <==> q.correctOption !in Letters)
      && (0 <= r.value.correctAnswer < 4 ==> Letters[r.value.correctAnswer] == q.correctOption)
    ensures reply.Ok? && reply.value.Many? ==> r == Err(UndefinedField)
    ensures r.Ok? ==> r.value.createdAt == now
  {
    LetterRoundTrip(correctAnswer, "");
    match reply
    case Err(m) => Err(m)
    case Ok(Falsy) =>
      var letter := LetterAt(correctAnswer);
      Ok(Question("0", NumberString(ParseInt(subjectId)), question, options,
        if letter.Some? then IndexOf(letter.value) else -1, now))
    case Ok(One(q)) =>
      Ok(Question(q.id.ToString(), q.subjectId.ToString(), q.questionText, q.options, IndexOf(q.correctOption), now))
    case Ok(Many(_)) => Err(UndefinedField)
  }

  /**
   * Without a reply record the created question echoes what was submitted:
   * id '0', the subject id itself when it is a decimal numeral, and the
   * answer index when it names a letter (-1 otherwise).
   */
  lemma CreateFallbackEchoes(n: int, question: string, options: Four<string>, correctAnswer: int, now: string)
    ensures var r := Create(IntToString(n), question, options, correctAnswer, Ok(Falsy), now);
      && r.Ok? && r.value.id == "0" && r.value.subjectId == IntToString(n)
      && r.value.question == question && r.value.options == options
      && r.value.correctAnswer == (if 0 <= correctAnswer < 4 then correctAnswer else -1)
  {
    ParseIntRoundTrip(n);
    LetterRoundTrip(correctAnswer, "");
  }

  /** A created question stored as sent comes back with its content. */
  lemma CreateRoundTrip(subjectId: string, question: string, options: Four<string>, correctAnswer: int,
                        id: Id, storedSubject: Id, createdAt: Option<string>, now: string)
    requires 0 <= correctAnswer < 4
    ensures var body := CreateBody(question, options, correctAnswer);
      && body.correctOption.Some?
      && var r := Create(subjectId, question, options, correctAnswer,
                         Ok(One(Stored(body, id, storedSubject, createdAt))), now);
         r.Ok? && r.value.question == question && r.value.options == options
         && r.value.correctAnswer == correctAnswer && r.value.createdAt == now
  {
  }

  /** The body `questions.update` sends: only the groups the draft fills in. */
  function UpdateBody(d: Draft): Payload {
    PartialPayload(d)
  }

  /** `questions.update` after the request: only a single record can be decoded. */
  function Update(reply: Result<Reply<APIQuestion>>, now: string): (r: Result<Question>)
    ensures reply.Ok? && !reply.value.One? ==> r == Err(UndefinedField)
    ensures reply.Err? ==> r == Err(reply.message)
    ensures reply.Ok? && reply.value.One? ==> r.Ok?
    ensures reply.Ok? && reply.value.One? ==>
      var q := reply.value.item;
      && r.value.id == q.id.ToString() && r.value.subjectId == q.subjectId.ToString()
      && r.value.question == q.questionText && r.value.options == q.options
    ensures reply.Ok? && reply.value.One? ==> r.value.correctAnswer == IndexOf(reply.value.item.correctOption)
    ensures reply.Ok? && reply.value.One? ==> r.value.createdAt == CreatedAtOr(reply.value.item.createdAt, now)
  {
    match reply
    case Err(m) => Err(m)
    case Ok(One(q)) =>
      Ok(Question(q.id.ToString(), q.subjectId.ToString(), q.questionText, q.options,
        IndexOf(q.correctOption), CreatedAtOr(q.createdAt, now)))
    case Ok(_) => Err(UndefinedField)
  }

  // ---------------------------------------------------------------------
  // Exams

  /** A question of the start reply; its correct option is not sent. */
  datatype StartQuestion = StartQuestion(id: JsVal, questionText: string, options: Four<string>)

  /** The start reply: `subject_id`, `questions` (absent when falsy) and `time_remaining`. */
  datatype StartReply = StartReply(subjectId: JsVal, questions: Option<seq<StartQuestion>>, timeRemaining: Option<int>)

  /** The student id of the session: the stored user's id as a string, else 'me'. */
  function StudentIdOf(storedUser: JsVal): (r: string)
    ensures r != ""
    ensures storedUser.JStr? && storedUser.s != "" ==> r == storedUser.s
    ensures storedUser.Undefined? || storedUser == JStr("") ==> r == "me"
    ensures storedUser.JNum? ==> ParseInt(r) == Finite(storedUser.n)
  {
    match storedUser
    case Undefined => "me"
    case JStr(s) => if s == "" then "me" else s
    case JNum(n) =>
      ParseIntRoundTrip(n);
      IntToString(n)
  }

  /**
   * `examApi.startExam`: the session id is the requested subject id; the
   * questions keep their order and arrive with correct answer -1.
   */
  function StartExam(subjectId: string, reply: StartReply, storedUser: JsVal, now: string): (r: Session)
    ensures r.id == subjectId && r.answers == map[] && r.studentId == StudentIdOf(storedUser)
    ensures r.subjectId == JsString(Coalesce(reply.subjectId, JStr(subjectId)))
    ensures r.timeRemaining == reply.timeRemaining.GetOr(0)
    ensures |r.questions| == (if reply.questions.Some? then |reply.questions.value| else 0)
    ensures forall i :: 0 <= i < |r.questions| ==>
      && r.questions[i].correctAnswer == -1
      && r.questions[i].subjectId == r.subjectId
      && r.questions[i].id == JsString(reply.questions.value[i].id)
      && r.questions[i].question == reply.questions.value[i].questionText
      && r.questions[i].options == reply.questions.value[i].options
  {
    var sid := JsString(Coalesce(reply.subjectId, JStr(subjectId)));
    var qs := reply.questions.GetOr([]);
    Session(subjectId, sid, StudentIdOf(storedUser),
      Map(qs, (q: StartQuestion) => Question(JsString(q.id), sid, q.questionText, q.options, -1, now)),
      map[], reply.timeRemaining.GetOr(0), now)
  }

  /** One answer of the submit body: the question id parsed as a number and the option letter. */
  datatype AnswerEntry = AnswerEntry(questionId: Number, selectedOption: Option<string>)

  datatype SubmitBody = SubmitBody(subjectId: Number, answers: seq<AnswerEntry>)

  /**
   * The body `examApi.submitExam` sends: the session id parsed as the subject
   * id, and one entry per answer in the answers' enumeration order `keys`.
   */
  function SubmitPayload(sessionId: string, answers: Answers, keys: seq<string>): (b: SubmitBody)
    requires forall k :: k in keys ==> k in answers
    ensures b.subjectId == ParseInt(sessionId) && |b.answers| == |keys|
    ensures forall i :: 0 <= i < |keys| ==>
      b.answers[i] == AnswerEntry(ParseInt(keys[i]), LetterAt(answers[keys[i]]))
  {
    SubmitBody(ParseInt(sessionId),
      seq(|keys|, i requires 0 <= i < |keys| => AnswerEntry(ParseInt(keys[i]), LetterAt(answers[keys[i]]))))
  }

  /** Fields the submit reply may carry. */
  datatype SubmitReply = SubmitReply(score: Option<int>, total: Option<int>, percentage: Option<int>, status: Option<string>)

  /** The attempt `examApi.submitExam` returns: the reply's numbers (0 when missing) under a fresh id. */
  function AttemptFromReply(sessionId: string, reply: SubmitReply, stamp: string, now: string): (a: Attempt)
    ensures a.id == stamp && a.subjectId == sessionId && a.studentId == "me" && a.answers == map[]
    ensures a.score == reply.score.GetOr(0) && a.totalQuestions == reply.total.GetOr(0)
    ensures a.percentage == Finite(reply.percentage.GetOr(0))
    ensures a.status == reply.status.GetOr("completed")
  {
    Attempt(stamp, "me", "Me", sessionId, "", map[], reply.score.GetOr(0), reply.total.GetOr(0),
      Finite(reply.percentage.GetOr(0)), reply.status.GetOr("completed"), 0, Some(now), now)
  }

  /**
   * Starting an exam for a numeric subject and submitting its session sends
   * that subject's number, every numeric question id back as its number, and
   * every chosen index as the letter that decodes to it.
   */
  lemma StartSubmitRoundTrip(n: int, reply: StartReply, storedUser: JsVal, now: string,
                             answers: Answers, keys: seq<string>)
    requires forall k :: k in keys ==> k in answers && 0 <= answers[k] < 4
    ensures var session := StartExam(IntToString(n), reply, storedUser, now);
      var body := SubmitPayload(session.id, answers, keys);
      && body.subjectId == Finite(n)
      && (forall i :: 0 <= i < |keys| ==>
            body.answers[i].selectedOption.Some? && IndexOf(body.answers[i].selectedOption.value) == answers[keys[i]])
      && (forall i, m :: 0 <= i < |keys| && keys[i] == IntToString(m) ==> body.answers[i].questionId == Finite(m))
  {
    ParseIntRoundTrip(n);
    forall i, m | 0 <= i < |keys| && keys[i] == IntToString(m)
      ensures SubmitPayload(IntToString(n), answers, keys).answers[i].questionId == Finite(m)
    {
      ParseIntRoundTrip(m);
    }
    forall i | 0 <= i < |keys|
      ensures IndexOf(LetterAt(answers[keys[i]]).value) == answers[keys[i]]
    {
      LetterRoundTrip(answers[keys[i]], "");
    }
  }
}

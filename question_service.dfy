/**
 * The question service used by the admin pages: decoding backend records
 * with a letter-to-index table, encoding drafts, and the list, create and
 * update calls, which pass backend errors on to the caller.
 */
module QuestionService {
  import opened Common
  import opened ExamTypes
  import opened QuestionCodec

  /** `correctAnswerMap[letter] ?? 0`: A..D to 0..3, anything else to 0. */
  function AnswerIndex(letter: string): (i: int)
    ensures 0 <= i < 4
    ensures letter in Letters ==> i == IndexOf(letter)
    ensures letter !in Letters ==> i == 0
  {
    if letter == "A" then 0
    else if letter == "B" then 1
    else if letter == "C" then 2
    else if letter == "D" then 3
    else 0
  }

  /** `mapAPIQuestionToQuestion`: ids as strings, options in A..D order, a valid answer index. */
  function MapAPIQuestionToQuestion(q: APIQuestion, now: string): (r: Question)
    ensures r.id == q.id.ToString() && r.subjectId == q.subjectId.ToString()
    ensures r.question == q.questionText && r.options == q.options
    ensures 0 <= r.correctAnswer < 4
    ensures q.correctOption in Letters ==> Letters[r.correctAnswer] == q.correctOption
    ensures r.createdAt == CreatedAtOr(q.createdAt, now)
  {
    Question(q.id.ToString(), q.subjectId.ToString(), q.questionText, q.options,
      AnswerIndex(q.correctOption), CreatedAtOr(q.createdAt, now))
  }

  /**
   * `mapQuestionToAPI`: the text whenever the draft has one (an empty text
   * too), the options when present, the letter when an index is present.
   */
  function MapQuestionToAPI(d: Draft): (p: Payload)
    ensures p.questionText == d.question && p.options == d.options
    ensures p.correctOption.Some? <==> d.correctAnswer.Some? && 0 <= d.correctAnswer.value < 4
    ensures p.correctOption.Some? ==> IndexOf(p.correctOption.value) == d.correctAnswer.value
  {
    Payload(d.question, d.options, if d.correctAnswer.Some? then LetterAt(d.correctAnswer.value) else None)
  }

  /** `getBySubject`: a list, a single record or nothing becomes a list; errors are rethrown. */
  function GetBySubject(reply: Result<Reply<APIQuestion>>, now: string): (r: Result<seq<Question>>)
    ensures reply.Err? ==> r == Err(reply.message)
    ensures reply.Ok? ==> r.Ok? && |r.value| == |Normalize(reply.value)|
    ensures reply.Ok? ==> forall i :: 0 <= i < |r.value| ==>
      r.value[i] == MapAPIQuestionToQuestion(Normalize(reply.value)[i], now)
  {
    match reply
    case Err(m) => Err(m)
    case Ok(d) => Ok(Map(Normalize(d), (q: APIQuestion) => MapAPIQuestionToQuestion(q, now)))
  }

  /** The body `create` sends for a complete question. */
  function CreateBody(question: string, options: Four<string>, correctAnswer: int): Payload {
    MapQuestionToAPI(Draft(Some(question), Some(options), Some(correctAnswer)))
  }

  /**
   * What the decoder makes of a reply that is not a record (a list, or a
   * falsy value): every field it reads is undefined, so both ids print as
   * "undefined", the answer falls back to 0 and the time to now. Undefined
   * text and options are kept as empty strings.
   */
  function UndefinedRecord(now: string): Question {
    Question("undefined", "undefined", "", Four("", "", "", ""), 0, now)
  }

  /**
   * `create` and `update`: decode the returned value as a record, or
   * rethrow. Nothing checks that the value is a record.
   */
  function Returned(reply: Result<Reply<APIQuestion>>, now: string): (r: Result<Question>)
    ensures reply.Err? ==> r == Err(reply.message)
    ensures reply.Ok? && reply.value.One? ==> r == Ok(MapAPIQuestionToQuestion(reply.value.item, now))
    ensures reply.Ok? && !reply.value.One? ==>
      && r.Ok? && r.value.id == "undefined" && r.value.subjectId == "undefined"
      && r.value.correctAnswer == 0 && r.value.createdAt == now
  {
    match reply
    case Err(m) => Err(m)
    case Ok(One(q)) => Ok(MapAPIQuestionToQuestion(q, now))
    case Ok(_) => Ok(UndefinedRecord(now))
  }

  /**
   * A question created through the service and stored as sent comes back
   * with the text, options and answer index it was created with.
   */
  lemma CreateRoundTrip(question: string, options: Four<string>, correctAnswer: int,
                        id: Id, subjectId: Id, createdAt: Option<string>, now: string)
    requires 0 <= correctAnswer < 4
    ensures var body := CreateBody(question, options, correctAnswer);
      && body.correctOption.Some?
      && var r := Returned(Ok(One(Stored(body, id, subjectId, createdAt))), now);
         r.Ok? && r.value.question == question && r.value.options == options
         && r.value.correctAnswer == correctAnswer && r.value.id == id.ToString()
  {
    LetterRoundTrip(correctAnswer, "");
  }

  /** Decoding then re-encoding a record with a valid letter gives its text, options and letter back. */
  lemma DecodeEncode(q: APIQuestion, now: string)
    requires q.correctOption in Letters
    ensures var d := MapAPIQuestionToQuestion(q, now);
      MapQuestionToAPI(Draft(Some(d.question), Some(d.options), Some(d.correctAnswer)))
        == Payload(Some(q.questionText), Some(q.options), Some(q.correctOption))
  {
    LetterRoundTrip(0, q.correctOption);
  }
}

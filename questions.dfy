/**
 * The second question service: decoding by the position of the letter in
 * A..D, a listing that swallows errors, and create/update calls that
 * reject an empty reply with "No response data".
 *
 * Each call reads the `data` field of the value the request resolves to;
 * the replies below stand for that field.
 */
module Questions {
  import opened Common
  import opened ExamTypes
  import opened QuestionCodec

  const NoResponseData := "No response data"

  /** `convertAPIQuestion`: ids as strings, options in A..D order, the index of the letter or -1. */
  function ConvertAPIQuestion(q: APIQuestion, now: string): (r: Question)
    ensures r.id == q.id.ToString() && r.subjectId == q.subjectId.ToString()
    ensures r.question == q.questionText && r.options == q.options
    ensures r.correctAnswer == -1 <==> q.correctOption !in Letters
    ensures r.correctAnswer != -1 ==> 0 <= r.correctAnswer < 4 && Letters[r.correctAnswer] == q.correctOption
    ensures r.createdAt == CreatedAtOr(q.createdAt, now)
  {
    Question(q.id.ToString(), q.subjectId.ToString(), q.questionText, q.options,
      IndexOf(q.correctOption), CreatedAtOr(q.createdAt, now))
  }

  /** `getBySubject`: the normalised list decoded in order; any error yields the empty list. */
  function GetBySubject(reply: Result<Reply<APIQuestion>>, now: string): (r: seq<Question>)
    ensures reply.Err? ==> r == []
    ensures reply.Ok? ==> |r| == |Normalize(reply.value)|
    ensures reply.Ok? ==> forall i :: 0 <= i < |r| ==> r[i] == ConvertAPIQuestion(Normalize(reply.value)[i], now)
  {
    match reply
    case Err(_) => []
    case Ok(d) => Map(Normalize(d), (q: APIQuestion) => ConvertAPIQuestion(q, now))
  }

  /** The body `create` sends: every field, the index as its letter. */
  function CreateBody(question: string, options: Four<string>, correctAnswer: int): Payload {
    FullPayload(question, options, correctAnswer)
  }

  /** The body `update` sends: only the groups the draft fills in. */
  function UpdateBody(d: Draft): Payload {
    PartialPayload(d)
  }

  /** `create` and `update` after the request: rethrow, reject an empty reply, or decode. */
  function Returned(data: Result<Option<APIQuestion>>, now: string): (r: Result<Question>)
    ensures data.Err? ==> r == Err(data.message)
    ensures data.Ok? && data.value.None? ==> r == Err(NoResponseData)
    ensures data.Ok? && data.value.Some? ==> r == Ok(ConvertAPIQuestion(data.value.value, now))
  {
    match data
    case Err(m) => Err(m)
    case Ok(None) => Err(NoResponseData)
    case Ok(Some(q)) => Ok(ConvertAPIQuestion(q, now))
  }

  /**
   * A question created with a valid index and stored as sent comes back
   * unchanged in text, options and index.
   */
  lemma CreateRoundTrip(question: string, options: Four<string>, correctAnswer: int,
                        id: Id, subjectId: Id, createdAt: Option<string>, now: string)
    requires 0 <= correctAnswer < 4
    ensures var body := CreateBody(question, options, correctAnswer);
      && body.correctOption.Some?
      && var r := Returned(Ok(Some(Stored(body, id, subjectId, createdAt))), now);
         r.Ok? && r.value.question == question && r.value.options == options
         && r.value.correctAnswer == correctAnswer
  {
  }

  /**
   * An update body applied to a stored record and read back changes exactly
   * the groups the draft fills in; an empty text leaves the stored text.
   */
  lemma UpdateRoundTrip(stored: APIQuestion, d: Draft, now: string)
    requires stored.correctOption in Letters
    ensures var p := UpdateBody(d);
      var merged := APIQuestion(stored.id, stored.subjectId,
        p.questionText.GetOr(stored.questionText), p.options.GetOr(stored.options),
        p.correctOption.GetOr(stored.correctOption), stored.createdAt);
      var r := ConvertAPIQuestion(merged, now);
      && r.question == (if d.question.Some? && d.question.value != "" then d.question.value else stored.questionText)
      && r.options == d.options.GetOr(stored.options)
      && r.correctAnswer == (if d.correctAnswer.Some? && 0 <= d.correctAnswer.value < 4
                             then d.correctAnswer.value else IndexOf(stored.correctOption))
  {
  }
}

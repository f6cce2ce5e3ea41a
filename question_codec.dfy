/**
 * The wire form of questions shared by the three question services: the
 * backend record, the option letters A..D, the shapes a reply can take, and
 * the request payloads built from a question.
 */
module QuestionCodec {
  import opened Common
  import opened ExamTypes

  /** A backend id, which the backend may send as a number or as a string. */
  datatype Id = IntId(n: int) | TextId(s: string) {
    /** `String(id)` and `id.toString()`. */
    function ToString(): string {
      match this
      case IntId(n) => IntToString(n)
      case TextId(s) => s
    }

    /** JavaScript falsiness: the number 0 or the empty string. */
    predicate Falsy() {
      this == IntId(0) || this == TextId("")
    }
  }

  /** A question as the backend stores and returns it. */
  datatype APIQuestion = APIQuestion(
    id: Id,
    subjectId: Id,
    questionText: string,
    options: Four<string>,
    correctOption: string,
    createdAt: Option<string>)

  /**
   * The value a question request resolves to: something falsy (an empty
   * string, 0, false), a single record, or a list of records. The response
   * interceptor has already turned a null or undefined body into `[]`, which
   * arrives here as `Many([])`.
   */
  datatype Reply<T> = Falsy | One(item: T) | Many(items: seq<T>)

  /** `Array.isArray(d) ? d : d ? [d] : []`. */
  function Normalize<T>(d: Reply<T>): (r: seq<T>)
    ensures d.Falsy? ==> r == []
    ensures d.One? ==> r == [d.item]
    ensures d.Many? ==> r == d.items
  {
    match d
    case Falsy => []
    case One(x) => [x]
    case Many(xs) => xs
  }

  /** `created_at || now`: the backend's timestamp unless it is missing or empty. */
  function CreatedAtOr(createdAt: Option<string>, now: string): (r: string)
    ensures createdAt.Some? && createdAt.value != "" ==> r == createdAt.value
    ensures createdAt.None? || createdAt.value == "" ==> r == now
  {
    if createdAt.Some? && createdAt.value != "" then createdAt.value else now
  }

  // ---------------------------------------------------------------------
  // Option letters

  const Letters: seq<string> := ["A", "B", "C", "D"]

  /** `['A', 'B', 'C', 'D'][i]`: undefined outside 0..3. */
  function LetterAt(i: int): (r: Option<string>)
    ensures r.Some? <==> 0 <= i < 4
    ensures r.Some? ==> r.value in Letters
  {
    if 0 <= i < 4 then Some(Letters[i]) else None
  }

  /** `['A', 'B', 'C', 'D'].indexOf(letter)`: -1 for anything else. */
  function IndexOf(letter: string): (i: int)
    ensures -1 <= i < 4
    ensures i == -1 <==> letter !in Letters
    ensures i >= 0 ==> Letters[i] == letter
  {
    if letter == "A" then 0
    else if letter == "B" then 1
    else if letter == "C" then 2
    else if letter == "D" then 3
    else -1
  }

  /** Letter and index are inverse on 0..3 and on A..D. */
  lemma LetterRoundTrip(i: int, letter: string)
    ensures 0 <= i < 4 ==> IndexOf(LetterAt(i).value) == i
    ensures letter in Letters ==> LetterAt(IndexOf(letter)) == Some(letter)
  {
  }

  // ---------------------------------------------------------------------
  // Request payloads

  /** The editable fields of a question, each possibly absent (`Partial<Question>`). */
  datatype Draft = Draft(question: Option<string>, options: Option<Four<string>>, correctAnswer: Option<int>)

  /**
   * The JSON body sent to create or update a question; a field is absent
   * when the object lacks the key or holds undefined there.
   */
  datatype Payload = Payload(questionText: Option<string>, options: Option<Four<string>>, correctOption: Option<string>)

  /** The body built from a complete question: every field, the index as its letter. */
  function FullPayload(question: string, options: Four<string>, correctAnswer: int): (p: Payload)
    ensures p.questionText == Some(question) && p.options == Some(options)
    ensures p.correctOption.Some? <==> 0 <= correctAnswer < 4
    ensures 0 <= correctAnswer < 4 ==> IndexOf(p.correctOption.value) == correctAnswer
  {
    Payload(Some(question), Some(options), LetterAt(correctAnswer))
  }

  /**
   * The update body built by conditional spreads: the text only when it is a
   * non-empty string, the options when present, the letter when an index is
   * present (and only if it names a letter, since undefined is not sent).
   */
  function PartialPayload(d: Draft): (p: Payload)
    ensures p.questionText.Some? <==> d.question.Some? && d.question.value != ""
    ensures p.questionText.Some? ==> p.questionText == d.question
    ensures p.options == d.options
    ensures p.correctOption.Some? <==> d.correctAnswer.Some? && 0 <= d.correctAnswer.value < 4
    ensures p.correctOption.Some? ==> IndexOf(p.correctOption.value) == d.correctAnswer.value
  {
    Payload(
      if d.question.Some? && d.question.value != "" then d.question else None,
      d.options,
      if d.correctAnswer.Some? then LetterAt(d.correctAnswer.value) else None)
  }

  /** The record a backend stores for a complete payload. */
  function Stored(p: Payload, id: Id, subjectId: Id, createdAt: Option<string>): APIQuestion
    requires p.questionText.Some? && p.options.Some? && p.correctOption.Some?
  {
    APIQuestion(id, subjectId, p.questionText.value, p.options.value, p.correctOption.value, createdAt)
  }
}

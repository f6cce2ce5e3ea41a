/**
 * How the three question decoders relate. The client ships three services
 * that turn the same backend record into a question: the listing of the
 * backend client, the admin question service and the second question
 * service. They agree on every record whose letter is one of A..D and whose
 * id is not falsy, and differ only on the edges stated here.
 */
module CodecLaws {
  import opened Common
  import opened ExamTypes
  import opened QuestionCodec
  import Api
  import QuestionService
  import Questions

  /**
   * On A..D all three decoders give the position of the letter; on any
   * other text the first two fall back to option 0 (the letter A) while the
   * third reports -1, which no option index matches.
   */
  lemma AnswerDecodersAgree(letter: string)
    ensures letter in Letters ==>
      Api.DecodeCorrectOption(letter) == QuestionService.AnswerIndex(letter) == IndexOf(letter)
    ensures letter !in Letters ==>
      Api.DecodeCorrectOption(letter) == QuestionService.AnswerIndex(letter) == 0 && IndexOf(letter) == -1
  {
  }

  /**
   * A record with a valid letter and a truthy id decodes to the same
   * question through all three services.
   */
  lemma ListingDecodersAgree(q: APIQuestion, stamp: string, now: string)
    requires q.correctOption in Letters && !q.id.Falsy()
    ensures Api.DecodeListed(q, stamp, now) == QuestionService.MapAPIQuestionToQuestion(q, now)
    ensures QuestionService.MapAPIQuestionToQuestion(q, now) == Questions.ConvertAPIQuestion(q, now)
  {
    AnswerDecodersAgree(q.correctOption);
  }

  /**
   * The ids the listings produce differ exactly when the backend id is
   * falsy: the backend client then substitutes the stamp for it, while the
   * services print it ("0" or the empty string).
   */
  lemma FalsyIdsDiverge(q: APIQuestion, stamp: string, now: string)
    requires stamp != "0" && stamp != ""
    ensures Api.DecodeListed(q, stamp, now).id == QuestionService.MapAPIQuestionToQuestion(q, now).id
      <==> !q.id.Falsy()
  {
    if q.id == IntId(0) {
      assert q.id.ToString() == "0" by {
        assert NatToString(0) == [DigitChar(0)];
      }
    }
  }

  /**
   * Every decoder recovers the index a question was created with: the
   * letter each body carries reads back as that index in all three.
   */
  lemma EncodeDecodeAllAgree(correctAnswer: int)
    requires 0 <= correctAnswer < 4
    ensures var letter := LetterAt(correctAnswer).value;
      && Api.DecodeCorrectOption(letter) == correctAnswer
      && QuestionService.AnswerIndex(letter) == correctAnswer
      && IndexOf(letter) == correctAnswer
  {
    LetterRoundTrip(correctAnswer, "");
  }
}

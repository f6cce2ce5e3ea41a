# CBE exam client: a Dafny model of its exam logic

This project models the logic of a computer-based-examination web client:
- the student's exam page, with its one-second countdown, answer map, submit handler, question navigation and clock display;
- the in-memory exam backend the client ships for development, with subject and question tables updated in place, exam start and the scoring loop;
- the three question codecs that translate between the backend's `option_a..option_d` / `correct_option` letter shape and the client's four-option / answer-index shape, and the exam start and submit mappings;
- the grade, pass and statistics rules of the result pages and the admin results tables, and the subject lists of both student dashboards;
- the admin's bulk question entry, with its trim-and-drop payload pipeline, the create loop that stops on an expired session, and the per-subject question limit.

Each source file becomes one module:
- Pure code (field mappings, threshold chains, filters) becomes datatypes, functions and lemmas.
- The exam page is a state machine. `ExamPage.Apply` gives one step per event. The class `ExamPage.ExamPage` holds the page state in fields, and each of its handlers is proved to perform exactly that step.
- The mock backend is a class `MockBackend.ExamStore` whose `seq` fields are reassigned by its methods. The scoring loop is a `while` loop proved equal to a counting function.
- The bulk create loop (`BulkEntry.CreateAll`) and the dashboard's question-count loop (`Dashboard.LoadQuestionCounts`) are methods with loops proved against specification functions.

Network replies, the clock, generated ids and the user's confirmation are parameters. A reply is either `Ok` with the resolved value or `Err` with the rejection message.

Modules:
- `Common` holds the JavaScript value shapes: `Number` with `NaN`, loosely typed `JsVal`, `??` and `String(...)`. It also holds digits and `parseInt`, trimming, ASCII lower-casing, substring search, and sequence filters.
- `ExamTypes` holds the records shared by all pages.
- `Grading` holds the grade and statistics rules, which four pages repeat in the source.

## Model

| member | source | states |
|---|---|---|
| ExamClock.PadStart | src/pages/student/Code-component-1-62.tsx:96 | the padded text has the requested width (or the text's own, if longer), ends with the text and is filled before it |
| ExamClock.Pad2Digits | src/pages/student/Code-component-1-62.tsx:96-98 | a number below 100 padded to two places is its tens digit then its units digit |
| ExamClock.ClockSplit | src/pages/student/Code-component-1-62.tsx:91-95 | hours, minutes and seconds recombine to the total, minutes and seconds are below 60, and the hours are positive exactly from 3600 seconds on |
| ExamClock.FormatTimeRoundTrip | src/pages/student/Code-component-1-62.tsx:90-99 | reading the formatted clock back as colon-separated fields gives the original number of seconds; it has three fields exactly when the time is an hour or more, two otherwise |
| ExamClock.ClockTwoFields | src/pages/student/Code-component-1-62.tsx:98 | an `m:ss` text splits into its two fields and reads as m*60+ss |
| ExamClock.ClockThreeFields | src/pages/student/Code-component-1-62.tsx:96 | an `h:mm:ss` text splits into its three fields and reads as h*3600+mm*60+ss |
| ExamClock.SplitColonJoin | src/pages/student/Code-component-1-62.tsx:96-98 | splitting on colons takes a colon-free field off the front of a joined text |
| ExamClock.Pad2Sexagesimal | src/pages/student/Code-component-1-62.tsx:96 | a padded minute or second below 60 is a two-digit field without colons whose value is the number |
| ExamClock.PercentAtMost | src/pages/student/Code-component-1-62.tsx:102-104 | the percentage test `(t/T)*100 <= c` is the cross-multiplied integer test `100*t <= c*T` |
| ExamClock.TimeColourThresholds | src/pages/student/Code-component-1-62.tsx:101-106 | the clock is red iff 10t <= T, yellow iff 10t > T and 4t <= T, green iff 4t > T (T the session's initial time) |
| ExamClock.TimeColourMonotone | src/pages/student/Code-component-1-62.tsx:101-106 | less time left never shows a less urgent colour |
| ExamClock.WarningMinutes | src/pages/student/Code-component-1-62.tsx:178-182 | the minutes in the warning are the least whole number of minutes covering the remaining seconds |
| ExamClock.WarningNamesAtMostFive | src/pages/student/Code-component-1-62.tsx:178-182 | while the warning shows with time left it names one to five minutes, and five only above 240 seconds |
| ExamClock.ProgressPercent | src/pages/student/Code-component-1-62.tsx:144-173 | the rounded progress lies in 0..100 for a question on the page and is 100 on the last question |
| ExamPage.InitialInv | src/pages/student/Code-component-1-62.tsx:16-23 | the fresh page satisfies the invariant, has no request in flight and no answers |
| ExamPage.Apply | src/pages/student/Code-component-1-62.tsx:27-88 | after navigation nothing changes; every event keeps the submit requests already sent and adds at most one, settles at most one reply, and only loading the session can raise the clock |
| ExamPage.ApplyPreserves | src/pages/student/Code-component-1-62.tsx:27-88 | every event keeps the page invariant (replies never outnumber requests, the index addresses a question, every answer belongs to a question of the session), only appends to the submit requests sent, and adds at most one |
| ExamPage.RunPreserves | src/pages/student/Code-component-1-62.tsx:27-88 | any sequence of events keeps the invariant and only extends the requests sent |
| ExamPage.QuestionIdsBound | src/pages/student/Code-component-1-62.tsx:112-114 | a question list has at most as many distinct ids as questions |
| ExamPage.AnsweredAtMostTotal | src/pages/student/Code-component-1-62.tsx:108-114 | under the invariant the answered count never exceeds the number of questions |
| ExamPage.ChooseRecordsAnswer | src/pages/student/Code-component-1-62.tsx:64-69 | choosing an option records it for the current question, overwrites an earlier choice, leaves every other answer as it was, and changes nothing else |
| ExamPage.UnconfirmedSubmitIgnored | src/pages/student/Code-component-1-62.tsx:74-77 | a manual submit the student does not confirm changes nothing |
| ExamPage.ErrorIsFinal | src/pages/student/Code-component-1-62.tsx:56-86 | once an error is shown it stays, and the page no longer accepts input |
| ExamPage.ClockOnlyCountsDown | src/pages/student/Code-component-1-62.tsx:33-46 | apart from loading the session, no event raises the clock, and a tick lowers it by at most one |
| ExamPage.StoppedClock | src/pages/student/Code-component-1-62.tsx:34 | with the clock at zero, or after navigating away, ticks change nothing |
| ExamPage.Countdown | src/pages/student/Code-component-1-62.tsx:33-46 | k ticks from t seconds leave max(t-k, 0) seconds and send exactly one submit request when they reach zero (with the corrected handler, none if one is already in flight), none otherwise |
| ExamPage.DoubleSubmission | src/pages/student/Code-component-1-62.tsx:33-88 | as written, a confirmed manual submit followed by the expiry tick sends two submit requests while the first is still in flight |
| ExamPage.StaleExpiryPayload | src/pages/student/Code-component-1-62.tsx:33-69 | as written, an option chosen in the last second is missing from the answers the expiry submit sends |
| ExamPage.GuardedExpirySendsCurrentAnswers | src/pages/student/Code-component-1-62.tsx:36-41 | with the corrected handler, the expiry tick sends the answers as they are at that moment |
| ExamPage.GuardedStep | src/pages/student/Code-component-1-62.tsx:71-88 | with the corrected handler, every event keeps at most one submit request in flight |
| ExamPage.GuardedAtMostOneInFlight | src/pages/student/Code-component-1-62.tsx:71-88 | with the corrected handler, any sequence of events keeps at most one submit request in flight |
| ExamPage.GuardedFromStart | src/pages/student/Code-component-1-62.tsx:71-88 | from the fresh page, the corrected handler never has two submit requests in flight |
| ExamPage.ExamPage.constructor | src/pages/student/Code-component-1-62.tsx:16-23 | a new page holds the initial state |
| ExamPage.ExamPage.StartSucceeded | src/pages/student/Code-component-1-62.tsx:48-55 | loading the session stores it and sets the clock to its time |
| ExamPage.ExamPage.StartFailed | src/pages/student/Code-component-1-62.tsx:56-58 | a failed start shows the start error |
| ExamPage.ExamPage.ChooseOption | src/pages/student/Code-component-1-62.tsx:64-69 | the handler performs the answer step |
| ExamPage.ExamPage.SubmitClicked | src/pages/student/Code-component-1-62.tsx:71-81 | the handler performs the submit step and reports whether it sent a request |
| ExamPage.ExamPage.Tick | src/pages/student/Code-component-1-62.tsx:33-46 | the handler performs the one-second step and reports whether it sent the expiry submit |
| ExamPage.ExamPage.SubmitFailedNow | src/pages/student/Code-component-1-62.tsx:83-86 | a failed submit shows the submit error and clears `submitting` |
| ExamPage.ExamPage.SubmitSucceededNow | src/pages/student/Code-component-1-62.tsx:81-82 | a successful submit navigates to the attempt's result |
| ExamPage.ExamPage.PreviousClicked | src/pages/student/Code-component-1-62.tsx:235 | "Previous" moves back one question, clamped at the first |
| ExamPage.ExamPage.NextClicked | src/pages/student/Code-component-1-62.tsx:241-244 | "Next" moves forward one question only while one follows |
| ExamPage.ExamPage.JumpClicked | src/pages/student/Code-component-1-62.tsx:278-288 | the overview buttons move to the chosen question |
| MockBackend.PatchSubjectLaws | src/services/Code-component-1-38.tsx:95 | an update overrides exactly the fields it carries, an empty update changes nothing, and applying it twice is applying it once |
| MockBackend.PatchQuestionLaws | src/services/Code-component-1-38.tsx:129 | the same laws for a question update |
| MockBackend.Percent | src/services/Code-component-1-38.tsx:183 | the percentage is NaN exactly when nothing was answered; otherwise it is in 0..100, and it is 100 for a full score and 0 for none |
| MockBackend.CorrectCountBound | src/services/Code-component-1-38.tsx:164-172 | the score never exceeds the number of answers |
| MockBackend.CorrectCountIsScoringKeys | src/services/Code-component-1-38.tsx:164-172 | counted over the map's entries, the score is the number of answered questions that exist and whose correct answer is the one given |
| MockBackend.CorrectCountSubset | src/services/Code-component-1-38.tsx:167-171 | over distinct keys, the score is the size of the set of scoring keys |
| MockBackend.UnknownQuestionNeverScores | src/services/Code-component-1-38.tsx:168-169 | an answer to a question id that does not exist never scores |
| MockBackend.SeedAttemptConsistent | src/services/Code-component-1-38.tsx:50-68 | the seeded attempt's score, total and percentage agree with scoring its answers against the seeded questions |
| MockBackend.ExamStore.Seeded | src/services/Code-component-1-38.tsx:4-68 | the store starts with the seeded subjects, questions and attempts |
| MockBackend.OfSubject | src/services/Code-component-1-38.tsx:111 | exactly the questions of that subject, as a subsequence of the list with their multiplicities |
| MockBackend.ExamStore.QuestionsOf | src/services/Code-component-1-38.tsx:109-112 | exactly the stored questions of that subject, as a subsequence of the stored ones with their multiplicities |
| MockBackend.ExamStore.StudentResults | src/services/Code-component-1-38.tsx:194-197 | exactly the stored attempts of that student, as a subsequence of the stored ones with their multiplicities |
| MockBackend.ExamStore.StartExam | src/services/Code-component-1-38.tsx:143-159 | fails with "Subject not found" iff no subject has the id; otherwise the session has that subject's questions as a subsequence of the stored ones with their multiplicities, no answers, and the duration in seconds of the first subject with the id |
| MockBackend.ExamStore.CreateSubject | src/services/Code-component-1-38.tsx:80-89 | appends exactly the new subject at the end and returns it; nothing else changes |
| MockBackend.ExamStore.UpdateSubject | src/services/Code-component-1-38.tsx:91-97 | fails iff no subject has the id; otherwise replaces the first match by its patched record and leaves every other subject as it was |
| MockBackend.ExamStore.DeleteSubject | src/services/Code-component-1-38.tsx:99-104 | fails iff no subject has the id; otherwise removes exactly the first match, keeping the others in order |
| MockBackend.ExamStore.CreateQuestion | src/services/Code-component-1-38.tsx:114-123 | appends exactly the new question at the end and returns it; nothing else changes |
| MockBackend.ExamStore.UpdateQuestion | src/services/Code-component-1-38.tsx:125-131 | fails iff no question has the id; otherwise replaces the first match by its patched record only |
| MockBackend.ExamStore.DeleteQuestion | src/services/Code-component-1-38.tsx:133-138 | fails iff no question has the id; otherwise removes exactly the first match, keeping the others in order |
| MockBackend.ExamStore.Score | src/services/Code-component-1-38.tsx:164-172 | the scoring loop returns the number of scoring answers, which is at most the number of answers |
| MockBackend.ExamStore.SubmitExam | src/services/Code-component-1-38.tsx:161-192 | appends one completed attempt, with the score, the answered count as total and the rounded percentage, under student1 and subject 1 |
| MockBackend.SubmissionsGoToStudentOne | src/services/Code-component-1-38.tsx:176-196 | after a submission, student1's results gain exactly that attempt and every other student's results are unchanged |
| QuestionCodec.Normalize | src/services/questionService.ts:41 | a list stays as it is, a single record becomes a one-element list, and nothing becomes the empty list |
| QuestionCodec.CreatedAtOr | src/services/questionService.ts:18 | the backend's creation time unless it is missing or empty, else now |
| QuestionCodec.LetterAt | src/services/questions.ts:49 | an index has a letter exactly when it is in 0..3, and that letter is one of A..D |
| QuestionCodec.IndexOf | src/services/questions.ts:11 | -1 exactly for a text other than A..D, otherwise the position of the letter |
| QuestionCodec.LetterRoundTrip | src/services/api.ts:167-188 | encoding an index 0..3 as a letter and decoding it gives the index back, and the other way round for A..D |
| QuestionCodec.FullPayload | src/services/questions.ts:43-50 | the create body carries the text and options, and a letter exactly when the index is 0..3, which decodes back to it |
| QuestionCodec.PartialPayload | src/services/questions.ts:70-81 | the update body carries the text only when it is non-empty, options only when given, and a letter only for an index 0..3, which decodes back to it |
| QuestionService.AnswerIndex | src/services/questionService.ts:6-17 | A..D decode to 0..3; any other text decodes to 0 |
| QuestionService.MapAPIQuestionToQuestion | src/services/questionService.ts:5-20 | ids become their text, options keep the a..d order, the answer index is in 0..3 and names the stored letter when there is one |
| QuestionService.MapQuestionToAPI | src/services/questionService.ts:23-34 | the body carries options only when given and a letter exactly for an index 0..3, which decodes back to it |
| QuestionService.GetBySubject | src/services/questionService.ts:37-48 | errors are passed on; otherwise the normalised reply is decoded element by element |
| QuestionService.Returned | src/services/questionService.ts:50-70 | create and update pass an error on; a returned record is decoded, and any other value decodes to a question whose ids read 'undefined', with answer 0 and the time now |
| QuestionService.CreateRoundTrip | src/services/questionService.ts:5-59 | a complete question created and stored as sent comes back with its text, options and answer index |
| QuestionService.DecodeEncode | src/services/questionService.ts:5-34 | decoding a record with a valid letter and encoding it again gives its text, options and letter back |
| Questions.ConvertAPIQuestion | src/services/questions.ts:6-13 | ids become their text, options keep the a..d order, and the answer is the letter's position, -1 exactly for an invalid letter |
| Questions.GetBySubject | src/services/questions.ts:16-40 | any error yields the empty list; otherwise the normalised data is decoded element by element |
| Questions.Returned | src/services/questions.ts:54-91 | errors are passed on, an empty reply fails with "No response data", a record is decoded |
| Questions.CreateRoundTrip | src/services/questions.ts:42-66 | a complete question created and stored as sent comes back with its text, options and answer index |
| Questions.UpdateRoundTrip | src/services/questions.ts:68-96 | an update applied by the backend changes exactly the groups the draft fills in, and the decoded answer index is the one sent |
| Api.SubjectsGetAll | src/services/api.ts:121-124 | a list reply is kept; anything else becomes the empty list |
| Api.DecodeCorrectOption | src/services/api.ts:152 | A..D decode to 0..3; any other text decodes to 0 |
| Api.DecodeListed | src/services/api.ts:147-154 | a falsy id is replaced by the timestamp; otherwise ids become their text, options keep the a..d order, and the answer is in 0..3 |
| Api.GetBySubject | src/services/api.ts:132-158 | an error is passed on; a falsy reply falls back to the sample questions of that subject; otherwise the reply is wrapped into a list and decoded element by element |
| Api.FallbackIsSubjectsSamples | src/services/api.ts:139-142 | the fallback holds exactly the sample questions of the requested subject |
| Api.Create | src/services/api.ts:160-191 | an error is passed on; without a reply record the question is id '0' with the submitted text and options, the subject id as parsed and the answer index when it names a letter (-1 otherwise); a record is decoded with ids as text and the answer at its letter's position (-1 exactly for an invalid letter); a list fails; every created question is stamped now |
| Api.CreateFallbackEchoes | src/services/api.ts:169-190 | without a reply record the created question is id '0' and echoes the submitted subject, text, options and answer index (-1 for an index without a letter) |
| Api.CreateRoundTrip | src/services/api.ts:160-191 | a complete question created and stored as sent comes back with its text, options and answer index, stamped now |
| Api.Update | src/services/api.ts:192-214 | a reply that is not a single record fails; otherwise the record's ids as text, its text and its options in a..d order, the answer at the letter's position, and the stored creation time or now |
| Api.StudentIdOf | src/services/api.ts:239-245 | never empty; the stored user's id as text, which reads back as the same number for a numeric id; 'me' when there is no id or it is empty |
| Api.StartExam | src/services/api.ts:236-259 | the session id is the requested subject, no answers, the reply's questions in order with their ids, text and options and the answer hidden as -1, the reply's time or 0 |
| Api.SubmitPayload | src/services/api.ts:261-269 | the subject id is the session id parsed as a number, and there is one entry per answer, in enumeration order, with the question id parsed and the index as its letter |
| Api.AttemptFromReply | src/services/api.ts:272-287 | the reply's score, total and percentage, each 0 when missing, and status 'completed' by default |
| Api.StartSubmitRoundTrip | src/services/api.ts:236-269 | submitting a session started for a numeric subject sends that subject's number, every numeric question id as its number, and every chosen index as the letter that decodes to it |
| CodecLaws.AnswerDecodersAgree | src/services/api.ts:152 | the three answer decoders agree on A..D, and on anything else give 0, 0 and -1 |
| CodecLaws.ListingDecodersAgree | src/services/questionService.ts:5-20 | for a record with a valid letter and a non-falsy id the three list decoders produce the same question |
| CodecLaws.FalsyIdsDiverge | src/services/api.ts:148 | the listing decoders give the same id exactly when the backend's id is not falsy |
| CodecLaws.EncodeDecodeAllAgree | src/services/questions.ts:49 | the letter any encoder sends for an index 0..3 decodes to that index under all three decoders |
| BulkEntry.BuildPayloads | src/pages/admin/QuestionsTab.tsx:134-142 | the kept payloads are at most the forms, all complete and all for the selected subject |
| BulkEntry.KeptIffNotBlank | src/pages/admin/QuestionsTab.tsx:137-142 | a form is kept iff neither its question nor any of its four options is blank |
| BulkEntry.PayloadsTrimmed | src/pages/admin/QuestionsTab.tsx:137-138 | every kept payload has its question and options trimmed |
| BulkEntry.BuildPayloadsAppend | src/pages/admin/QuestionsTab.tsx:134-142 | building payloads keeps the forms' order: it distributes over concatenation |
| BulkEntry.BlankFormsYieldNothing | src/pages/admin/QuestionsTab.tsx:142-145 | the blank forms the dialog opens with are all skipped as empty, so they yield no payload |
| BulkEntry.Attempted | src/pages/admin/QuestionsTab.tsx:149-160 | the loop sends requests up to and including the first one whose failure is an expired session, all of them when none is |
| BulkEntry.CountOk | src/pages/admin/QuestionsTab.tsx:152 | the successes are at most the outcomes |
| BulkEntry.CreateAll | src/pages/admin/QuestionsTab.tsx:147-162 | the loop sends exactly the attempted prefix; successes plus failures equal the requests sent, at most the payloads; it stops early iff some failure is an expired session, and otherwise sends every payload |
| BulkEntry.SubmitBulk | src/pages/admin/QuestionsTab.tsx:104-178 | without a selected subject nothing is sent, nothing is shown and the dialog stays open; otherwise, with no complete payload nothing is sent and one error asks to fill a question, or the attempted prefix is sent and the loop's toasts follow the outcomes; either way the dialog then closes and the reload's toast, if any, comes last |
| BulkEntry.ReloadToasts | src/pages/admin/QuestionsTab.tsx:66-90 | the reload shows no toast without a subject or when it finds no questions, the number loaded when it finds some, and the error's message when it fails |
| BulkEntry.AllCreatedReport | src/pages/admin/QuestionsTab.tsx:163-164 | when every request succeeds all are sent and the loop's only toast reports them all created |
| BulkEntry.StoppedRunReport | src/pages/admin/QuestionsTab.tsx:156-160 | an expired session stops the loop right after it, and its toast comes first |
| BulkEntry.BlankForms | src/pages/admin/QuestionsTab.tsx:248-252 | the dialog opens with the requested number of forms |
| BulkEntry.GuardsAgree | src/pages/admin/QuestionsTab.tsx:229-244 | with a subject selected whose limit is not null, the button is disabled exactly when a click would report the limit reached |
| BulkEntry.NullLimitGuardsDisagree | src/pages/admin/QuestionsTab.tsx:229-244 | for a subject whose limit is null the button is disabled, yet a click would open the dialog with no forms |
| BulkEntry.OpenedFormsFillLimit | src/pages/admin/QuestionsTab.tsx:246-252 | creating under a limit opens max(total - count, 1) forms: at least one, and exactly the remaining slots |
| BulkEntry.NoFormsWithoutLimit | src/pages/admin/QuestionsTab.tsx:253-255 | when editing, or for a subject whose limit is missing or null, the dialog opens with no forms |
| Grading.GradeBands | src/pages/admin/ResultsTab.tsx:59-65 | a grade other than F is given exactly for percentages in its ten-point band (A: 90 and above) |
| Grading.GradeMonotone | src/pages/admin/ResultsTab.tsx:59-65 | a higher percentage never gets a lower grade |
| Grading.PassedIffAtLeastC | src/pages/admin/ResultsTab.tsx:50-65 | at the default passing score a result passes exactly when its grade is C or better |
| Grading.Sum | src/pages/admin/ResultsTab.tsx:74 | the sum is NaN exactly when some percentage is NaN |
| Grading.RoundedMean | src/pages/admin/ResultsTab.tsx:73-75 | NaN exactly when some percentage is NaN; otherwise the integer v with v - 1/2 <= mean < v + 1/2 |
| Grading.AverageScore | src/pages/student/StudentDashboard.tsx:188-191 | no average without attempts; otherwise the rounded mean |
| Grading.SumWithin | src/pages/admin/ResultsTab.tsx:74 | percentages in lo..hi sum to between n*lo and n*hi |
| Grading.MeanWithin | src/pages/admin/ResultsTab.tsx:73-75 | the rounded mean of percentages in lo..hi is in lo..hi |
| Grading.SumConstant | src/pages/admin/ResultsTab.tsx:74 | n equal percentages sum to n times the value |
| Grading.MeanOfConstant | src/pages/admin/ResultsTab.tsx:73-75 | the rounded mean of equal percentages is that percentage |
| Grading.CalculateStats | src/pages/admin/ResultsTab.tsx:67-78 | an empty table gives zeros; otherwise the total is the row count, passed is the number of rows at 70 or more, failed the rest, and the average is the rounded mean |
| Grading.StatsExtremes | src/pages/admin/ResultsTab.tsx:71-72 | when every row passes none fail, and when none pass none are counted as passed |
| Grading.StatsAverage | src/pages/admin/ResultsTab.tsx:73-75 | percentages in 0..100 average within 0..100; one NaN percentage makes the average NaN |
| ResultsTab.FilterResults | src/pages/admin/ResultsTab.tsx:21-36 | a row is shown iff it is in the results and the lower-cased term occurs in its lower-cased student name, subject name, subject id or student id |
| ResultsTab.FilterResultsInOrder | src/pages/admin/ResultsTab.tsx:23 | the shown rows keep their order: filtering distributes over concatenation |
| ResultsTab.EmptySearchKeepsAll | src/pages/admin/ResultsTab.tsx:22-34 | an empty search shows every row |
| ResultsTab.SearchIgnoresCase | src/pages/admin/ResultsTab.tsx:22 | a term and its lower-case form select the same rows |
| ResultsTab.FoundByAltStudentId | src/pages/admin/ResultsTab.tsx:27 | a row is found by its student id when it only carries the `student_id` spelling |
| ResultsTab.TableStats | src/pages/admin/ResultsTab.tsx:67-78 | an empty table gives zeros; passed counts exactly the shown rows whose percentage (0 when null, NaN when missing) is at least 70, failed the rest, and a non-empty table's average is the rounded mean of those percentages |
| ResultsTab.RowBadgesAgree | src/pages/admin/ResultsTab.tsx:50-65 | a row's pass badge and grade never disagree |
| ResultsTab.MissingPercentage | src/pages/admin/ResultsTab.tsx:50-78 | a row without a percentage field is graded F and failed, but makes the table's average NaN |
| ResultsTab.NullPercentage | src/pages/admin/ResultsTab.tsx:50-78 | a row whose percentage is null is graded F and failed, and counts in the statistics exactly as a percentage of 0 |
| ResultsTab.NullAndMissingDiffer | src/pages/admin/ResultsTab.tsx:67-78 | a lone row with a null percentage averages to 0, a lone row without one averages to NaN |
| LegacyResultsTab.FilterResults | src/pages/admin/Code-component-1-54.tsx:21-28 | an attempt is shown iff the lower-cased term occurs in its lower-cased student or subject name |
| LegacyResultsTab.FilterResultsInOrder | src/pages/admin/Code-component-1-54.tsx:23 | the shown attempts keep their order |
| LegacyResultsTab.TableStats | src/pages/admin/Code-component-1-54.tsx:59-70 | an empty table gives zeros; passed counts exactly the shown attempts at 70 or more, failed the rest, and a non-empty table's average is the rounded mean of their percentages |
| LegacyResultsTab.NewerSearchFindsMore | src/pages/admin/Code-component-1-54.tsx:21-28 | every attempt the earlier search finds, the newer search finds too |
| LegacyResultsTab.OnlyNewerSearchFindsIds | src/pages/admin/Code-component-1-54.tsx:23-26 | an attempt searched for by its student id is found only by the newer table |
| LegacyResultsTab.TablesAgree | src/pages/admin/Code-component-1-54.tsx:42-70 | for typed attempts both tables show the same grade, pass badge and statistics |
| ResultPage.GradeWithColour | src/pages/student/Code-component-1-66.tsx:53-59 | the grade is the shared threshold grade and the colour is that grade's own |
| ResultPage.ColoursDistinct | src/pages/student/Code-component-1-66.tsx:53-59 | two grades share a colour only when they are the same grade |
| ResultPage.Present | src/pages/student/Code-component-1-66.tsx:92-260 | the page shows the grade and colour, passes at 70, shows the score as correct and the total minus the score as incorrect, and offers the retake (to this subject's exam) and the recommendations exactly when it did not pass |
| ResultPage.VerdictMatchesGrade | src/pages/student/Code-component-1-66.tsx:53-63 | the verdict is a pass exactly for grades C and better |
| ResultPage.IncorrectWithinTotal | src/pages/student/Code-component-1-66.tsx:203 | with a score within the total, the incorrect count is within 0..total |
| ResultPage.SampleResult | src/pages/student/Code-component-1-66.tsx:29-43 | the sample result carries the requested attempt id |
| ResultPage.SampleResultPasses | src/pages/student/Code-component-1-66.tsx:29-43 | the sample 2 of 2 at 100% agrees with the backend's percentage rule, is an A in green, passes, and offers no retake and no recommendations |
| Dashboard.LoadAttempts | src/pages/student/StudentDashboard.tsx:36-46 | an expired-session failure of the results call means no attempts, other failures propagate, and a missing list becomes empty |
| Dashboard.NameFor | src/pages/student/StudentDashboard.tsx:51 | 'Unknown Subject' when no subject's id strictly equals the attempt's; otherwise the name of the first subject whose id does, or 'Unknown Subject' when that name is empty |
| Dashboard.WithSubjectNames | src/pages/student/StudentDashboard.tsx:49-52 | every attempt keeps its fields and gains the subject name |
| Dashboard.Counts | src/pages/student/StudentDashboard.tsx:55-64 | the counts have a key exactly for every subject id |
| Dashboard.CountsOwnReply | src/pages/student/StudentDashboard.tsx:56-63 | each subject's count comes from its own reply (0 when that request failed), unaffected by other subjects |
| Dashboard.LoadQuestionCounts | src/pages/student/StudentDashboard.tsx:55-64 | the loop fills exactly the counts the specification function gives |
| Dashboard.LoadData | src/pages/student/StudentDashboard.tsx:29-78 | a failure clears everything and shows its message; otherwise subjects, named attempts and question counts are loaded |
| Dashboard.MatchesIffString | src/pages/student/StudentDashboard.tsx:80-87 | an attempt belongs to a subject iff either spelling of its subject id, as text, equals the subject's id |
| Dashboard.NumericIdMatches | src/pages/student/StudentDashboard.tsx:84 | an attempt with a numeric subject id belongs to the subject with that numeral as id |
| Dashboard.MissingSpellingMatchesUndefinedText | src/pages/student/StudentDashboard.tsx:83 | an attempt lacking the `subject_id` spelling matches a subject whose id is the text "undefined" |
| Dashboard.NumericIdIsUnnamed | src/pages/student/StudentDashboard.tsx:51-84 | an attempt with a numeric subject id completes its subject but is named 'Unknown Subject' |
| Dashboard.SubjectAttempt | src/pages/student/StudentDashboard.tsx:91-99 | an attempt is found iff some attempt belongs to the subject, and it is the first one that does |
| Dashboard.SubjectStatus | src/pages/student/StudentDashboard.tsx:80-89 | 'completed' iff some attempt belongs to the subject |
| Dashboard.ViewResultRoute | src/pages/student/StudentDashboard.tsx:106-111 | a result page is opened iff the subject is completed, and it is /result/ followed by the id of the first attempt that belongs to the subject |
| Dashboard.StartRouteKeepsNumericIds | src/pages/student/StudentDashboard.tsx:101-104 | for a numeric subject id the exam route carries the id unchanged |
| Dashboard.FilterSplits3 | src/pages/student/StudentDashboard.tsx:121-127 | three filters with mutually exclusive, exhaustive predicates split a list's length |
| Dashboard.AvailableSubjects | src/pages/student/StudentDashboard.tsx:121-123 | the available subjects are a subsequence of the subjects |
| Dashboard.CompletedSubjects | src/pages/student/StudentDashboard.tsx:124 | the completed subjects are a subsequence of the subjects |
| Dashboard.SubjectsWithoutQuestions | src/pages/student/StudentDashboard.tsx:125-127 | the subjects without questions are a subsequence of the subjects |
| Dashboard.ListsPartition | src/pages/student/StudentDashboard.tsx:121-127 | each subject lies in exactly one of the available, completed and no-questions lists, their sizes add up to all subjects, and each list keeps the subjects' order |
| Dashboard.AvailableCountIncludesEmptySubjects | src/pages/student/StudentDashboard.tsx:167 | the "Available Exams" card counts the available subjects and the ones without questions |
| Dashboard.AvailableCount | src/pages/student/StudentDashboard.tsx:167 | the card counts exactly the subjects whose status is 'available' |
| Dashboard.AverageCard | src/pages/student/StudentDashboard.tsx:188-191 | 'N/A' exactly without attempts; otherwise the rounded mean percentage, which lies in 0..100 when the percentages do |
| LegacyDashboard.SubjectAttempt | src/pages/student/Code-component-1-58.tsx:43-45 | the first attempt whose subject id equals the subject's, when there is one |
| LegacyDashboard.SubjectStatus | src/pages/student/Code-component-1-58.tsx:38-41 | 'completed' iff some attempt's subject id equals the subject's |
| LegacyDashboard.CardAction | src/pages/student/Code-component-1-58.tsx:167-183 | an available subject offers "Start Exam" to its exam; a completed one offers "View Result", which has a result to open |
| LegacyDashboard.ViewResultRoute | src/pages/student/Code-component-1-58.tsx:51-56 | a result page is opened iff the subject is completed, and it is /result/ followed by the id of the first attempt whose subject id equals the subject's |
| LegacyDashboard.AvailableCount | src/pages/student/Code-component-1-58.tsx:84 | the card counts exactly the subjects whose status is 'available' |
| LegacyDashboard.AvailablePlusCompleted | src/pages/student/Code-component-1-58.tsx:38-84 | the available and the completed subjects together are all subjects |
| LegacyDashboard.AverageCard | src/pages/student/Code-component-1-58.tsx:105-108 | 'N/A' exactly without attempts; otherwise the rounded mean percentage |
| LegacyDashboard.AverageOfEqualScores | src/pages/student/Code-component-1-58.tsx:105-108 | attempts with equal percentages average to that percentage |
| LegacyDashboard.NewerMatchAgrees | src/pages/student/Code-component-1-58.tsx:39 | on typed attempts the newer, looser match agrees with strict equality, except for a subject id "undefined" |
| LegacyDashboard.StatusesAgree | src/pages/student/Code-component-1-58.tsx:38-41 | both dashboards give a subject whose id is not "undefined" the same status |
| Common.RoundDivBounds | src/pages/admin/ResultsTab.tsx:73-75 | for a positive divisor, a quotient between lo and hi rounds to a value between lo and hi |
| Common.RoundDivExact | src/pages/admin/ResultsTab.tsx:73-75 | rounding an exact quotient gives the quotient |
| Common.Trim | src/pages/admin/QuestionsTab.tsx:137-138 | the trimmed text is a slice of the text with only white space removed before and after it; it is empty exactly when the text is all white space, and otherwise starts and ends with a non-space |
| Common.TrimIdempotent | src/pages/admin/QuestionsTab.tsx:137-138 | trimming twice is trimming once |
| Common.TrimStartDropsSpaces | src/pages/admin/QuestionsTab.tsx:137-138 | removing leading white space keeps a suffix of the text and removes only white-space characters |
| Common.ParseIntRoundTrip | src/services/api.ts:264-266 | parsing the decimal text of a number gives the number back |
| Common.ParseIntDigits | src/pages/admin/QuestionsTab.tsx:140 | a run of decimal digits parses as its value |
| Common.ParseIntNegative | src/pages/admin/QuestionsTab.tsx:140 | a minus sign followed by a run of digits parses as the negated value |
| Common.NatToStringInjective | src/services/api.ts:148 | different natural numbers have different decimal texts |
| Common.Find | src/pages/student/StudentDashboard.tsx:51 | a value is found iff some element passes the test, and it is the first element that does |
| Common.FilterSelects | src/pages/student/StudentDashboard.tsx:121-127 | a filter keeps a subsequence of the list, keeps each passing value as often as the list holds it, and drops every other value |
| Common.FilterCount | src/pages/admin/ResultsTab.tsx:71 | a filter's length is the number of positions whose element passes the test |

## Left out

- The HTTP layer is not part of this model: the axios instances, interceptors and headers (src/services/api.ts:6-46, src/services/apiClient.ts, src/lib/api.ts). A reply is the value the interceptor resolves to, or the message it rejects with. In src/services/questions.ts, the reply is the `data` field that module destructures from that value.
- `localStorage` is left out. The stored user is a parameter of `Api.StudentIdOf`. `JSON.parse` failures and the user/token checks before the bulk loop (src/pages/admin/QuestionsTab.tsx:121-132) are not modelled.
- Timing is not modelled: `setTimeout`, the mock's `delay`, and React's effect and render scheduling. One tick is one `Tick` event. A state update is applied when its event is applied. The stale-closure behaviour of the timer is modelled by recording the answers that were current when the tick was armed.
- Generated ids and timestamps (`Date.now()`, `new Date()`) are opaque `stamp`/`now` parameters.
- Floating point is replaced by integer arithmetic:
  - percentages are integers, or `NaN`;
  - `Math.round(a/b)` with b > 0 is (2a+b) div 2b;
  - the clock colour thresholds are cross-multiplied;
  - a fractional percentage from a backend is not represented;
  - the mock's `(score/n)*100` is taken as exact before rounding.
- `toLowerCase` is modelled on ASCII letters only, which covers every term the pages compare against.
- ExamClock.FormatTime: does not model a negative time from a backend, which would print negative fields.
- A start reply whose question lacks an `options` object (`q.options?.A`) is not modelled. Each question's four options are given.
- `correctAnswerMap` looks letters up on a plain object, so inherited property names such as "toString" are not modelled. Only A..D and other texts are distinguished.
- `null` and `undefined` are one missing value, except for a results row's percentage and a listed subject's question limit, where the code treats them differently. The number 0 and the empty string are the falsy ids.
- In src/services/api.ts the question id is kept as the backend's value (`q.id ||`, `updated.id`). The model represents it by its text.
- Rendering is not modelled: JSX, the loading spinner, the crash of the exam page on a session without questions (src/pages/student/Code-component-1-62.tsx:143), labels, badges and the display strings of src/pages/admin/ResultsTab.tsx:182-195.
- `err instanceof Error ? err.message : String(err)` is one message parameter. A non-Error rejection is not distinguished.
- The single-question create/edit path of the questions tab's submit handler, and the delete handlers, are not modelled. They pass their form to the codecs modelled here.
- `questionService.delete`, `questions.remove` and `questions.delete` only forward a request and are not modelled.
- Subject ids are taken as strings, as the shared type declaration (src/types/exam.ts:2) says. The subjects from the backend are passed on unconverted (src/services/apiClient.ts:49-56), so a backend that sent numeric subject ids would make the strict comparison at src/pages/student/StudentDashboard.tsx:51 succeed for numeric attempt ids, which Dashboard.NumericIdIsUnnamed does not cover.
- The plain CRUD forms are not part of this model (src/pages/admin/SubjectsTab.tsx, Code-component-1-46.tsx, Code-component-1-50.tsx). Nor are the authentication contexts, routing or the other pages.
- The submit handler of the exam page has no guard against a second submission. The model exposes the race as a finding and does not claim at-most-once for the code as written.
- The mock backend's `submitExam` ignores the session. It scores against every stored question, takes the number of answers as the total, and files the attempt under student1 and subject 1. The model follows the code here; the type declarations and descriptions suggest otherwise.

- BulkEntry.GuardsAgree: not promised for a subject whose question limit is null. There the button and the click handler disagree, as BulkEntry.NullLimitGuardsDisagree states.
- ResultsTab.MissingPercentage: covers a row without a percentage field only. A null percentage counts as 0 instead, as ResultsTab.NullPercentage states.
- BulkEntry.SubmitBulk: the form reset after the submission (src/pages/admin/QuestionsTab.tsx:176) clears dialog fields that are not part of this model. It models the submit only when the dialog holds bulk forms and no question is being edited; the other two paths (src/pages/admin/QuestionsTab.tsx:111-119 and 165-173) are the single-question path, which is left out as listed above.
- BulkEntry.AllCreatedReport: states the loop's own toasts only. The reload toast that follows them is stated by BulkEntry.SubmitBulk.
- QuestionService.Returned: the undefined text and options of a reply that is not a record are kept as empty strings.
- Common.ParseInt: the "0x" prefix that `parseInt` without a radix reads as hexadecimal is not modelled. Such calls read the text as decimal.

## Findings

| source | as written | input that shows it | evidently intended | confidence | as-written member | corrected member |
|---|---|---|---|---|---|---|
| src/pages/student/Code-component-1-62.tsx:33-88 | `handleSubmitExam` has no in-flight guard. Only the buttons are disabled while submitting, and the expiry tick calls it directly | a session with 1 second left; the student confirms "Submit Early"; the tick fires before the reply arrives, so two submit requests are in flight | at most one submit request in flight | not executed | ExamPage.DoubleSubmission | ExamPage.GuardedAtMostOneInFlight |
| src/pages/student/Code-component-1-62.tsx:33-46 | the countdown closure runs the `handleSubmitExam` from the render that armed the timer, so it sends the answers captured then | a session with 1 second left; the student picks option B for the first question; the tick expires the exam and submits the answers without that choice | the expiry submit sends the answers as they are when time runs out | not executed | ExamPage.StaleExpiryPayload | ExamPage.GuardedExpirySendsCurrentAnswers |

/**
 * The student's exam page: loading the session, answering, moving between
 * questions, the one-second countdown and submission, manual or on expiry.
 *
 * `Apply` is the page's reaction to one event, over a snapshot of its state;
 * the class `ExamPage` holds the same state in fields and its methods are
 * proved to perform `Apply`. Besides the page's own state the snapshot
 * records every submission request issued (`sent`) and how many of them have
 * been answered (`settled`), and the answers captured by the pending
 * countdown callback (`armed`), which the page re-arms each time the
 * remaining time changes.
 *
 * `Policy` selects the submission behaviour: `AsWritten` is the page's own;
 * `Guarded` refuses to auto-submit while a submission is in flight and
 * submits the current answers on expiry.
 */
module ExamPage {
  import opened Common
  import opened ExamTypes

  const StartError := "Failed to start exam. Please try again."
  const SubmitError := "Failed to submit exam. Please try again."

  datatype Policy = AsWritten | Guarded

  datatype PageState = PageState(
    session: Option<Session>,
    index: int,
    answers: Answers,
    time: int,
    submitting: bool,
    error: string,
    armed: Answers,
    sent: seq<Answers>,
    settled: nat,
    route: Option<string>)

  datatype Event =
    | Loaded(loaded: Session)       // the start request returned a session
    | LoadFailed                    // the start request threw
    | Choose(option: int)           // an option of the current question was picked
    | ClickSubmit(confirmed: bool)  // a submit button, with the answer to the confirmation dialog
    | Tick                          // the pending one-second countdown callback fired
    | SubmitFailed                  // the oldest unanswered submission threw
    | SubmitSucceeded(attemptId: string)  // the oldest unanswered submission returned an attempt
    | Previous
    | Next
    | Jump(target: int)             // a button of the question overview

  /** The page as first rendered. */
  function Initial(): PageState {
    PageState(None, 0, map[], 0, false, "", map[], [], 0, None)
  }

  function Questions(s: PageState): seq<Question> {
    if s.session.Some? then s.session.value.questions else []
  }

  /** `getTotalQuestions`. */
  function TotalQuestions(s: PageState): nat {
    |Questions(s)|
  }

  /** `getAnsweredCount`: the number of keys of the answers record. */
  function AnsweredCount(s: PageState): nat {
    |s.answers.Keys|
  }

  /** Submission requests issued but not yet answered. */
  function InFlight(s: PageState): int {
    |s.sent| - s.settled
  }

  /** The question view with its buttons is on screen: a session, no error, not navigated away. */
  predicate Interactive(s: PageState) {
    s.session.Some? && s.error == "" && s.route.None?
  }

  /** `handleSubmitExam` once past its guards: mark submitting and issue the request. */
  function Submit(s: PageState, payload: Answers): PageState {
    s.(submitting := true, sent := s.sent + [payload])
  }

  /** The page's reaction to one event. Once navigated away the page is gone and nothing changes. */
  function Apply(s: PageState, e: Event, policy: Policy): (r: PageState)
    ensures s.route.Some? ==> r == s
    ensures s.sent <= r.sent && |r.sent| <= |s.sent| + 1
    ensures s.settled <= r.settled <= s.settled + 1
    ensures !e.Loaded? ==> r.time <= s.time
  {
    if s.route.Some? then s
    else match e
      case Loaded(session) =>
        if s.session.None? && s.error == "" then
          s.(session := Some(session), time := session.timeRemaining, armed := s.answers)
        else s
      case LoadFailed =>
        if s.session.None? && s.error == "" then s.(error := StartError) else s
      case Choose(option) =>
        var qs := Questions(s);
        if Interactive(s) && 0 <= s.index < |qs| && 0 <= option < 4 then
          s.(answers := s.answers[qs[s.index].id := option])
        else s
      case ClickSubmit(confirmed) =>
        if Interactive(s) && !s.submitting && confirmed then Submit(s, s.answers) else s
      case Tick =>
        if s.time > 0 then
          var newTime := s.time - 1;
          var fired :=
            if newTime <= 0 && s.session.Some? && (policy.AsWritten? || !s.submitting) then
              Submit(s, if policy.AsWritten? then s.armed else s.answers)
            else s;
          fired.(time := newTime, armed := s.answers)
        else s
      case SubmitFailed =>
        if s.settled < |s.sent| then
          s.(error := SubmitError, submitting := false, settled := s.settled + 1)
        else s
      case SubmitSucceeded(attemptId) =>
        if s.settled < |s.sent| then
          s.(route := Some("/result/" + attemptId), settled := s.settled + 1)
        else s
      case Previous =>
        if Interactive(s) then s.(index := if s.index - 1 > 0 then s.index - 1 else 0) else s
      case Next =>
        if Interactive(s) && s.index < |Questions(s)| - 1 then s.(index := s.index + 1) else s
      case Jump(target) =>
        if Interactive(s) && 0 <= target < |Questions(s)| then s.(index := target) else s
  }

  /** The state after a sequence of events. */
  function Run(s: PageState, events: seq<Event>, policy: Policy): PageState
    decreases |events|
  {
    if events == [] then s else Run(Apply(s, events[0], policy), events[1..], policy)
  }

  function Ticks(k: nat): seq<Event> {
    seq(k, _ => Tick)
  }

  function QuestionIds(qs: seq<Question>): set<string> {
    set i | 0 <= i < |qs| :: qs[i].id
  }

  /**
   * What every reachable state satisfies: answered requests never outnumber
   * issued ones, the current index addresses a question (or is 0), and every
   * answer belongs to a question of the session.
   */
  predicate Inv(s: PageState) {
    && s.settled <= |s.sent|
    && 0 <= s.index
    && (s.index == 0 || s.index < |Questions(s)|)
    && s.answers.Keys <= QuestionIds(Questions(s))
  }

  // ---------------------------------------------------------------------
  // Properties of the page as written

  lemma InitialInv()
    ensures Inv(Initial()) && InFlight(Initial()) == 0 && AnsweredCount(Initial()) == 0
  {
  }

  /** Every event keeps the invariant, adds at most one request and never drops one. */
  lemma ApplyPreserves(s: PageState, e: Event, policy: Policy)
    requires Inv(s)
    ensures Inv(Apply(s, e, policy))
    ensures s.sent <= Apply(s, e, policy).sent && |Apply(s, e, policy).sent| <= |s.sent| + 1
    ensures s.settled <= Apply(s, e, policy).settled
  {
  }

  lemma {:induction false} RunPreserves(s: PageState, events: seq<Event>, policy: Policy)
    requires Inv(s)
    ensures Inv(Run(s, events, policy))
    ensures s.sent <= Run(s, events, policy).sent
    decreases |events|
  {
    if events != [] {
      ApplyPreserves(s, events[0], policy);
      RunPreserves(Apply(s, events[0], policy), events[1..], policy);
    }
  }

  lemma {:induction false} QuestionIdsBound(qs: seq<Question>)
    ensures |QuestionIds(qs)| <= |qs|
  {
    if qs != [] {
      var last := qs[|qs| - 1];
      var front := qs[..|qs| - 1];
      QuestionIdsBound(front);
      assert QuestionIds(qs) == QuestionIds(front) + {last.id} by {
        forall x | x in QuestionIds(qs) ensures x in QuestionIds(front) + {last.id} {
          var i :| 0 <= i < |qs| && qs[i].id == x;
          if i < |qs| - 1 {
            assert front[i].id == x;
          }
        }
        forall x | x in QuestionIds(front) ensures x in QuestionIds(qs) {
          var i :| 0 <= i < |front| && front[i].id == x;
          assert qs[i].id == x;
        }
      }
    }
  }

  /** The "answered" counter never exceeds the number of questions. */
  lemma AnsweredAtMostTotal(s: PageState)
    requires Inv(s)
    ensures AnsweredCount(s) <= TotalQuestions(s)
  {
    QuestionIdsBound(Questions(s));
    assert |s.answers.Keys| <= |QuestionIds(Questions(s))| by {
      SubsetCard(s.answers.Keys, QuestionIds(Questions(s)));
    }
  }

  lemma SubsetCard(a: set<string>, b: set<string>)
    requires a <= b
    ensures |a| <= |b|
  {
    assert b == a + (b - a);
  }

  /** Picking an option records it for the current question and leaves every other answer alone. */
  lemma ChooseRecordsAnswer(s: PageState, option: int, policy: Policy)
    requires Interactive(s) && 0 <= s.index < TotalQuestions(s) && 0 <= option < 4
    ensures var t := Apply(s, Choose(option), policy);
      var id := Questions(s)[s.index].id;
      && t.answers[id] == option
      && (forall q :: q != id ==> (q in t.answers <==> q in s.answers))
      && (forall q :: q != id && q in s.answers ==> t.answers[q] == s.answers[q])
      && AnsweredCount(t) == AnsweredCount(s) + (if id in s.answers then 0 else 1)
  {
    var id := Questions(s)[s.index].id;
    assert Apply(s, Choose(option), policy).answers == s.answers[id := option];
    UpdateKeyCount(s.answers, id, option);
  }

  /** Setting a key adds one key exactly when it was absent. */
  lemma UpdateKeyCount(m: Answers, k: string, v: int)
    ensures |m[k := v].Keys| == |m.Keys| + (if k in m then 0 else 1)
  {
    if k in m {
      assert m[k := v].Keys == m.Keys;
    } else {
      assert m[k := v].Keys == m.Keys + {k};
    }
  }

  /** A manual submit the student does not confirm changes nothing. */
  lemma UnconfirmedSubmitIgnored(s: PageState, policy: Policy)
    ensures Apply(s, ClickSubmit(false), policy) == s
  {
  }

  /** Once an error is shown it stays, and the question view with its buttons never returns. */
  lemma ErrorIsFinal(s: PageState, e: Event, policy: Policy)
    requires s.error != ""
    ensures Apply(s, e, policy).error != "" && !Interactive(Apply(s, e, policy))
  {
  }

  /** Only loading the session sets the clock; every other event leaves it or counts it down by one. */
  lemma ClockOnlyCountsDown(s: PageState, e: Event, policy: Policy)
    requires !e.Loaded?
    ensures var t := Apply(s, e, policy).time;
      t == s.time || (s.time > 0 && t == s.time - 1)
  {
  }

  /** With no time left, or after navigating away, further ticks change nothing. */
  lemma {:induction false} StoppedClock(s: PageState, k: nat, policy: Policy)
    requires s.time <= 0 || s.route.Some?
    ensures Run(s, Ticks(k), policy) == s
  {
    if k > 0 {
      assert Ticks(k)[1..] == Ticks(k - 1);
      StoppedClock(s, k - 1, policy);
    }
  }

  /**
   * k ticks from n seconds leave max(n - k, 0) seconds, and they issue
   * exactly one submission when they reach zero (under the guarded policy:
   * unless one is already in flight), none otherwise.
   */
  lemma {:induction false} Countdown(s: PageState, k: nat, policy: Policy)
    requires s.route.None? && s.session.Some? && s.time >= 0
    ensures var t := Run(s, Ticks(k), policy);
      && t.time == (if s.time >= k then s.time - k else 0)
      && |t.sent| == |s.sent| + (if 0 < s.time <= k && (policy.AsWritten? || !s.submitting) then 1 else 0)
    decreases k
  {
    if k > 0 && s.time > 0 {
      assert Ticks(k)[1..] == Ticks(k - 1);
      var next := Apply(s, Tick, policy);
      if s.time == 1 {
        StoppedClock(next, k - 1, policy);
      } else {
        Countdown(next, k - 1, policy);
      }
    } else if k > 0 {
      StoppedClock(s, k, policy);
    }
  }

  // ---------------------------------------------------------------------
  // The two defects of the page as written and the guarded page

  /** A session with one second left and a single question. */
  function LastSecondSession(): Session {
    Session("s1", "1", "me",
      [Question("q1", "1", "What is 2 + 2?", Four("3", "4", "5", "6"), 1, "")],
      map[], 1, "")
  }

  /**
   * As written, the countdown keeps running while a manual submission is in
   * flight and submits again on expiry: two requests are outstanding at once.
   */
  lemma DoubleSubmission()
    ensures var t := Run(Initial(), [Loaded(LastSecondSession()), ClickSubmit(true), Tick], AsWritten);
      InFlight(t) == 2 && t.sent == [map[], map[]]
  {
    var s1 := Apply(Initial(), Loaded(LastSecondSession()), AsWritten);
    var s2 := Apply(s1, ClickSubmit(true), AsWritten);
    var s3 := Apply(s2, Tick, AsWritten);
    assert Run(s3, [], AsWritten) == s3;
    assert [Loaded(LastSecondSession()), ClickSubmit(true), Tick][1..] == [ClickSubmit(true), Tick];
    assert [ClickSubmit(true), Tick][1..] == [Tick];
  }

  /**
   * As written, the expiry submits the answers captured when the countdown
   * was last armed: an option picked during the final second is not sent.
   */
  lemma StaleExpiryPayload()
    ensures var t := Run(Initial(), [Loaded(LastSecondSession()), Choose(1), Tick], AsWritten);
      t.sent == [map[]] && t.answers == map["q1" := 1]
  {
    var s1 := Apply(Initial(), Loaded(LastSecondSession()), AsWritten);
    var s2 := Apply(s1, Choose(1), AsWritten);
    var s3 := Apply(s2, Tick, AsWritten);
    assert Run(s3, [], AsWritten) == s3;
    assert [Loaded(LastSecondSession()), Choose(1), Tick][1..] == [Choose(1), Tick];
    assert [Choose(1), Tick][1..] == [Tick];
  }

  /** The guarded page submits, on expiry, exactly the answers on screen. */
  lemma GuardedExpirySendsCurrentAnswers(s: PageState)
    requires s.route.None? && s.session.Some? && s.time == 1 && !s.submitting
    ensures Apply(s, Tick, Guarded).sent == s.sent + [s.answers]
  {
  }

  /** Invariant of the guarded page: at most one request in flight, and one exactly while submitting. */
  predicate GuardedInv(s: PageState) {
    && Inv(s)
    && InFlight(s) <= 1
    && (s.route.None? ==> (InFlight(s) == 1 <==> s.submitting))
  }

  lemma GuardedStep(s: PageState, e: Event)
    requires GuardedInv(s)
    ensures GuardedInv(Apply(s, e, Guarded))
  {
    ApplyPreserves(s, e, Guarded);
  }

  /** On the guarded page no sequence of events ever has two submissions in flight. */
  lemma {:induction false} GuardedAtMostOneInFlight(s: PageState, events: seq<Event>)
    requires GuardedInv(s)
    ensures GuardedInv(Run(s, events, Guarded)) && InFlight(Run(s, events, Guarded)) <= 1
    decreases |events|
  {
    if events != [] {
      GuardedStep(s, events[0]);
      GuardedAtMostOneInFlight(Apply(s, events[0], Guarded), events[1..]);
    }
  }

  lemma GuardedFromStart(events: seq<Event>)
    ensures InFlight(Run(Initial(), events, Guarded)) <= 1
  {
    GuardedAtMostOneInFlight(Initial(), events);
  }

  // ---------------------------------------------------------------------
  // The page component

  class ExamPage {
    const policy: Policy
    var session: Option<Session>
    var index: int
    var answers: Answers
    var time: int
    var submitting: bool
    var error: string
    var armed: Answers
    var sent: seq<Answers>
    var settled: nat
    var route: Option<string>

    function State(): PageState
      reads this
    {
      PageState(session, index, answers, time, submitting, error, armed, sent, settled, route)
    }

    predicate Valid()
      reads this
    {
      Inv(State())
    }

    constructor(policy: Policy)
      ensures State() == Initial() && this.policy == policy && Valid()
    {
      this.policy := policy;
      session := None;
      index := 0;
      answers := map[];
      time := 0;
      submitting := false;
      error := "";
      armed := map[];
      sent := [];
      settled := 0;
      route := None;
    }

    /** `startExam` succeeded: show the session and start its countdown. */
    method StartSucceeded(loaded: Session)
      requires Valid()
      modifies this
      ensures Valid() && State() == Apply(old(State()), Loaded(loaded), policy)
    {
      ApplyPreserves(State(), Loaded(loaded), policy);
      if route.None? && session.None? && error == "" {
        session := Some(loaded);
        time := loaded.timeRemaining;
        armed := answers;
      }
    }

    /** `startExam` threw. */
    method StartFailed()
      requires Valid()
      modifies this
      ensures Valid() && State() == Apply(old(State()), LoadFailed, policy)
    {
      if route.None? && session.None? && error == "" {
        error := StartError;
      }
    }

    /** `handleAnswerChange` for the current question. */
    method ChooseOption(option: int)
      requires Valid()
      modifies this
      ensures Valid() && State() == Apply(old(State()), Choose(option), policy)
    {
      ApplyPreserves(State(), Choose(option), policy);
      if route.None? && session.Some? && error == "" && 0 <= index < |session.value.questions| && 0 <= option < 4 {
        answers := answers[session.value.questions[index].id := option];
      }
    }

    /** A submit button: `handleSubmitExam(false)`, with the confirmation dialog's answer. */
    method SubmitClicked(confirmed: bool) returns (issued: bool)
      requires Valid()
      modifies this
      ensures Valid() && State() == Apply(old(State()), ClickSubmit(confirmed), policy)
      ensures issued <==> |sent| == |old(sent)| + 1
    {
      issued := false;
      if route.None? && session.Some? && error == "" && !submitting && confirmed {
        submitting := true;
        sent := sent + [answers];
        issued := true;
      }
    }

    /** The countdown callback: one second less, and the auto-submit when it reaches zero. */
    method Tick() returns (issued: bool)
      requires Valid()
      modifies this
      ensures Valid() && State() == Apply(old(State()), Event.Tick, policy)
      ensures issued <==> |sent| == |old(sent)| + 1
    {
      ApplyPreserves(State(), Event.Tick, policy);
      issued := false;
      if route.None? && time > 0 {
        var newTime := time - 1;
        if newTime <= 0 && session.Some? && (policy.AsWritten? || !submitting) {
          submitting := true;
          sent := sent + [if policy.AsWritten? then armed else answers];
          issued := true;
        }
        time := newTime;
        armed := answers;
      }
    }

    /** The oldest outstanding submission threw. */
    method SubmitFailedNow()
      requires Valid()
      modifies this
      ensures Valid() && State() == Apply(old(State()), SubmitFailed, policy)
    {
      if route.None? && settled < |sent| {
        error := SubmitError;
        submitting := false;
        settled := settled + 1;
      }
    }

    /** The oldest outstanding submission returned an attempt: go to its result page. */
    method SubmitSucceededNow(attemptId: string)
      requires Valid()
      modifies this
      ensures Valid() && State() == Apply(old(State()), SubmitSucceeded(attemptId), policy)
    {
      if route.None? && settled < |sent| {
        route := Some("/result/" + attemptId);
        settled := settled + 1;
      }
    }

    method PreviousClicked()
      requires Valid()
      modifies this
      ensures Valid() && State() == Apply(old(State()), Previous, policy)
    {
      if route.None? && session.Some? && error == "" {
        index := if index - 1 > 0 then index - 1 else 0;
      }
    }

    method NextClicked()
      requires Valid()
      modifies this
      ensures Valid() && State() == Apply(old(State()), Next, policy)
    {
      if route.None? && session.Some? && error == "" && index < |session.value.questions| - 1 {
        index := index + 1;
      }
    }

    method JumpClicked(target: int)
      requires Valid()
      modifies this
      ensures Valid() && State() == Apply(old(State()), Jump(target), policy)
    {
      if route.None? && session.Some? && error == "" && 0 <= target < |session.value.questions| {
        index := target;
      }
    }
  }
}

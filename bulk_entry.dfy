/**
 * Entering several questions at once on the admin questions tab: the
 * forms are trimmed and incomplete ones dropped, the survivors are created
 * one call after another until an authentication failure stops the run,
 * and the "Add Question" button enforces the subject's question limit.
 *
 * The outcome of each create call is an input: `outcomes[i]` is how the
 * i-th call ends.
 */
module BulkEntry {
  import opened Common
  import opened ExamTypes

  /** One bulk form as the dialog holds it; the answer is the radio value, a string. */
  datatype BulkForm = BulkForm(question: string, options: Four<string>, correctAnswer: string)

  /** The payload sent for one form. */
  datatype BulkPayload = BulkPayload(subjectId: string, question: string, options: Four<string>, correctAnswer: Number)

  function TrimOptions(o: Four<string>): Four<string> {
    Four(Trim(o.a), Trim(o.b), Trim(o.c), Trim(o.d))
  }

  /** The payload a form becomes: text and options trimmed, the answer parsed as an integer. */
  function ToPayload(subjectId: string, f: BulkForm): BulkPayload {
    BulkPayload(subjectId, Trim(f.question), TrimOptions(f.options), ParseInt(f.correctAnswer))
  }

  /** A payload is kept when its text and all four options are non-empty. */
  predicate Complete(p: BulkPayload) {
    |p.question| > 0 && |p.options.a| > 0 && |p.options.b| > 0 && |p.options.c| > 0 && |p.options.d| > 0
  }

  predicate Blank(s: string) {
    forall i :: 0 <= i < |s| ==> IsJsSpace(s[i])
  }

  /** Trimming changes nothing: no whitespace at either end. */
  predicate Trimmed(p: BulkPayload) {
    && Trim(p.question) == p.question
    && Trim(p.options.a) == p.options.a && Trim(p.options.b) == p.options.b
    && Trim(p.options.c) == p.options.c && Trim(p.options.d) == p.options.d
  }

  /** The payloads of a bulk submission: every form converted, incomplete ones dropped. */
  function BuildPayloads(subjectId: string, forms: seq<BulkForm>): (r: seq<BulkPayload>)
    ensures |r| <= |forms|
    ensures forall p :: p in r ==> Complete(p) && p.subjectId == subjectId
  {
    Filter(Map(forms, (f: BulkForm) => ToPayload(subjectId, f)), Complete)
  }

  /** A trimmed string is non-empty exactly when the string is not all whitespace. */
  lemma TrimmedNonEmpty(s: string)
    ensures |Trim(s)| > 0 <==> !Blank(s)
  {
  }

  /**
   * A form yields a payload exactly when neither its text nor any of its
   * options is all whitespace.
   */
  lemma KeptIffNotBlank(subjectId: string, f: BulkForm)
    ensures ToPayload(subjectId, f) in BuildPayloads(subjectId, [f]) <==>
      (!Blank(f.question) && !Blank(f.options.a) && !Blank(f.options.b)
        && !Blank(f.options.c) && !Blank(f.options.d))
  {
    var p := ToPayload(subjectId, f);
    assert Map([f], (g: BulkForm) => ToPayload(subjectId, g)) == [p];
    TrimmedNonEmpty(f.question);
    TrimmedNonEmpty(f.options.a);
    TrimmedNonEmpty(f.options.b);
    TrimmedNonEmpty(f.options.c);
    TrimmedNonEmpty(f.options.d);
  }

  /** Every payload is trimmed: trimming it again would change nothing. */
  lemma PayloadsTrimmed(subjectId: string, forms: seq<BulkForm>)
    ensures forall p :: p in BuildPayloads(subjectId, forms) ==> Trimmed(p)
  {
    forall p | p in BuildPayloads(subjectId, forms)
      ensures Trimmed(p)
    {
      var i :| 0 <= i < |forms| && p == ToPayload(subjectId, forms[i]);
      var f := forms[i];
      TrimIdempotent(f.question);
      TrimIdempotent(f.options.a);
      TrimIdempotent(f.options.b);
      TrimIdempotent(f.options.c);
      TrimIdempotent(f.options.d);
    }
  }

  /**
   * Forms are processed in order: the payloads of two runs of forms are the
   * payloads of the first followed by those of the second.
   */
  lemma BuildPayloadsAppend(subjectId: string, a: seq<BulkForm>, b: seq<BulkForm>)
    ensures BuildPayloads(subjectId, a + b) == BuildPayloads(subjectId, a) + BuildPayloads(subjectId, b)
  {
    var f := (g: BulkForm) => ToPayload(subjectId, g);
    assert Map(a + b, f) == Map(a, f) + Map(b, f);
    FilterAppend(Map(a, f), Map(b, f), Complete);
  }

  /** The blank forms the dialog opens with never yield a payload. */
  lemma BlankFormsYieldNothing(subjectId: string, n: nat)
    ensures BuildPayloads(subjectId, BlankForms(n)) == []
  {
    var blank := BlankForms(n);
    var m := Map(blank, (g: BulkForm) => ToPayload(subjectId, g));
    var empty := BulkForm("", Four("", "", "", ""), "0");
    assert !Complete(ToPayload(subjectId, empty)) by {
      assert |Trim("")| <= 0;
    }
    forall i | 0 <= i < |m|
      ensures !Complete(m[i])
    {
      assert m[i] == ToPayload(subjectId, empty);
    }
    FilterKeepsNone(m, Complete);
  }

  // ---------------------------------------------------------------------
  // The create loop

  /** How one create call ends: the question was created, or the call threw with a message. */
  datatype Outcome = Created | Failed(message: string)

  /** `/validate credentials|401/i`: matched without regard to ASCII letter case. */
  predicate IsAuthError(message: string) {
    Contains(Lower(message), "validate credentials") || Contains(Lower(message), "401")
  }

  /** The outcomes that end the loop. */
  predicate StopsLoop(o: Outcome) {
    o.Failed? && IsAuthError(o.message)
  }

  /**
   * How many calls the loop makes: all of them, or up to and including the
   * first one that fails with an authentication error.
   */
  function Attempted(outcomes: seq<Outcome>): (n: nat)
    ensures n <= |outcomes|
    ensures forall j :: 0 <= j < n - 1 ==> !StopsLoop(outcomes[j])
    ensures n < |outcomes| ==> 0 < n && StopsLoop(outcomes[n - 1])
    ensures (n > 0 && StopsLoop(outcomes[n - 1])) <==> exists i :: 0 <= i < |outcomes| && StopsLoop(outcomes[i])
  {
    match FirstIndex(outcomes, StopsLoop)
    case None => |outcomes|
    case Some(k) => k + 1
  }

  /** The number of calls that succeeded. */
  function CountOk(outcomes: seq<Outcome>): (n: nat)
    ensures n <= |outcomes|
  {
    if outcomes == [] then 0
    else CountOk(outcomes[..|outcomes| - 1]) + (if outcomes[|outcomes| - 1].Created? then 1 else 0)
  }

  /**
   * The loop of the bulk submission: one create call per payload, in order,
   * counting successes and failures and leaving the loop at the first
   * authentication failure.
   */
  method CreateAll(payloads: seq<BulkPayload>, outcomes: seq<Outcome>)
    returns (successes: nat, failures: nat, sent: seq<BulkPayload>, stopped: bool)
    requires |outcomes| == |payloads|
    ensures sent == payloads[..Attempted(outcomes)]
    ensures successes == CountOk(outcomes[..Attempted(outcomes)])
    ensures successes + failures == |sent| <= |payloads|
    ensures stopped <==> exists i :: 0 <= i < |outcomes| && StopsLoop(outcomes[i])
    ensures stopped <==> Attempted(outcomes) > 0 && StopsLoop(outcomes[Attempted(outcomes) - 1])
    ensures !stopped ==> |sent| == |payloads|
  {
    successes, failures, sent, stopped := 0, 0, [], false;
    var i := 0;
    while i < |payloads|
      invariant 0 <= i <= |payloads|
      invariant sent == payloads[..i]
      invariant successes == CountOk(outcomes[..i]) && successes + failures == i
      invariant forall j :: 0 <= j < i ==> !StopsLoop(outcomes[j])
      invariant !stopped
    {
      assert outcomes[..i + 1][..i] == outcomes[..i];
      sent := sent + [payloads[i]];
      if outcomes[i].Created? {
        successes := successes + 1;
      } else {
        failures := failures + 1;
        if IsAuthError(outcomes[i].message) {
          stopped := true;
          i := i + 1;
          break;
        }
      }
      i := i + 1;
    }
    assert sent == payloads[..i];
  }

  // ---------------------------------------------------------------------
  // Messages

  datatype Toast = Success(text: string) | Error(text: string)

  const FillOne := "Please fill at least one complete question"
  const SessionExpired := "Session expired. Please log in again."

  function Plural(n: nat): string {
    if n > 1 then "s" else ""
  }

  function CreatedMessage(n: nat): string {
    "Created " + IntToString(n) + " question" + Plural(n)
  }

  function FailedMessage(n: nat): string {
    IntToString(n) + " question" + Plural(n) + " failed to create"
  }

  /** The toasts a run of the loop shows: the session toast if it stopped, then the two counts. */
  function Report(outcomes: seq<Outcome>): seq<Toast> {
    var n := Attempted(outcomes);
    var ok := CountOk(outcomes[..n]);
    (if n > 0 && StopsLoop(outcomes[n - 1]) then [Error(SessionExpired)] else [])
    + (if ok > 0 then [Success(CreatedMessage(ok))] else [])
    + (if n - ok > 0 then [Error(FailedMessage(n - ok))] else [])
  }

  /**
   * The toast of the list reload that follows a submission: none without a
   * subject or when the subject has no questions, the count when it has
   * some, and the error message when the load fails. `reload` is how the
   * load ends: the number of questions found, or the error's message.
   */
  function ReloadToasts(subjectId: string, reload: Result<nat>): (r: seq<Toast>)
    ensures |r| <= 1
    ensures r != [] <==> subjectId != "" && (reload.Err? || reload.value > 0)
    ensures r != [] && reload.Ok? ==> r[0] == Success("Loaded " + IntToString(reload.value) + " questions")
    ensures r != [] && reload.Err? ==> r[0] == Error(reload.message)
  {
    if subjectId == "" then []
    else match reload
      case Err(m) => [Error(m)]
      case Ok(n) => if n == 0 then [] else [Success("Loaded " + IntToString(n) + " questions")]
  }

  /**
   * The dialog's submit when it holds bulk forms: nothing at all without a
   * selected subject (the dialog stays open); otherwise build the payloads,
   * refuse when none is complete, or run the loop and report. In both of
   * those cases the dialog then closes and the list is reloaded, which may
   * add a toast of its own. Without bulk forms the handler takes the
   * single-question path instead, so `forms` is never empty here.
   */
  method SubmitBulk(subjectId: string, forms: seq<BulkForm>, outcomes: seq<Outcome>, reload: Result<nat>)
    returns (sent: seq<BulkPayload>, toasts: seq<Toast>, dialogOpen: bool)
    requires forms != []
    requires |outcomes| == |BuildPayloads(subjectId, forms)|
    ensures subjectId == "" ==> sent == [] && toasts == [] && dialogOpen
    ensures subjectId != "" ==> !dialogOpen
    ensures subjectId != "" && BuildPayloads(subjectId, forms) == [] ==>
      sent == [] && toasts == [Error(FillOne)] + ReloadToasts(subjectId, reload)
    ensures subjectId != "" && BuildPayloads(subjectId, forms) != [] ==>
      && sent == BuildPayloads(subjectId, forms)[..Attempted(outcomes)]
      && toasts == Report(outcomes) + ReloadToasts(subjectId, reload)
  {
    if subjectId == "" {
      return [], [], true;
    }
    var payloads := BuildPayloads(subjectId, forms);
    if |payloads| == 0 {
      sent, toasts := [], [Error(FillOne)];
    } else {
      var successes, failures, stopped;
      successes, failures, sent, stopped := CreateAll(payloads, outcomes);
      ghost var n := Attempted(outcomes);
      assert successes == CountOk(outcomes[..n]) && failures == n - successes;
      toasts := (if stopped then [Error(SessionExpired)] else [])
        + (if successes > 0 then [Success(CreatedMessage(successes))] else [])
        + (if failures > 0 then [Error(FailedMessage(failures))] else []);
    }
    dialogOpen := false;
    toasts := toasts + ReloadToasts(subjectId, reload);
  }

  /**
   * A run in which every call succeeds creates every payload, and the loop
   * reports it with a single success toast (the reload's toast, if any,
   * follows it).
   */
  lemma {:induction false} AllCreatedReport(outcomes: seq<Outcome>)
    requires outcomes != [] && forall j :: 0 <= j < |outcomes| ==> outcomes[j] == Created
    ensures Attempted(outcomes) == |outcomes|
    ensures Report(outcomes) == [Success(CreatedMessage(|outcomes|))]
  {
    AllCreatedCount(outcomes);
    assert outcomes[..|outcomes|] == outcomes;
  }

  lemma {:induction false} AllCreatedCount(outcomes: seq<Outcome>)
    requires forall j :: 0 <= j < |outcomes| ==> outcomes[j] == Created
    ensures CountOk(outcomes) == |outcomes|
  {
    if outcomes != [] {
      AllCreatedCount(outcomes[..|outcomes| - 1]);
    }
  }

  /**
   * A run that stops reports the session toast first, and every call that
   * was made before the stopping one either succeeded or failed for another
   * reason.
   */
  lemma StoppedRunReport(outcomes: seq<Outcome>, k: nat)
    requires k < |outcomes| && StopsLoop(outcomes[k])
    requires forall j :: 0 <= j < k ==> !StopsLoop(outcomes[j])
    ensures Attempted(outcomes) == k + 1
    ensures Report(outcomes)[0] == Error(SessionExpired)
  {
  }

  // ---------------------------------------------------------------------
  // The question limit

  /**
   * A subject as the tab lists it; a backend record may lack its question
   * limit (`Absent`) or carry it as null (`Null`).
   */
  datatype ListedSubject = ListedSubject(id: string, totalQuestions: Field<int>)

  const LimitReachedMessage :=
    "Maximum number of questions for this subject has been reached. Edit the subject to increase the limit."

  function Selected(subjects: seq<ListedSubject>, selectedId: string): Option<ListedSubject> {
    Find(subjects, (s: ListedSubject) => s.id == selectedId)
  }

  /**
   * The "Add Question" button is disabled without a selection or when the
   * limit is reached; the guard tests the limit against undefined only, so a
   * null limit counts as a limit of 0.
   */
  function AddDisabled(selectedId: string, subjects: seq<ListedSubject>, count: nat): bool {
    var found := Selected(subjects, selectedId);
    selectedId == "" || (found.Some? && !found.value.totalQuestions.Absent? && count >= found.value.totalQuestions.OrElse(0))
  }

  /** What a click on "Add Question" does. */
  datatype AddClick = Ignored | LimitReached | OpenForms(forms: seq<BulkForm>)

  function BlankForms(n: nat): (r: seq<BulkForm>)
    ensures |r| == n
  {
    seq(n, _ => BulkForm("", Four("", "", "", ""), "0"))
  }

  /**
   * The click handler: nothing without a selected subject, a toast at the
   * limit, otherwise `max(total - count, 1)` blank forms when creating with
   * a known limit, and no forms when editing or without a limit. The handler
   * turns a null limit into undefined first, so null means "no limit" here.
   */
  function ClickAdd(selectedId: string, subjects: seq<ListedSubject>, count: nat, editing: bool): AddClick {
    match Selected(subjects, selectedId)
    case None => Ignored
    case Some(s) =>
      if s.totalQuestions.Present? && count >= s.totalQuestions.value then LimitReached
      else if !editing && s.totalQuestions.Present? then
        OpenForms(BlankForms(if s.totalQuestions.value - count > 1 then s.totalQuestions.value - count else 1))
      else OpenForms([])
  }

  /**
   * With a subject selected whose limit is not null, the button is disabled
   * exactly when a click would hit the limit.
   */
  lemma GuardsAgree(selectedId: string, subjects: seq<ListedSubject>, count: nat, editing: bool)
    requires selectedId != ""
    requires Selected(subjects, selectedId).Some? ==> !Selected(subjects, selectedId).value.totalQuestions.Null?
    ensures AddDisabled(selectedId, subjects, count) <==> ClickAdd(selectedId, subjects, count, editing) == LimitReached
  {
  }

  /**
   * A null limit splits the two guards: the button is disabled, yet the
   * click handler would open the dialog with no forms.
   */
  lemma NullLimitGuardsDisagree(selectedId: string, subjects: seq<ListedSubject>, count: nat, editing: bool)
    requires selectedId != ""
    requires Selected(subjects, selectedId).Some? && Selected(subjects, selectedId).value.totalQuestions.Null?
    ensures AddDisabled(selectedId, subjects, count)
    ensures ClickAdd(selectedId, subjects, count, editing) == OpenForms([])
  {
  }

  /**
   * The forms opened for creating fill the subject exactly up to its limit:
   * there is at least one, and count + forms == limit, so the floor of 1 in
   * `max(total - count, 1)` never applies.
   */
  lemma OpenedFormsFillLimit(selectedId: string, subjects: seq<ListedSubject>, count: nat)
    requires ClickAdd(selectedId, subjects, count, false).OpenForms?
    requires Selected(subjects, selectedId).value.totalQuestions.Present?
    ensures var n := |ClickAdd(selectedId, subjects, count, false).forms|;
      n >= 1 && count + n == Selected(subjects, selectedId).value.totalQuestions.value
  {
  }

  /** Editing, or a subject without a limit, opens no blank forms. */
  lemma NoFormsWithoutLimit(selectedId: string, subjects: seq<ListedSubject>, count: nat, editing: bool)
    requires Selected(subjects, selectedId).Some?
    requires editing || !Selected(subjects, selectedId).value.totalQuestions.Present?
    ensures ClickAdd(selectedId, subjects, count, editing) == OpenForms([])
      || ClickAdd(selectedId, subjects, count, editing) == LimitReached
  {
  }
}

/** The candidate's question page (frontend/src/pages/candidate/TestInterface.jsx) as an
    event-driven controller. React's state updates are applied at once and every event
    (a fetch that settles, a click, a timer tick, a hidden tab) runs to completion before
    the next, so the `submitting` flag is seen updated by the very next event. Requests
    to the server are appended to a log; their answers come back as separate events.
    The tab-scoped session storage it reads is a small map written by the landing page
    and cleared by the completion page. */
module TestInterface {
  import opened Wrappers
  import opened Numeric
  import opened TimerHooks
  import opened SessionSchemas

  // ---------------------------------------------------------------- session storage

  /** A stored item: the session id as text, or the test configuration object. */
  datatype Stored = Text(text: string) | Config(totalQuestions: int, timePerQuestion: int)

  type Store = map<string, Stored>

  const SESSION_KEY := "testSessionId"
  const CONFIG_KEY := "testConfig"
  const DEFAULT_TIME_PER_QUESTION := 10

  /** The landing page after a successful start: the session id and the configuration. */
  function StoreStarted(store: Store, resp: StartTestResponse): Store {
    store[SESSION_KEY := Text(NatToString(resp.sessionId))]
         [CONFIG_KEY := Config(resp.totalQuestions, resp.timePerQuestion)]
  }

  /** The completion page's effect: both items removed. */
  function ClearStore(store: Store): (r: Store)
    ensures SESSION_KEY !in r && CONFIG_KEY !in r
    ensures forall k :: k in store && k != SESSION_KEY && k != CONFIG_KEY ==> k in r && r[k] == store[k]
    ensures forall k :: k in r ==> k in store
  {
    store - {SESSION_KEY, CONFIG_KEY}
  }

  /** `sessionStorage.getItem('testSessionId')`. */
  function ReadSessionId(store: Store): Option<string> {
    if SESSION_KEY in store && store[SESSION_KEY].Text? then Some(store[SESSION_KEY].text) else None
  }

  /** `testConfig.timePerQuestion || 10`: a missing configuration or a zero time falls
      back to ten seconds; so the result is never zero. */
  function ReadTimePerQuestion(store: Store): (seconds: int)
    ensures seconds != 0
  {
    if CONFIG_KEY in store && store[CONFIG_KEY].Config? && store[CONFIG_KEY].timePerQuestion != 0
    then store[CONFIG_KEY].timePerQuestion
    else DEFAULT_TIME_PER_QUESTION
  }

  /** What the landing page stores is what the question page reads back: the session
      id, present and in the backend's decimal form, and the link's time per question
      unless it is zero. */
  lemma StartedStoreReadsBack(store: Store, resp: StartTestResponse)
    ensures ReadSessionId(StoreStarted(store, resp)) == Some(NatToString(resp.sessionId))
    ensures Present(ReadSessionId(StoreStarted(store, resp)))
    ensures ReadTimePerQuestion(StoreStarted(store, resp))
      == (if resp.timePerQuestion != 0 then resp.timePerQuestion else DEFAULT_TIME_PER_QUESTION)
  {
    var s := StoreStarted(store, resp);
    assert SESSION_KEY != CONFIG_KEY;
    assert s[SESSION_KEY] == Text(NatToString(resp.sessionId));
  }

  /** After the completion page has cleared the store, the question page finds no
      session and falls back to the default time. */
  lemma ClearedStoreReadsNothing(store: Store)
    ensures ReadSessionId(ClearStore(store)) == None
    ensures !Present(ReadSessionId(ClearStore(store)))
    ensures ReadTimePerQuestion(ClearStore(store)) == DEFAULT_TIME_PER_QUESTION
  {
  }

  // ---------------------------------------------------------------- small rules

  /** `detail || fallback`: a missing or empty server detail is replaced. */
  function DetailOr(detail: Option<string>, fallback: string): (message: string)
    ensures Present(detail) ==> message == detail.value
    ensures !Present(detail) ==> message == fallback
  {
    if Present(detail) then detail.value else fallback
  }

  /** `time_remaining || timePerQuestion`: the seconds the countdown is armed with. */
  function ArmWith(timeRemaining: int, timePerQuestion: int): (seconds: int)
    ensures timeRemaining != 0 ==> seconds == timeRemaining
    ensures timeRemaining == 0 ==> seconds == timePerQuestion
  {
    if timeRemaining != 0 then timeRemaining else timePerQuestion
  }

  /** The two load failures that mean the test is over. */
  predicate EndsTest(detail: Option<string>) {
    detail == Some("No more questions") || detail == Some("Test already completed")
  }

  function LandingPath(linkId: string): string {
    "/test/" + linkId
  }

  function CompletePath(linkId: string): string {
    "/test/" + linkId + "/complete"
  }

  // ---------------------------------------------------------------- the page's views

  /** Which of the three screens is rendered: loading is checked before the error. */
  datatype Screen = LoadingScreen | ErrorScreen(message: string) | QuestionScreen

  function Render(loading: bool, error: string): (s: Screen)
    ensures s == LoadingScreen <==> loading
    ensures s.ErrorScreen? <==> !loading && error != ""
    ensures s.ErrorScreen? ==> s.message == error
  {
    if loading then LoadingScreen else if error != "" then ErrorScreen(error) else QuestionScreen
  }

  /** A progress dot: already answered, the current question, or still to come. */
  datatype Dot = Answered | Current | Upcoming

  /** `Array.from({ length: Math.min(total || 0, 20) })`: a negative length gives no dots. */
  function DotCount(question: Option<QuestionResponse>): nat {
    Max(0, Min(if question.Some? then question.value.totalQuestions else 0, 20))
  }

  function DotAt(i: int, number: int): Dot {
    if i < number - 1 then Answered else if i == number - 1 then Current else Upcoming
  }

  function ProgressDots(question: Option<QuestionResponse>): (dots: seq<Dot>)
    ensures |dots| == DotCount(question)
  {
    var number := if question.Some? then question.value.questionNumber else 0;
    seq(DotCount(question), i => DotAt(i, number))
  }

  function Run(d: Dot, n: nat): (r: seq<Dot>)
    ensures |r| == n && forall i :: 0 <= i < n ==> r[i] == d
  {
    seq(n, _ => d)
  }

  /** The dots are a run of answered ones, then at most one current one, then the rest:
      with question `number` of at most twenty shown, `number - 1` answered dots. */
  lemma DotsLayout(question: Option<QuestionResponse>)
    ensures var n := DotCount(question);
      var number := if question.Some? then question.value.questionNumber else 0;
      var answered := Max(0, Min(number - 1, n));
      var current := if 0 <= number - 1 < n then 1 else 0;
      ProgressDots(question) == Run(Answered, answered) + Run(Current, current) + Run(Upcoming, n - answered - current)
  {
    var n := DotCount(question);
    var number := if question.Some? then question.value.questionNumber else 0;
    var answered := Max(0, Min(number - 1, n));
    var current := if 0 <= number - 1 < n then 1 else 0;
    var layout := Run(Answered, answered) + Run(Current, current) + Run(Upcoming, n - answered - current);
    var dots := ProgressDots(question);
    assert |layout| == n;
    forall i | 0 <= i < n
      ensures dots[i] == layout[i]
    {
      assert dots[i] == DotAt(i, number);
      if i < answered {
        assert layout[i] == Answered;
      } else if i < answered + current {
        assert layout[i] == Current;
      } else {
        assert layout[i] == Upcoming;
      }
    }
  }

  /** `+N more` after the dots, shown only above twenty questions. */
  function MoreLabel(question: Option<QuestionResponse>): Option<int> {
    var total := if question.Some? then question.value.totalQuestions else 0;
    if total > 20 then Some(total - 20) else None
  }

  /** Dots and the `+N more` label together account for every question. */
  lemma ProgressCoversAll(q: QuestionResponse)
    requires q.totalQuestions >= 0
    ensures |ProgressDots(Some(q))| + MoreLabel(Some(q)).GetOr(0) == q.totalQuestions
    ensures MoreLabel(Some(q)).Some? <==> |ProgressDots(Some(q))| < q.totalQuestions
  {
  }

  /** The submit button's text; `undefined === undefined` also reads as the last question. */
  function ButtonLabel(question: Option<QuestionResponse>): (caption: string)
    ensures question.Some? ==>
      (caption == "Submit & Finish" <==> question.value.questionNumber == question.value.totalQuestions)
    ensures caption == "Submit & Finish" || caption == "Submit & Next"
  {
    if question.None? || question.value.questionNumber == question.value.totalQuestions
    then "Submit & Finish" else "Submit & Next"
  }

  /** Colour of the seconds shown, and of the bar, from calm to urgent. */
  datatype Tone = Calm | Warning | Danger

  function Urgency(t: Tone): nat {
    match t
    case Calm => 0
    case Warning => 1
    case Danger => 2
  }

  function TimerTone(timeLeft: int): Tone {
    if timeLeft <= 3 then Danger else if timeLeft <= 5 then Warning else Calm
  }

  function BarTone(percentage: real): Tone {
    if percentage <= 30.0 then Danger else if percentage <= 50.0 then Warning else Calm
  }

  /** As the countdown runs down the colours never calm again: danger from three
      seconds or 30 percent, warning from five seconds or 50 percent. */
  lemma TonesOnlyEscalate(t: int, u: int, p: real, q: real)
    requires u <= t && q <= p
    ensures Urgency(TimerTone(u)) >= Urgency(TimerTone(t))
    ensures Urgency(BarTone(q)) >= Urgency(BarTone(p))
    ensures TimerTone(t) == Danger <==> t <= 3
    ensures BarTone(p) == Danger <==> p <= 30.0
    ensures TimerTone(t) == Calm <==> t > 5
    ensures BarTone(p) == Calm <==> p > 50.0
  {
  }

  /** Option letters: A for the first option, B for the second, and so on. */
  function OptionLetter(index: nat): (letter: char)
    requires index < 26
    ensures 'A' <= letter <= 'Z' && letter as int - 'A' as int == index
  {
    (65 + index) as char
  }

  // ---------------------------------------------------------------- the auto-submit closure as written

  /** `handleTimeExpire` as written is memoised on `[submitting]` alone, so it keeps the
      `submitting` and the `selectedIndex` of the render in which `submitting` last
      changed, and the timer's ref holds that closure. */
  datatype StaleClosure = StaleClosure(submittingSeen: bool, selectedSeen: Option<int>)

  /** One render: `useCallback` hands back the old closure unless `submitting` differs. */
  function Rendered(c: StaleClosure, submitting: bool, selectedIndex: Option<int>): (r: StaleClosure)
    ensures submitting == c.submittingSeen ==> r == c
    ensures submitting != c.submittingSeen ==> r == StaleClosure(submitting, selectedIndex)
  {
    if submitting == c.submittingSeen then c else StaleClosure(submitting, selectedIndex)
  }

  /** What the stale closure sends when the countdown expires, if it submits at all. */
  function StaleExpirySends(c: StaleClosure): Option<Option<int>> {
    if c.submittingSeen then None else Some(c.selectedSeen)
  }

  /** What expiry is meant to send: the selection on screen, unless already submitting. */
  function ExpirySends(submitting: bool, selectedIndex: Option<int>): (r: Option<Option<int>>)
    ensures r.Some? <==> !submitting
    ensures r.Some? ==> r.value == selectedIndex
  {
    if submitting then None else Some(selectedIndex)
  }

  /** The page's first render makes the closure with nothing selected; the candidate
      then picks option C, which re-renders without a new closure; the countdown runs
      out and the answer sent is null, where the candidate's pick was meant. */
  lemma StaleClosureDropsSelection()
    ensures var first := Rendered(StaleClosure(false, None), false, None);
      var picked := Rendered(first, false, Some(2));
      StaleExpirySends(picked) == Some(None) && ExpirySends(false, Some(2)) == Some(Some(2))
  {
  }

  /** In general, as long as `submitting` stays false, every selection made since the
      closure was made is lost. */
  lemma {:induction false} StaleClosureIgnoresPicks(c: StaleClosure, picks: seq<Option<int>>)
    requires !c.submittingSeen
    ensures StaleExpirySends(RenderAll(c, picks)) == Some(c.selectedSeen)
    decreases |picks|
  {
    if picks != [] {
      StaleClosureIgnoresPicks(Rendered(c, false, picks[0]), picks[1..]);
    }
  }

  function RenderAll(c: StaleClosure, picks: seq<Option<int>>): StaleClosure
    decreases |picks|
  {
    if picks == [] then c else RenderAll(Rendered(c, false, picks[0]), picks[1..])
  }

  // ---------------------------------------------------------------- the load failure as written

  /** `loadQuestion`'s catch as written: the error is set but `loading` stays as it was. */
  function LoadFailedAsWritten(loading: bool, detail: Option<string>): (bool, string) {
    (loading, DetailOr(detail, "Failed to load question"))
  }

  /** The page starts loading, so a failed load as written never leaves the loading
      screen: the error panel it prepared is not shown. */
  lemma LoadErrorHiddenAsWritten(detail: Option<string>)
    ensures var (loading, error) := LoadFailedAsWritten(true, detail);
      error != "" && Render(loading, error) == LoadingScreen
  {
  }

  // ---------------------------------------------------------------- the controller

  /** The closure the countdown calls on expiry; in this model it reads the page's
      current state when it runs. */
  datatype ExpiryHandler = HandleTimeExpire

  /** A request sent to the server. */
  datatype Request =
    | GetQuestion(sessionId: string)
    | SubmitAnswer(sessionId: string, selectedIndex: Option<int>)
    | LogTabSwitch(sessionId: string)

  /** On the page, or navigated away from it. */
  datatype Status = Taking | Navigated(path: string)

  class Controller {
    const linkId: string
    const sessionId: Option<string>
    const timePerQuestion: int
    const timer: Countdown<ExpiryHandler>
    const guard: AntiCheat
    var question: Option<QuestionResponse>
    var selectedIndex: Option<int>
    var loading: bool
    var submitting: bool
    var error: string
    var status: Status
    var sent: seq<Request>

    /** On the page a load is in flight exactly while `loading`, a submission exactly
        while `submitting`, and never both; the countdown is halted while either is;
        the question screen always has a question; a selection names one of its
        options; every request carries the stored session id. */
    ghost predicate Valid()
      reads this, timer, guard
    {
      && guard.Valid() && guard.mounted && guard.sessionId == sessionId && guard.hasCallback
      && timer.initialSeconds == timePerQuestion && timePerQuestion != 0
      && timer.onExpire == Some(HandleTimeExpire)
      && (forall k :: 0 <= k < |sent| ==> Present(sessionId) && sent[k].sessionId == sessionId.value)
      && (status.Taking? ==> Present(sessionId) && OnPage(question, selectedIndex, loading, submitting, error, timer.isRunning))
    }

    /** The page-state part of the invariant, on values. */
    static predicate OnPage(question: Option<QuestionResponse>, selectedIndex: Option<int>, loading: bool,
                            submitting: bool, error: string, running: bool)
    {
      && !(loading && submitting)
      && ((loading || submitting) ==> !running)
      && ((submitting || running) ==> error == "" && question.Some?)
      && (loading ==> question.None? && error == "")
      && (!loading && error == "" ==> question.Some?)
      && (selectedIndex.Some? ==> question.Some? && 0 <= selectedIndex.value < |question.value.options|)
    }

    function Screen(): Screen
      reads this
    {
      Render(loading, error)
    }

    /** The question screen is up: the option buttons and the submit button exist. */
    predicate ShowsQuestion()
      reads this
    {
      status.Taking? && Screen() == QuestionScreen
    }

    /** Mounting the page: read the store, create the countdown with its expiry callback,
        install the anti-cheat listeners, then either redirect to the landing page (no
        session id) or request the current question. */
    constructor (linkId: string, store: Store)
      ensures Valid() && fresh(timer) && fresh(guard)
      ensures this.linkId == linkId
      ensures sessionId == ReadSessionId(store) && timePerQuestion == ReadTimePerQuestion(store)
      ensures timer.State() == Timer(timePerQuestion, false, Some(HandleTimeExpire))
      ensures question == None && selectedIndex == None && loading && !submitting && error == ""
      ensures !Present(sessionId) ==> status == Navigated(LandingPath(linkId)) && sent == []
      ensures Present(sessionId) ==> status == Taking && sent == [GetQuestion(sessionId.value)]
    {
      var sid := ReadSessionId(store);
      var seconds := ReadTimePerQuestion(store);
      var g := new AntiCheat();
      g.Install(sid, true);
      this.linkId := linkId;
      sessionId, timePerQuestion := sid, seconds;
      timer := new Countdown(seconds, Some(HandleTimeExpire));
      guard := g;
      question, selectedIndex, loading, submitting, error := None, None, true, false, "";
      if Present(sid) {
        status, sent := Taking, [GetQuestion(sid.value)];
      } else {
        status, sent := Navigated(LandingPath(linkId)), [];
      }
    }

    /** The question arrived: show it with nothing selected and arm the countdown. */
    method FetchSucceeded(resp: QuestionResponse)
      requires Valid() && status.Taking? && loading
      modifies this`question, this`selectedIndex, this`loading, timer`timeLeft, timer`isRunning
      ensures Valid() && ShowsQuestion()
      ensures question == Some(resp) && selectedIndex == None && !loading
      ensures timer.State() == Started(old(timer.State()), ArmWith(resp.timeRemaining, timePerQuestion))
    {
      var seconds := ArmWith(resp.timeRemaining, timePerQuestion);
      question, selectedIndex := Some(resp), None;
      timer.Reset(seconds);
      timer.Start(seconds);
      ResetThenStart(old(timer.State()), seconds);
      loading := false;
    }

    /** The load failed: either the test is over, or the error panel appears, with the
        server's detail or the fallback message. */
    method FetchFailed(detail: Option<string>)
      requires Valid() && status.Taking? && loading
      modifies this`loading, this`error, this`status
      ensures Valid()
      ensures EndsTest(detail) ==> status == Navigated(CompletePath(linkId)) && error == old(error) && loading == old(loading)
      ensures !EndsTest(detail) ==> (status.Taking? && !loading
        && error == DetailOr(detail, "Failed to load question")
        && Screen() == ErrorScreen(error))
    {
      if EndsTest(detail) {
        status := Navigated(CompletePath(linkId));
      } else {
        error := DetailOr(detail, "Failed to load question");
        loading := false;
      }
    }

    /** An option button; a disabled button (while submitting) ignores the click. */
    method SelectOption(index: nat)
      requires Valid() && ShowsQuestion() && index < |question.value.options|
      modifies this`selectedIndex
      ensures Valid()
      ensures selectedIndex == if old(submitting) then old(selectedIndex) else Some(index)
    {
      if !submitting {
        selectedIndex := Some(index);
      }
    }

    /** `handleSubmit`: a no-op while submitting; otherwise mark the page as submitting,
        halt the countdown and send the current selection. */
    method HandleSubmit()
      requires Valid() && status.Taking? && !loading && error == ""
      modifies this`submitting, this`sent, timer`isRunning
      ensures Valid() && submitting
      ensures old(submitting) ==> sent == old(sent) && timer.State() == old(timer.State())
      ensures !old(submitting) ==> (timer.State() == Stopped(old(timer.State()))
        && sent == old(sent) + [SubmitAnswer(sessionId.value, selectedIndex)])
    {
      if submitting {
        return;
      }
      submitting := true;
      timer.Stop();
      sent := sent + [SubmitAnswer(sessionId.value, selectedIndex)];
    }

    /** The submit button. What it sends passes the request validator whenever the
        question has at most four options. */
    method SubmitClicked()
      requires Valid() && ShowsQuestion()
      modifies this`submitting, this`sent, timer`isRunning
      ensures Valid() && submitting
      ensures old(submitting) ==> sent == old(sent) && timer.State() == old(timer.State())
      ensures !old(submitting) ==> (timer.State() == Stopped(old(timer.State()))
        && sent == old(sent) + [SubmitAnswer(sessionId.value, selectedIndex)])
      ensures |question.value.options| <= 4 ==> ValidSubmitAnswer(SubmitAnswerRequest(selectedIndex))
    {
      HandleSubmit();
    }

    /** One second of the countdown. On expiry the answer on screen is submitted;
        a countdown that fires was running, so the page was not already submitting. */
    method TimerTick() returns (expired: bool)
      requires Valid() && status.Taking?
      modifies this`submitting, this`sent, timer`timeLeft, timer`isRunning
      ensures Valid()
      ensures timer.State() == TickOnce(old(timer.State())).0
      ensures expired <==> TickOnce(old(timer.State())).1.Some?
      ensures expired ==> (!old(submitting) && submitting
        && ExpirySends(old(submitting), selectedIndex) == Some(selectedIndex)
        && sent == old(sent) + [SubmitAnswer(sessionId.value, selectedIndex)])
      ensures !expired ==> sent == old(sent) && submitting == old(submitting)
    {
      var fired := timer.Tick();
      expired := fired.Some?;
      if expired && !submitting {
        HandleSubmit();
      }
    }

    /** The answer was accepted: finish, or show the next question with nothing
        selected and the countdown re-armed; `submitting` is cleared in every case. */
    method SubmitSucceeded(resp: SubmitAnswerResponse)
      requires Valid() && status.Taking? && submitting
      modifies this`question, this`selectedIndex, this`submitting, this`status, timer`timeLeft, timer`isRunning
      ensures Valid() && !submitting
      ensures resp.testCompleted ==> (status == Navigated(CompletePath(linkId))
        && question == old(question) && selectedIndex == old(selectedIndex) && timer.State() == old(timer.State()))
      ensures !resp.testCompleted && resp.nextQuestion.Some? ==> (ShowsQuestion()
        && question == resp.nextQuestion && selectedIndex == None
        && timer.State() == Started(old(timer.State()), ArmWith(resp.nextQuestion.value.timeRemaining, timePerQuestion)))
      ensures !resp.testCompleted && resp.nextQuestion.None? ==> (ShowsQuestion()
        && question == old(question) && selectedIndex == old(selectedIndex) && timer.State() == old(timer.State()))
    {
      if resp.testCompleted {
        status := Navigated(CompletePath(linkId));
      } else if resp.nextQuestion.Some? {
        var next := resp.nextQuestion.value;
        var seconds := ArmWith(next.timeRemaining, timePerQuestion);
        question, selectedIndex := Some(next), None;
        timer.Reset(seconds);
        timer.Start(seconds);
        ResetThenStart(old(timer.State()), seconds);
      }
      submitting := false;
    }

    /** The submission failed: the error panel appears and `submitting` is cleared. */
    method SubmitFailed(detail: Option<string>)
      requires Valid() && status.Taking? && submitting
      modifies this`submitting, this`error
      ensures Valid() && !submitting
      ensures error == DetailOr(detail, "Failed to submit answer") && Screen() == ErrorScreen(error)
    {
      error := DetailOr(detail, "Failed to submit answer");
      submitting := false;
    }

    /** A `visibilitychange` event: reported through the listener, which sends one
        tab-switch log while the page is hidden; whether that request fails is never
        looked at, so nothing else changes. */
    method VisibilityChanged(hidden: bool)
      requires Valid() && status.Taking?
      modifies this`sent
      ensures Valid()
      ensures sent == old(sent) + (if hidden then [LogTabSwitch(sessionId.value)] else [])
    {
      var reports := guard.VisibilityChanged(hidden);
      if reports > 0 && Present(sessionId) {
        sent := sent + [LogTabSwitch(sessionId.value)];
      }
    }
  }
}

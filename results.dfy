/** The admin results routes (backend/app/routes/results.py): the statistics shown in
    the result list, the result detail and the CSV export, all computed from the
    engine's stored sessions, attempts and users, and the deletion of a result. The
    database sort and the CSV writer are left to their callers: the completed sessions
    arrive as a list in the order the database returns them. */
module Results {
  import opened Wrappers
  import opened Numeric
  import opened Helpers
  import opened TestService

  /** The detail and the export read at most this many attempts of a session. */
  const ATTEMPTS_READ: nat := 100

  /** The export reads at most this many completed sessions. */
  const SESSIONS_READ: nat := 10000

  // ---------------------------------------------------------------- statistics

  /** How many of the attempts satisfy `p`. */
  function CountWhere(atts: seq<Attempt>, p: Attempt -> bool): (n: nat)
    ensures n <= |atts|
  {
    if atts == [] then 0
    else CountWhere(atts[..|atts| - 1], p) + (if p(atts[|atts| - 1]) then 1 else 0)
  }

  predicate IsCorrect(a: Attempt) {
    a.isCorrect
  }

  /** Wrong with an answer: Python's truthiness makes an empty answer count as none. */
  predicate IsIncorrect(a: Attempt) {
    !a.isCorrect && a.selectedAnswer.Some? && a.selectedAnswer.value != ""
  }

  /** Neither correct nor answered: counted in no statistic of the detail. */
  predicate IsBlank(a: Attempt) {
    !a.isCorrect && !(a.selectedAnswer.Some? && a.selectedAnswer.value != "")
  }

  predicate IsAutoSubmitted(a: Attempt) {
    a.autoSubmitted
  }

  /** The sum of the attempts' `time_taken`. */
  function TotalTime(atts: seq<Attempt>): real {
    if atts == [] then 0.0 else TotalTime(atts[..|atts| - 1]) + atts[|atts| - 1].timeTaken
  }

  /** `total_time / len(attempts) if attempts else 0`. */
  function AverageTime(atts: seq<Attempt>): (avg: real)
    ensures atts == [] ==> avg == 0.0
    ensures atts != [] ==> avg * |atts| as real == TotalTime(atts)
  {
    if atts == [] then 0.0 else TotalTime(atts) / |atts| as real
  }

  /** Every attempt is exactly one of correct, incorrect and blank. */
  lemma {:induction false} CountsPartition(atts: seq<Attempt>)
    ensures CountWhere(atts, IsCorrect) + CountWhere(atts, IsIncorrect) + CountWhere(atts, IsBlank) == |atts|
  {
    if atts != [] {
      CountsPartition(atts[..|atts| - 1]);
    }
  }

  /** When every attempt took between 0 and `m` seconds, so do the total per attempt
      and the average. */
  lemma {:induction false} AverageTimeBounded(atts: seq<Attempt>, m: real)
    requires forall k :: 0 <= k < |atts| ==> 0.0 <= atts[k].timeTaken <= m
    ensures 0.0 <= TotalTime(atts) <= m * |atts| as real
    ensures atts != [] ==> 0.0 <= AverageTime(atts) <= m
  {
    if atts != [] {
      AverageTimeBounded(atts[..|atts| - 1], m);
      assert m * |atts| as real == m * (|atts| - 1) as real + m;
      QuotientBounded(TotalTime(atts), |atts| as real, m);
    }
  }

  lemma QuotientBounded(x: real, n: real, m: real)
    requires n > 0.0 && 0.0 <= x <= m * n
    ensures 0.0 <= x / n <= m
  {
    assert x / n <= (m * n) / n;
  }

  /** A prefix never has more attempts satisfying `p` than the whole. */
  lemma {:induction false} CountWherePrefix(atts: seq<Attempt>, p: Attempt -> bool, n: nat)
    requires n <= |atts|
    ensures CountWhere(atts[..n], p) <= CountWhere(atts, p)
    decreases |atts|
  {
    if n < |atts| {
      assert atts[..|atts| - 1][..n] == atts[..n];
      CountWherePrefix(atts[..|atts| - 1], p, n);
    } else {
      assert atts[..n] == atts;
    }
  }

  // ---------------------------------------------------------------- records read

  /** The attempts of a session as the detail and export read them: the first 100 in
      insertion order. */
  function ReadAttempts(attempts: seq<Attempt>, sid: nat): (r: seq<Attempt>)
    ensures |r| <= ATTEMPTS_READ
  {
    Take(AttemptsOf(attempts, sid), ATTEMPTS_READ)
  }

  /** The user record of the session's candidate, or the placeholder for a missing one. */
  function CandidateOf(users: map<string, User>, userId: string): User {
    if userId in users then users[userId] else User("Unknown", "unknown@example.com", "N/A")
  }

  // ---------------------------------------------------------------- detail

  datatype ResultDetail = ResultDetail(
    sessionId: nat,
    userName: string,
    userEmail: string,
    userPhone: string,
    totalQuestions: nat,
    correctAnswers: nat,
    incorrectAnswers: nat,
    unanswered: int,
    scorePercentage: real,
    totalTimeSeconds: real,
    averageTimePerQuestion: real,
    autoSubmittedCount: nat,
    tabSwitchCount: nat,
    startedAt: real,
    completedAt: Option<real>,
    ipAddress: string,
    userAgent: string)

  /** `get_result_detail`, before rounding the times to two decimals. The score is out
      of the session's questions, not out of the attempts; an attempt without an
      answer is counted as neither incorrect nor unanswered. */
  function GetResultDetail(sessions: map<nat, Session>, attempts: seq<Attempt>, users: map<string, User>,
                           sid: nat): (r: Result<ResultDetail, ServiceError>)
    ensures sid !in sessions <==> r == Err(SessionNotFound)
  {
    if sid !in sessions then Err(SessionNotFound)
    else
      var s := sessions[sid];
      Ok(DetailOf(sid, s, CandidateOf(users, s.userId), ReadAttempts(attempts, sid)))
  }

  /** The detail of session `sid`, stored as `s`, for its candidate `user` and the
      attempts `read` of it. */
  function DetailOf(sid: nat, s: Session, user: User, read: seq<Attempt>): ResultDetail {
    var correct := CountWhere(read, IsCorrect);
    ResultDetail(sid, user.name, user.email, user.phone, |s.questions|, correct,
      CountWhere(read, IsIncorrect), |s.questions| - |read|, CalculateScore(correct, |s.questions|),
      TotalTime(read), AverageTime(read), CountWhere(read, IsAutoSubmitted), |s.tabSwitches|,
      s.startedAt, s.completedAt, s.ipAddress, s.userAgent)
  }

  /** The figures of detail `d` over the attempts `read`: correct, incorrect,
      auto-submitted and total time are what the attempts give, every attempt is exactly
      one of correct, incorrect and blank, and the unanswered, score and average follow. */
  ghost predicate FiguresOf(d: ResultDetail, read: seq<Attempt>) {
    && d.correctAnswers == CountWhere(read, IsCorrect) && d.incorrectAnswers == CountWhere(read, IsIncorrect)
    && d.correctAnswers + d.incorrectAnswers + CountWhere(read, IsBlank) == |read|
    && d.autoSubmittedCount == CountWhere(read, IsAutoSubmitted) && d.totalTimeSeconds == TotalTime(read)
    && d.unanswered == d.totalQuestions - |read|
    && (d.totalQuestions > 0 ==> d.scorePercentage * d.totalQuestions as real == 100.0 * d.correctAnswers as real)
    && (read != [] ==> d.averageTimePerQuestion * |read| as real == d.totalTimeSeconds)
  }

  /** The figures of one detail, whatever the store it comes from. */
  lemma DetailOfFigures(sid: nat, s: Session, user: User, read: seq<Attempt>)
    ensures FiguresOf(DetailOf(sid, s, user, read), read)
    ensures DetailOf(sid, s, user, read).correctAnswers + DetailOf(sid, s, user, read).incorrectAnswers <= |read|
  {
    DetailCounts(sid, s, user, read);
    DetailScore(sid, s, user, read);
    DetailAverage(sid, s, user, read);
  }

  lemma DetailCounts(sid: nat, s: Session, user: User, read: seq<Attempt>)
    ensures var d := DetailOf(sid, s, user, read);
      && d.correctAnswers == CountWhere(read, IsCorrect) && d.incorrectAnswers == CountWhere(read, IsIncorrect)
      && d.correctAnswers + d.incorrectAnswers + CountWhere(read, IsBlank) == |read|
      && d.autoSubmittedCount == CountWhere(read, IsAutoSubmitted) && d.totalTimeSeconds == TotalTime(read)
      && d.unanswered == d.totalQuestions - |read|
  {
    CountsPartition(read);
  }

  lemma DetailScore(sid: nat, s: Session, user: User, read: seq<Attempt>)
    ensures var d := DetailOf(sid, s, user, read);
      d.totalQuestions > 0 ==> d.scorePercentage * d.totalQuestions as real == 100.0 * d.correctAnswers as real
  {
    var c, n := CountWhere(read, IsCorrect), |s.questions|;
    var p := CalculateScore(c, n);
    assert DetailOf(sid, s, user, read).scorePercentage == p;
  }

  lemma DetailAverage(sid: nat, s: Session, user: User, read: seq<Attempt>)
    ensures var d := DetailOf(sid, s, user, read);
      read != [] ==> d.averageTimePerQuestion * |read| as real == d.totalTimeSeconds
  {
    assert DetailOf(sid, s, user, read).averageTimePerQuestion == AverageTime(read);
  }

  /** The detail of a stored session: its id, its question and tab-switch counts, and
      the figures of its first 100 attempts. */
  lemma DetailFigures(sessions: map<nat, Session>, attempts: seq<Attempt>, users: map<string, User>, sid: nat)
    requires sid in sessions
    ensures var d := GetResultDetail(sessions, attempts, users, sid).value;
      && d.sessionId == sid
      && d.totalQuestions == |sessions[sid].questions|
      && d.tabSwitchCount == |sessions[sid].tabSwitches|
      && FiguresOf(d, ReadAttempts(attempts, sid))
  {
    var s := sessions[sid];
    var user, read := CandidateOf(users, s.userId), ReadAttempts(attempts, sid);
    assert GetResultDetail(sessions, attempts, users, sid).value == DetailOf(sid, s, user, read);
    DetailOfFigures(sid, s, user, read);
  }

  /** On a consistent store the detail reads every attempt of the session: one per
      answered question, so none is unanswered once the session is completed, and the
      score is a percentage. */
  lemma DetailOfConsistentStore(sessions: map<nat, Session>, nextId: nat, attempts: seq<Attempt>,
                                users: map<string, User>, sid: nat)
    requires SessionsValid(sessions, nextId) && AttemptsValid(attempts, sessions) && sid in sessions
    ensures var d := GetResultDetail(sessions, attempts, users, sid).value;
      && ReadAttempts(attempts, sid) == AttemptsOf(attempts, sid)
      && d.unanswered == |sessions[sid].questions| - sessions[sid].currentIndex >= 0
      && (sessions[sid].completed ==> d.unanswered == 0)
      && d.correctAnswers + d.incorrectAnswers <= sessions[sid].currentIndex
      && 0.0 <= d.scorePercentage <= 100.0
  {
    var s := sessions[sid];
    var all := AttemptsOf(attempts, sid);
    assert |QuestionIndices(all)| == |Range(s.currentIndex)|;
    assert |all| == s.currentIndex <= |s.questions| <= 100;
    var d := GetResultDetail(sessions, attempts, users, sid).value;
    DetailFigures(sessions, attempts, users, sid);
    ScoreIsPercentage(d.correctAnswers, |s.questions|);
  }

  // ---------------------------------------------------------------- list

  datatype ResultSummary = ResultSummary(
    sessionId: nat,
    userName: string,
    userEmail: string,
    scorePercentage: real,
    totalQuestions: nat,
    correctAnswers: nat,
    completedAt: Option<real>,
    tabSwitchCount: nat)

  datatype ResultsList = ResultsList(total: nat, page: nat, pageSize: nat, results: seq<ResultSummary>)

  /** The page number the list reports: `skip // limit + 1`. */
  function PageNumber(skip: nat, limit: nat): (page: nat)
    requires 1 <= limit <= 100
    ensures page >= 1
    ensures (page - 1) * limit <= skip < page * limit
  {
    skip / limit + 1
  }

  /** The ids of the store's completed sessions: what `{"completed": True}` matches. */
  ghost function CompletedIds(sessions: map<nat, Session>): set<nat> {
    set sid | sid in sessions && sessions[sid].completed
  }

  /** `completed` lists every completed session of the store exactly once. */
  ghost predicate CompletedOnce(sessions: map<nat, Session>, completed: seq<nat>) {
    && (forall k :: 0 <= k < |completed| ==> completed[k] in sessions && sessions[completed[k]].completed)
    && CompletedIds(sessions) <= Elements(completed)
    && (forall j, k :: 0 <= j < k < |completed| ==> completed[j] != completed[k])
  }

  /** `completed` lists every completed session once, newest completion first: the
      database's `$sort` on `completed_at`, descending. */
  ghost predicate CompletedNewestFirst(sessions: map<nat, Session>, completed: seq<nat>) {
    && CompletedOnce(sessions, completed)
    && (forall j, k :: 0 <= j < k < |completed| ==>
          LaterOrEqual(sessions[completed[j]].completedAt, sessions[completed[k]].completedAt))
  }

  /** The ids listed in `xs`. */
  ghost function Elements(xs: seq<nat>): set<nat> {
    if xs == [] then {} else Elements(xs[..|xs| - 1]) + {xs[|xs| - 1]}
  }

  lemma {:induction false} ElementsMembers(xs: seq<nat>)
    ensures forall x :: x in Elements(xs) <==> x in xs
  {
    if xs != [] {
      ElementsMembers(xs[..|xs| - 1]);
      assert xs == xs[..|xs| - 1] + [xs[|xs| - 1]];
    }
  }

  /** A list of distinct ids has as many ids as entries. */
  lemma {:induction false} DistinctCard(xs: seq<nat>)
    requires forall j, k :: 0 <= j < k < |xs| ==> xs[j] != xs[k]
    ensures |Elements(xs)| == |xs|
  {
    if xs != [] {
      var init, last := xs[..|xs| - 1], xs[|xs| - 1];
      DistinctCard(init);
      ElementsMembers(init);
    }
  }

  /** Listing every completed session once counts them all. */
  lemma CompletedCount(sessions: map<nat, Session>, completed: seq<nat>)
    requires CompletedOnce(sessions, completed)
    ensures |completed| == |CompletedIds(sessions)|
  {
    DistinctCard(completed);
    ElementsMembers(completed);
    forall x | x in Elements(completed)
      ensures x in CompletedIds(sessions)
    {
      var k :| 0 <= k < |completed| && completed[k] == x;
    }
    assert Elements(completed) == CompletedIds(sessions);
  }

  predicate LaterOrEqual(a: Option<real>, b: Option<real>) {
    a.Some? && b.Some? && a.value >= b.value
  }

  /** One row of the list; its correct count is over all the session's attempts. */
  function Summary(sessions: map<nat, Session>, attempts: seq<Attempt>, users: map<string, User>, sid: nat): ResultSummary
    requires sid in sessions
  {
    var s := sessions[sid];
    var user := CandidateOf(users, s.userId);
    var correct := CountWhere(AttemptsOf(attempts, sid), IsCorrect);
    ResultSummary(sid, user.name, user.email, CalculateScore(correct, |s.questions|), |s.questions|, correct,
      s.completedAt, |s.tabSwitches|)
  }

  /** `list_results`: the completed sessions from position `skip`, at most `limit` of
      them, with the count of all completed sessions and the page number. */
  function ListResults(sessions: map<nat, Session>, attempts: seq<Attempt>, users: map<string, User>,
                       completed: seq<nat>, skip: nat, limit: nat): (r: ResultsList)
    requires 1 <= limit <= 100
    requires CompletedNewestFirst(sessions, completed)
    ensures r.total == |CompletedIds(sessions)| && r.pageSize == limit && r.page == PageNumber(skip, limit)
    ensures |r.results| == Max(0, Min(limit, |completed| - skip))
    ensures forall k :: 0 <= k < |r.results| ==>
      && skip + k < |completed| && sessions[completed[skip + k]].completed
      && r.results[k] == Summary(sessions, attempts, users, completed[skip + k])
    ensures forall j, k :: 0 <= j < k < |r.results| ==> LaterOrEqual(r.results[j].completedAt, r.results[k].completedAt)
  {
    var window := if skip >= |completed| then [] else Take(completed[skip..], limit);
    CompletedCount(sessions, completed);
    ResultsList(|completed|, PageNumber(skip, limit), limit,
      seq(|window|, k requires 0 <= k < |window| => Summary(sessions, attempts, users, window[k])))
  }

  /** A listed completed session is shown consistently by the list, the detail and the
      export when the store is consistent: the list counts all attempts and the others
      read at most 100, but a session never has more than 100. */
  lemma ListMatchesDetail(sessions: map<nat, Session>, nextId: nat, attempts: seq<Attempt>,
                          users: map<string, User>, sid: nat)
    requires SessionsValid(sessions, nextId) && AttemptsValid(attempts, sessions) && sid in sessions
    ensures var d := GetResultDetail(sessions, attempts, users, sid).value;
      var s := Summary(sessions, attempts, users, sid);
      && s.correctAnswers == d.correctAnswers && s.scorePercentage == d.scorePercentage
      && s.totalQuestions == d.totalQuestions && s.tabSwitchCount == d.tabSwitchCount
      && s.userName == d.userName && s.userEmail == d.userEmail && s.completedAt == d.completedAt
  {
    DetailOfConsistentStore(sessions, nextId, attempts, users, sid);
  }

  // ---------------------------------------------------------------- export

  /** A CSV field before the writer formats it. */
  datatype CsvCell = Text(text: string) | Number(n: int) | Decimal(x: real) | Timestamp(t: real)

  /** The 14 column titles of the export. */
  function CsvHeader(): (h: seq<CsvCell>)
    ensures |h| == 14
    ensures forall k :: 0 <= k < |h| ==> h[k].Text?
  {
    [Text("Session ID"), Text("Candidate Name"), Text("Candidate Email"), Text("Candidate Phone"),
     Text("Total Questions"), Text("Correct Answers"), Text("Score %"), Text("Total Time (s)"),
     Text("Avg Time/Question (s)"), Text("Auto-Submitted"), Text("Tab Switches"), Text("Started At"),
     Text("Completed At"), Text("IP Address")]
  }

  /** One data row of the export, field by field, before rounding the times. */
  datatype ExportRow = ExportRow(
    sessionId: string,
    name: string,
    email: string,
    phone: string,
    totalQuestions: nat,
    correctAnswers: nat,
    score: real,
    totalTime: real,
    averageTime: real,
    autoSubmitted: nat,
    tabSwitches: nat,
    startedAt: CsvCell,
    completedAt: CsvCell,
    ipAddress: string)

  /** The fields of a row in column order. */
  function Cells(row: ExportRow): (cells: seq<CsvCell>)
    ensures |cells| == |CsvHeader()|
  {
    [Text(row.sessionId), Text(row.name), Text(row.email), Text(row.phone), Number(row.totalQuestions),
     Number(row.correctAnswers), Decimal(row.score), Decimal(row.totalTime), Decimal(row.averageTime),
     Number(row.autoSubmitted), Number(row.tabSwitches), row.startedAt, row.completedAt, Text(row.ipAddress)]
  }

  /** The export row of a session; a missing completion time is an empty field. */
  function CsvRow(sessions: map<nat, Session>, attempts: seq<Attempt>, users: map<string, User>, sid: nat)
    : ExportRow
    requires sid in sessions
  {
    var s := sessions[sid];
    var user := CandidateOf(users, s.userId);
    var read := ReadAttempts(attempts, sid);
    var correct := CountWhere(read, IsCorrect);
    ExportRow(NatToString(sid), user.name, user.email, user.phone, |s.questions|, correct,
      CalculateScore(correct, |s.questions|), TotalTime(read), AverageTime(read), CountWhere(read, IsAutoSubmitted),
      |s.tabSwitches|, Timestamp(s.startedAt),
      if s.completedAt.Some? then Timestamp(s.completedAt.value) else Text(""), s.ipAddress)
  }

  /** The header, then the row of each session of `ids`, in order. */
  function ExportTable(sessions: map<nat, Session>, attempts: seq<Attempt>, users: map<string, User>,
                       ids: seq<nat>): (table: seq<seq<CsvCell>>)
    requires forall k :: 0 <= k < |ids| ==> ids[k] in sessions
    ensures |table| == 1 + |ids| && table[0] == CsvHeader()
    ensures forall k :: 1 <= k < |table| ==> table[k] == Cells(CsvRow(sessions, attempts, users, ids[k - 1]))
  {
    if ids == [] then [CsvHeader()]
    else ExportTable(sessions, attempts, users, ids[..|ids| - 1]) + [Cells(CsvRow(sessions, attempts, users, ids[|ids| - 1]))]
  }

  /** `export_results_csv`: the header, then one row for each of the first 10000
      completed sessions, each as wide as the header. */
  function ExportCsv(sessions: map<nat, Session>, attempts: seq<Attempt>, users: map<string, User>,
                     completed: seq<nat>): (table: seq<seq<CsvCell>>)
    requires CompletedOnce(sessions, completed)
    ensures |table| == 1 + Min(|completed|, SESSIONS_READ) == 1 + Min(|CompletedIds(sessions)|, SESSIONS_READ)
    ensures table[0] == CsvHeader()
    ensures forall k :: 0 <= k < |table| ==> |table[k]| == |CsvHeader()| == 14
    ensures forall k :: 1 <= k < |table| ==>
      && sessions[completed[k - 1]].completed
      && table[k] == Cells(CsvRow(sessions, attempts, users, completed[k - 1]))
  {
    CompletedCount(sessions, completed);
    ExportTable(sessions, attempts, users, Take(completed, SESSIONS_READ))
  }

  /** Every export row carries the figures the detail shows for that session. */
  lemma CsvAgreesWithDetail(sessions: map<nat, Session>, attempts: seq<Attempt>, users: map<string, User>, sid: nat)
    requires sid in sessions
    ensures var d := GetResultDetail(sessions, attempts, users, sid).value;
      var row := CsvRow(sessions, attempts, users, sid);
      && row.sessionId == NatToString(d.sessionId)
      && row.name == d.userName && row.email == d.userEmail && row.phone == d.userPhone
      && row.totalQuestions == d.totalQuestions && row.correctAnswers == d.correctAnswers
      && row.score == d.scorePercentage && row.totalTime == d.totalTimeSeconds
      && row.averageTime == d.averageTimePerQuestion && row.autoSubmitted == d.autoSubmittedCount
      && row.tabSwitches == d.tabSwitchCount && row.startedAt == Timestamp(d.startedAt)
      && row.completedAt == (if d.completedAt.Some? then Timestamp(d.completedAt.value) else Text(""))
      && row.ipAddress == d.ipAddress
  {
  }

  // ---------------------------------------------------------------- delete

  /** The attempts left after removing those of session `sid`. */
  function WithoutSession(atts: seq<Attempt>, sid: nat): (r: seq<Attempt>)
    ensures |r| + |AttemptsOf(atts, sid)| == |atts|
    ensures forall k :: 0 <= k < |r| ==> r[k].sessionId != sid
  {
    if atts == [] then []
    else
      var last := atts[|atts| - 1];
      WithoutSession(atts[..|atts| - 1], sid) + (if last.sessionId == sid then [] else [last])
  }

  /** Removing one session's attempts leaves every other session's attempts, in order. */
  lemma {:induction false} WithoutSessionKeepsOthers(atts: seq<Attempt>, sid: nat, other: nat)
    requires other != sid
    ensures AttemptsOf(WithoutSession(atts, sid), other) == AttemptsOf(atts, other)
  {
    if atts != [] {
      var init, last := atts[..|atts| - 1], atts[|atts| - 1];
      WithoutSessionKeepsOthers(init, sid, other);
      assert atts == init + [last];
      AttemptsOfAppend(init, last, other);
      if last.sessionId != sid {
        assert WithoutSession(atts, sid) == WithoutSession(init, sid) + [last];
        AttemptsOfAppend(WithoutSession(init, sid), last, other);
      } else {
        assert WithoutSession(atts, sid) == WithoutSession(init, sid);
        assert AttemptsOf(atts, other) == AttemptsOf(init, other) + [];
      }
    }
  }

  /** Every attempt left is one that was there. */
  lemma {:induction false} WithoutSessionSubset(atts: seq<Attempt>, sid: nat)
    ensures forall k :: 0 <= k < |WithoutSession(atts, sid)| ==> WithoutSession(atts, sid)[k] in atts
  {
    if atts != [] {
      WithoutSessionSubset(atts[..|atts| - 1], sid);
      var init := WithoutSession(atts[..|atts| - 1], sid);
      forall k | 0 <= k < |init| ensures init[k] in atts {
        assert init[k] in atts[..|atts| - 1];
      }
    }
  }

  /** Removing a session with all its attempts keeps the store consistent. */
  lemma DeleteKeepsState(sessions: map<nat, Session>, nextId: nat, attempts: seq<Attempt>, sid: nat)
    requires SessionsValid(sessions, nextId) && AttemptsValid(attempts, sessions)
    ensures SessionsValid(sessions - {sid}, nextId)
    ensures AttemptsValid(WithoutSession(attempts, sid), sessions - {sid})
  {
    var left := WithoutSession(attempts, sid);
    WithoutSessionSubset(attempts, sid);
    forall k | 0 <= k < |left| ensures left[k].sessionId in sessions - {sid} {
      var j :| 0 <= j < |attempts| && attempts[j] == left[k];
    }
    forall other | other in sessions - {sid}
      ensures QuestionIndices(AttemptsOf(left, other)) == Range(sessions[other].currentIndex)
    {
      WithoutSessionKeepsOthers(attempts, sid, other);
    }
  }

  /** `delete_result`: an unknown session is refused; otherwise its attempts and then
      the session itself are removed, and nothing else. */
  method DeleteResult(e: Engine, sid: nat) returns (r: Result<string, ServiceError>)
    requires e.Valid()
    modifies e`sessions, e`attempts
    ensures e.Valid()
    ensures sid !in old(e.sessions) ==>
      r == Err(ResultNotFound) && e.sessions == old(e.sessions) && e.attempts == old(e.attempts)
    ensures sid in old(e.sessions) ==>
      && r == Ok("Result deleted successfully")
      && e.sessions == old(e.sessions) - {sid}
      && e.attempts == WithoutSession(old(e.attempts), sid)
  {
    if sid !in e.sessions {
      return Err(ResultNotFound);
    }
    DeleteKeepsState(e.sessions, e.nextSessionId, e.attempts, sid);
    e.attempts := WithoutSession(e.attempts, sid);
    e.sessions := e.sessions - {sid};
    r := Ok("Result deleted successfully");
  }
}

# HireMind candidate assessment: a verified model

HireMind delivers timed multiple-choice tests to candidates. An administrator creates
a test link with a question count, a time per question, topics, an expiry and a usage
limit. A candidate opens the link and starts a session. The server assembles a random
question set from approved variants of the bank's questions, with each variant's
options shuffled. The candidate page then shows one question at a time under a
per-question countdown and submits on click or on expiry. The server grades each
answer through the shuffle mapping and advances the session. An anti-cheat hook blocks
the back button, the context menu and developer shortcuts, and reports tab switches.
The admin results routes compute per-session statistics, a paginated list, a CSV export
and deletion.

The model has one Dafny module per core source file:

| module | file | models |
|---|---|---|
| `Wrappers` | wrappers.dfy | `Option`, `Result` |
| `Numeric` | numeric.dfy | Python's `int()` truncation, decimal rendering of ids |
| `TimerService` | timer_service.py model | submission window, remaining time, capped time taken, expiry |
| `Helpers` | helpers.py model | `shuffle_list` and its mapping, scores, durations, the helpers' timer rules |
| `SessionSchemas` | test_session.py schemas | request bounds and defaults, response shapes |
| `QuestionSchemas` | question.py schemas | question-bank request bounds and defaults |
| `TestService` | test_service.py model | class `Engine` over links, users, sessions, attempts and the bank |
| `Results` | results.py model | detail statistics, list, CSV rows, deletion |
| `TimerHooks` | useTimer.js model | class `Countdown` (the `useTimer` hook) and class `AntiCheat` (`useAntiCheat`) |
| `TestInterface` | TestInterface.jsx model | class `Controller` (the question page), the session-storage map, the page's views |

Some things the code touches are not modelled directly; they become inputs instead:
- Time is `real` seconds. Clock readings are parameters, and one parameter stands for
  several readings the source takes in the same request: in `submit_answer`, `now` is
  the reading behind the elapsed time, `submitted_at`, `completed_at` and the next
  `question_start_time`, and `nowNext` is the reading behind the remaining time of the
  follow-up `get_current_question`; in `start_test`, one `now` is the expiry check,
  `started_at` and `question_start_time`.
- The random draws are a `Randomness` value: the positions `random.sample` picks, the
  variant each `random.choice` picks, and the option and question permutations.
  `RandomnessFits` demands only what the functions guarantee: distinct positions
  in range, picks in range, true permutations.
- MongoDB is replaced by fields of `Engine`: maps keyed by link id, e-mail and session
  id, plus the sequence of attempts in insertion order.
- React is replaced by sequential events. Each event runs to completion and sees the
  state left by the previous one. So the `submitting` flag is read as already updated
  by the very next event. One `Countdown.Tick` is one elapsed interval second.

## Model

| member | source | states |
|---|---|---|
| Numeric.Trunc | backend/app/services/timer_service.py:48 | `int()` rounds toward zero on both signs |
| Numeric.ClampedTruncIsClampedFloor | backend/app/services/timer_service.py:48 | clamping at 0 makes truncation and flooring agree |
| Numeric.NatToString | backend/app/services/test_service.py:186 | a session id is rendered as a non-empty string of decimal digits |
| Numeric.NatToStringRoundTrip | backend/app/services/test_service.py:186 | reading the digits back gives the id |
| TimerService.NewTimer | backend/app/services/timer_service.py:8-10 | `None` and `0` both fall back to `QUESTION_TIMER_SECONDS`; the grace is 1.5 and the maximum is never 0 |
| TimerService.GlobalTimer | backend/app/services/timer_service.py:68 | the global instance is a 10 s timer with 1.5 s grace |
| TimerService.ValidateSubmissionTime | backend/app/services/timer_service.py:12-36 | valid iff elapsed ≤ max + grace; auto-submit iff elapsed > max; the excess is max(0, elapsed − max) |
| TimerService.LateButValidWindow | backend/app/services/timer_service.py:26-29 | both flags hold exactly for elapsed in (max, max + 1.5] |
| TimerService.GetRemainingTime | backend/app/services/timer_service.py:38-48 | the remaining time is never negative |
| TimerService.RemainingTimeBounds | backend/app/services/timer_service.py:45-48 | the whole seconds left; within [0, max] for elapsed ≥ 0; 0 once elapsed ≥ max |
| TimerService.CalculateTimeTaken | backend/app/services/timer_service.py:50-59 | elapsed capped at the maximum: one of the two, and at most both |
| TimerService.IsExpired | backend/app/services/timer_service.py:61-64 | expired iff the remaining whole seconds are ≤ 0 |
| TimerService.ExpiredIffLessThanOneSecondLeft | backend/app/services/timer_service.py:61-64 | expired iff less than one second remains |
| TimerService.TimerSuiteExpectations | backend/tests/test_timer.py:12-121 | the timer test suite's concrete expectations hold |
| Helpers.Range | backend/app/utils/helpers.py:15 | the positions 0..n−1 in order |
| Helpers.PermutationBounds | backend/app/utils/helpers.py:16 | a permutation of 0..n−1 has n entries, all below n |
| Helpers.PermutationDistinct | backend/app/utils/helpers.py:16 | no entry of a permutation repeats |
| Helpers.Permute | backend/app/utils/helpers.py:16 | rearranging by an order picks `s[p[i]]` at position i |
| Helpers.PermutePreservesMultiset | backend/app/utils/helpers.py:16 | rearranging keeps every element with its multiplicity |
| Helpers.DistinctPermute | backend/app/services/test_service.py:254 | rearranging distinct values keeps them distinct |
| Helpers.Enumerate | backend/app/utils/helpers.py:15 | `enumerate` pairs each item with its position |
| Helpers.ShuffleList | backend/app/utils/helpers.py:8-21 | both results have the input's length; the mapping is a permutation; `shuffled[i] == items[mapping[i]]` |
| Helpers.ShuffleKeepsItems | backend/app/utils/helpers.py:15-21 | the shuffled options are the original options, each exactly as often |
| Helpers.GetOriginalIndex | backend/app/utils/helpers.py:24-26 | Python indexing of the mapping: defined exactly on −n..n−1 and equal to `mapping[i]` for i ≥ 0 |
| Helpers.OriginalIndexRoundTrip | backend/app/utils/helpers.py:24-26 | mapping a shuffled position back finds the item shown there |
| Helpers.FormatDuration | backend/app/utils/helpers.py:29-40 | the branch chosen: below 60, below 3600, otherwise |
| Helpers.FormatDurationSplits | backend/app/utils/helpers.py:33-40 | whole minutes and leftover seconds recompose the duration to the second; hours and minutes to the minute |
| Helpers.CalculateScore | backend/app/utils/helpers.py:43-47 | 0 for total 0; otherwise score·total = 100·correct |
| Helpers.ScoreIsPercentage | backend/app/utils/helpers.py:43-47 | in [0, 100] for 0 ≤ correct ≤ total; 100 when all are correct; strictly increasing in correct |
| Helpers.IsValidTimeSubmission | backend/app/utils/helpers.py:50-64 | valid iff elapsed ≤ max + 1 |
| Helpers.GetRemainingTime | backend/app/utils/helpers.py:67-81 | max(0, ⌊max − elapsed⌋), never negative |
| Helpers.RemainingTimeAgreesWithService | backend/app/utils/helpers.py:78-81 | this helper and the timer service agree for the same maximum |
| Helpers.HelperGraceIsTighter | backend/app/utils/helpers.py:63-64 | the helper's 1 s grace rejects submissions the service's 1.5 s accepts |
| SessionSchemas.ValidateCreateTestLink | backend/app/schemas/test_session.py:6-13 | accepted iff every bound holds; the defaults fill missing fields; a rejection names a field |
| SessionSchemas.CreateTestLinkDefaults | backend/app/schemas/test_session.py:8-13 | an empty body gives 60 questions, 10 s, 72 h, unlimited uses |
| SessionSchemas.ValidateStartTest | backend/app/schemas/test_session.py:31-35 | accepted iff the name has 2..100 and the phone 10..15 characters; each failing field is named |
| SessionSchemas.ValidateSubmitAnswer | backend/app/schemas/test_session.py:56-58 | `selected_index` is absent or in 0..3 |
| SessionSchemas.NewSubmitAnswerResponse | backend/app/schemas/test_session.py:61-66 | the fields are the arguments, with the declared defaults |
| SessionSchemas.SubmitAnswerResponseDefaults | backend/app/schemas/test_session.py:64-65 | by default it reports no completion and no next question |
| QuestionSchemas.ValidateBaseQuestion | backend/app/schemas/question.py:7-11 | topic 1..100 characters; description at most 500 |
| QuestionSchemas.ValidateVariant | backend/app/schemas/question.py:24-29 | text 10..2000 characters, exactly 4 options, correct index in 0..3 |
| QuestionSchemas.CorrectIndexNamesAnOption | backend/app/schemas/question.py:28-29 | a valid variant's correct index names one of its options |
| QuestionSchemas.ValidateGenerateVariants | backend/app/schemas/question.py:44-50 | accepted iff the variant bounds hold and 1..10 variants are asked (default 5); on success the whole request: question id, text, options, index and the variant count |
| QuestionSchemas.ValidateGenerateQuestions | backend/app/schemas/question.py:65-70 | accepted iff topic 1..100, 1..20 questions (default 10) and a description of at most 500; on success the whole request: topic, difficulty (default Medium), count and description |
| QuestionSchemas.ValidateApproveVariant | backend/app/schemas/question.py:60-62 | `approved` defaults to true |
| TestService.SentinelDetails | backend/app/services/test_service.py:271-284 | "No more questions" and "Test already completed" are each the detail of exactly one error |
| TestService.MatchingBases | backend/app/services/test_service.py:200-206 | the topic filter never adds questions |
| TestService.MatchingBasesExact | backend/app/services/test_service.py:200-206 | kept iff stored and on a listed topic (any topic when none are listed) |
| TestService.ApprovedOf | backend/app/services/test_service.py:221-224 | the filter never adds variants |
| TestService.ApprovedOfExact | backend/app/services/test_service.py:221-224 | kept iff a stored, approved variant of that base |
| TestService.FindVariant | backend/app/services/test_service.py:289-291 | a found variant is stored under that id; none is found only when no stored variant has it |
| TestService.ShuffleIsWellShuffled | backend/app/services/test_service.py:233-242 | an assigned question's options are its variant's options rearranged by its mapping |
| TestService.PyIndex | backend/app/services/test_service.py:365-366 | Python list indexing: defined on −n..n−1, plain indexing for i ≥ 0 |
| TestService.Grade | backend/app/services/test_service.py:359-367 | no selection, or one outside 0..3, is recorded as unanswered and incorrect; a correct answer has answer text |
| TestService.GradeShownOption | backend/app/services/test_service.py:360-367 | for a well-shuffled 4-option question, the recorded answer is the option shown, and it is correct iff it maps to `correct_index` |
| TestService.CountUse | backend/app/services/test_service.py:171-183 | one more use; marked used iff the limit is positive and now reached; nothing else changes |
| TestService.CountUseKeepsLinks | backend/app/services/test_service.py:180-183 | counting a use keeps every link valid |
| TestService.CountUseExhausts | backend/app/services/test_service.py:176-178 | the use that reaches a positive limit marks the link used |
| TestService.RegisterKeepsUsers | backend/app/services/test_service.py:113-125 | "create or get" adds exactly the candidate's e-mail and keeps every stored record |
| TestService.AdvanceStep | backend/app/services/test_service.py:385-417 | the index rises by one; the session completes iff the new index reaches the question count; the invariant holds |
| TestService.AttemptFor | backend/app/services/test_service.py:349-381 | the attempt records the current index, the variant and the grading; time taken is exactly `min(elapsed, QUESTION_TIMER_SECONDS)`; auto-submitted iff the elapsed time exceeds it; submitted at `now` |
| TestService.ReplaceKeepsSessions | backend/app/services/test_service.py:409-417 | updating a session in place keeps ids and per-candidate uniqueness |
| TestService.SubmitKeepsAttempts | backend/app/services/test_service.py:383-417 | one attempt for the current question plus the advance keeps "attempts are for questions 0..index−1" |
| TestService.ReplaceKeepsAttempts | backend/app/services/test_service.py:433-436 | a session update that keeps the index keeps the attempts consistent |
| TestService.StartKeepsState | backend/app/services/test_service.py:155-169 | inserting a fresh session at question 0 keeps the store consistent |
| TestService.RemainingFor | backend/app/services/test_service.py:299-304 | the seconds left come from the global timer: never negative and at most `QUESTION_TIMER_SECONDS` |
| TestService.Engine.CreateTestLink | backend/app/services/test_service.py:20-59 | stores the request's link under the fresh id, unused; nothing else changes |
| TestService.Engine.ValidateTestLink | backend/app/services/test_service.py:62-95 | missing, then exhausted (positive limit reached), then expired; success iff none applies, returning the link's name, question count, time per question and topics |
| TestService.Engine.UnlimitedLinkNeverExhausted | backend/app/services/test_service.py:74-77 | with `max_uses` 0 an unexpired link validates whatever its use count |
| TestService.Engine.FindSessionBelow | backend/app/services/test_service.py:128-131 | a session found is stored, below `n`, of that link and user; none is found only when no such session exists |
| TestService.Engine.Candidates | backend/app/services/test_service.py:206 | at most 1000 base questions are considered |
| TestService.Engine.Approved | backend/app/services/test_service.py:221-224 | at most 100 variants per base are considered |
| TestService.Engine.ApprovedSound | backend/app/services/test_service.py:221-224 | a considered variant is stored, approved and of that base |
| TestService.Engine.CandidateSound | backend/app/services/test_service.py:201-206 | a considered base is stored and on a listed topic |
| TestService.Engine.GenerateQuestionSet | backend/app/services/test_service.py:193-256 | fails on too few candidates, then on too few approved draws; otherwise exactly `total` questions, each from an approved variant of a different base drawn by `random.sample`, in the order of the final shuffle |
| TestService.Engine.AssembleDrawn | backend/app/services/test_service.py:217-245 | the loop yields min(total, drawn bases with a variant) questions, each from an approved variant of a different base drawn by `random.sample` |
| TestService.Engine.DrawAt | backend/app/services/test_service.py:219-242 | a base is skipped iff it has no approved variant; otherwise the question is built from a considered variant |
| TestService.Engine.ExistingOutcome | backend/app/services/test_service.py:127-146 | an unfinished existing session is resumed: its id, the link's question count and time per question, and "Resuming existing test session"; a finished one is refused |
| TestService.Engine.StartTest | backend/app/services/test_service.py:98-190 | the link is validated first; the user is registered; resume or refusal without a use; otherwise a new session at 0 iff a set can be assembled, holding a question set drawn from the link's topics by `random.sample`, with one use counted |
| TestService.Engine.OpenSession | backend/app/services/test_service.py:148-183 | exactly when a question set exists: the new session under the next id, whose questions are a set `_generate_question_set` can return for the link's topics (distinct bases drawn by `random.sample`, approved variants), and the link's use count |
| TestService.Engine.AddSession | backend/app/services/test_service.py:169-183 | the session is stored under the next id, which was free, the next id moves on by one and the link counts one use; the store stays valid |
| TestService.Engine.GetCurrentQuestion | backend/app/services/test_service.py:259-313 | the errors in their order; for an answerable session the result is Ok iff the current variant is stored, and then shows its text, the shuffled options, number = index + 1, total = question count and the remaining time |
| TestService.Engine.SubmitAnswer | backend/app/services/test_service.py:316-426 | refusals change nothing; an accepted answer records one attempt and advances, completing at the last question, else returns the next question |
| TestService.Engine.RecordTabSwitch | backend/app/services/test_service.py:429-438 | a timestamp is appended iff the session exists and is unfinished, as the result reports |
| TestService.Engine.GetSession | backend/app/services/test_service.py:441-462 | not found iff missing; otherwise the whole summary: id, candidate, index, completion, start and completion times, and the counts as the lengths of the stored lists |
| TestService.Engine.AnsweredOnceEach | backend/app/services/test_service.py:370-387 | a session's attempts are for questions 0, 1, … in order: none twice, none skipped, never past the last |
| Results.CountWhere | backend/app/routes/results.py:140-143 | a count never exceeds the attempts |
| Results.AverageTime | backend/app/routes/results.py:145 | 0 without attempts; otherwise average · count = total |
| Results.CountsPartition | backend/app/routes/results.py:140-142 | correct + incorrect + blank = attempts, so a blank attempt is neither incorrect nor unanswered |
| Results.AverageTimeBounded | backend/app/routes/results.py:144-145 | times in [0, m] give a total in [0, m·n] and an average in [0, m] |
| Results.ReadAttempts | backend/app/routes/results.py:136 | at most 100 attempts are read |
| Results.GetResultDetail | backend/app/routes/results.py:112-167 | "Session not found" iff the session is missing |
| Results.DetailOfFigures | backend/app/routes/results.py:139-162 | for any session and attempts read (`FiguresOf`): correct counts the correct attempts, incorrect the wrong ones with a non-empty answer, the rest are blank; auto-submitted counts the flagged ones; total time is the sum of `time_taken`; unanswered = questions − attempts read; score × questions = 100 × correct; average × attempts = total time |
| Results.DetailFigures | backend/app/routes/results.py:139-162 | the stored session's detail: its id, question count and tab-switch count, and `FiguresOf` its first 100 attempts |
| Results.DetailOfConsistentStore | backend/app/routes/results.py:136-147 | on a consistent store all attempts are read, unanswered = questions − index ≥ 0, 0 once completed, score in [0, 100] |
| Results.PageNumber | backend/app/routes/results.py:80 | page ≥ 1 and skip lies within that page |
| Results.CompletedCount | backend/app/routes/results.py:30-31 | a list naming every completed session once is as long as the number of completed sessions |
| Results.ListResults | backend/app/routes/results.py:20-83 | given the completed sessions newest first: total = the number of completed sessions in the store; page and size; `min(limit, rest)` rows, each the summary of the completed session at skip + k; rows newest completion first |
| Results.ListMatchesDetail | backend/app/routes/results.py:59-75 | on a consistent store the list row and the detail agree on correct count, score, question count, tab switches, name, e-mail and completion time |
| Results.CsvHeader | backend/app/routes/results.py:213-228 | 14 text columns |
| Results.Cells | backend/app/routes/results.py:246-261 | a data row has as many fields as the header |
| Results.ExportTable | backend/app/routes/results.py:212-259 | the header, then the row of each listed session, in order |
| Results.ExportCsv | backend/app/routes/results.py:200-261 | given every completed session once: the header, then min(completed sessions, 10000) rows, each a 14-field row of a completed session |
| Results.CsvAgreesWithDetail | backend/app/routes/results.py:239-257 | a CSV row carries the detail's question count, correct count, score, times and counts |
| Results.WithoutSession | backend/app/routes/results.py:104 | exactly the session's attempts go |
| Results.WithoutSessionKeepsOthers | backend/app/routes/results.py:104 | every other session keeps its attempts in order |
| Results.WithoutSessionSubset | backend/app/routes/results.py:104 | nothing is added |
| Results.DeleteKeepsState | backend/app/routes/results.py:103-107 | deleting a session with its attempts keeps the store consistent |
| Results.DeleteResult | backend/app/routes/results.py:86-109 | "Result not found" with nothing changed, or the attempts and then the session removed, nothing else |
| TimerHooks.IdleStaysIdle | frontend/src/hooks/useTimer.js:32-34 | a halted or exhausted countdown never changes and calls nothing |
| TimerHooks.TicksCountDown | frontend/src/hooks/useTimer.js:32-44 | each of the first n−1 ticks takes exactly one second off and calls nothing |
| TimerHooks.ExpiresOnce | frontend/src/hooks/useTimer.js:36-42 | the n-th tick stops at 0 and calls the callback once; later ticks call nothing |
| TimerHooks.ArmedCountdown | frontend/src/hooks/useTimer.js:14-45 | armed with n > 0, exactly n ticks pass before the single expiry |
| TimerHooks.NoTimeNeverExpires | frontend/src/hooks/useTimer.js:33 | armed with s ≤ 0 it claims to run but never ticks or expires |
| TimerHooks.LatestCallbackFires | frontend/src/hooks/useTimer.js:7-12 | expiry calls the callback registered last, not the one present when armed |
| TimerHooks.ResetThenStart | frontend/src/hooks/useTimer.js:27-30 | reset leaves the countdown halted at s; reset then start equals start |
| TimerHooks.PercentageOf | frontend/src/hooks/useTimer.js:55 | percentage · initial seconds = 100 · time left |
| TimerHooks.PercentageBounds | frontend/src/hooks/useTimer.js:55 | in [0, 100] within the initial seconds; 100 iff full; above 100 when armed with more |
| TimerHooks.Countdown.constructor | frontend/src/hooks/useTimer.js:3-7 | starts halted at the initial seconds with the given callback |
| TimerHooks.Countdown.SetOnExpire | frontend/src/hooks/useTimer.js:10-12 | only the callback ref changes |
| TimerHooks.Countdown.Start | frontend/src/hooks/useTimer.js:14-17 | time set and running |
| TimerHooks.Countdown.Stop | frontend/src/hooks/useTimer.js:19-25 | halted, time kept |
| TimerHooks.Countdown.Reset | frontend/src/hooks/useTimer.js:27-30 | halted, time set |
| TimerHooks.Countdown.Tick | frontend/src/hooks/useTimer.js:34-44 | the new state and the callback invoked are those of one tick of the countdown |
| TimerHooks.Installed | frontend/src/hooks/useTimer.js:74-99 | an effect run adds four listeners |
| TimerHooks.Remove | frontend/src/hooks/useTimer.js:102-105 | removing an installed listener drops exactly one, an absent one changes nothing |
| TimerHooks.RemoveTakesOne | frontend/src/hooks/useTimer.js:102-105 | as multisets, removal takes away that one listener only |
| TimerHooks.CleanupRemovesAll | frontend/src/hooks/useTimer.js:101-106 | the cleanup's four removals leave none of the four |
| TimerHooks.KeyFilterCases | frontend/src/hooks/useTimer.js:89-98 | F12, Ctrl+Shift+'I' and Ctrl+'u' are blocked, case-sensitively; without Ctrl only F12 |
| TimerHooks.InstalledBehaviour | frontend/src/hooks/useTimer.js:70-86 | one tab report per hidden-page event iff a session id and callback exist; one history push per back press; the context menu is blocked |
| TimerHooks.AntiCheat.Install | frontend/src/hooks/useTimer.js:68-99 | one history entry pushed and the four listeners of this run installed |
| TimerHooks.AntiCheat.Cleanup | frontend/src/hooks/useTimer.js:101-106 | no listener remains |
| TimerHooks.AntiCheat.Rerun | frontend/src/hooks/useTimer.js:107 | after a dependency change exactly the four listeners of the new run are present: they never accumulate |
| TimerHooks.AntiCheat.VisibilityChanged | frontend/src/hooks/useTimer.js:77-82 | the number of tab reports: one iff hidden with a session id and callback, else none |
| TimerHooks.AntiCheat.PoppedState | frontend/src/hooks/useTimer.js:71-73 | a back press re-pushes the history entry once while mounted |
| TestInterface.ClearStore | frontend/src/pages/candidate/TestComplete.jsx:11-12 | both items are gone and every other item is kept |
| TestInterface.ReadTimePerQuestion | frontend/src/pages/candidate/TestInterface.jsx:19-20 | the time per question read is never 0 |
| TestInterface.StartedStoreReadsBack | frontend/src/pages/candidate/TestLanding.jsx:50-54 | the page reads back the stored session id and the link's time per question (10 for 0) |
| TestInterface.ClearedStoreReadsNothing | frontend/src/pages/candidate/TestComplete.jsx:11-12 | after clearing, no session id is found and the time is the default |
| TestInterface.DetailOr | frontend/src/pages/candidate/TestInterface.jsx:65 | the server's detail when present and non-empty, otherwise the fallback |
| TestInterface.ArmWith | frontend/src/pages/candidate/TestInterface.jsx:57-58 | `time_remaining`, or the time per question when it is 0 |
| TestInterface.Render | frontend/src/pages/candidate/TestInterface.jsx:93-113 | loading screen iff loading; error screen iff not loading with an error; the question otherwise |
| TestInterface.ProgressDots | frontend/src/pages/candidate/TestInterface.jsx:202 | max(0, min(total, 20)) dots |
| TestInterface.DotsLayout | frontend/src/pages/candidate/TestInterface.jsx:202-210 | answered dots for i < number − 1, one current dot at number − 1, the rest upcoming |
| TestInterface.ProgressCoversAll | frontend/src/pages/candidate/TestInterface.jsx:211-215 | the dots plus "+N more" equal the total; the label shows iff not every question has a dot |
| TestInterface.ButtonLabel | frontend/src/pages/candidate/TestInterface.jsx:192 | 'Submit & Finish' iff number = total, else 'Submit & Next' |
| TestInterface.TonesOnlyEscalate | frontend/src/pages/candidate/TestInterface.jsx:130-143 | danger at ≤ 3 s or ≤ 30 %, calm above 5 s or 50 %; as time runs down the colour never calms |
| TestInterface.OptionLetter | frontend/src/pages/candidate/TestInterface.jsx:175 | option `index` is shown as the index-th capital letter |
| TestInterface.Rendered | frontend/src/pages/candidate/TestInterface.jsx:23-27 | as written: a new closure only when `submitting` changes |
| TestInterface.ExpirySends | frontend/src/pages/candidate/TestInterface.jsx:23-27 | corrected: expiry submits iff not submitting, sending the current selection |
| TestInterface.StaleClosureDropsSelection | frontend/src/pages/candidate/TestInterface.jsx:23-27 | as written, a pick made after the closure is lost on expiry, while the corrected rule sends it |
| TestInterface.StaleClosureIgnoresPicks | frontend/src/pages/candidate/TestInterface.jsx:23-27 | as written, no pick made while `submitting` stays false reaches the auto-submit |
| TestInterface.LoadErrorHiddenAsWritten | frontend/src/pages/candidate/TestInterface.jsx:60-66 | as written, a failed load sets the error but stays on the loading screen |
| TestInterface.Controller.constructor | frontend/src/pages/candidate/TestInterface.jsx:44-50 | no session id: redirect to the landing route with nothing sent; otherwise one question request |
| TestInterface.Controller.FetchSucceeded | frontend/src/pages/candidate/TestInterface.jsx:52-59 | question shown, nothing selected, countdown running with `time_remaining` or the fallback |
| TestInterface.Controller.FetchFailed | frontend/src/pages/candidate/TestInterface.jsx:60-66 | corrected (the code as written is `LoadErrorHiddenAsWritten`): the two end-of-test details lead to completion; any other shows the error screen with the detail or the fallback |
| TestInterface.Controller.SelectOption | frontend/src/pages/candidate/TestInterface.jsx:166-167 | the pick is taken unless submitting |
| TestInterface.Controller.HandleSubmit | frontend/src/pages/candidate/TestInterface.jsx:70-76 | no-op while submitting; otherwise submitting, countdown halted, the current selection sent |
| TestInterface.Controller.SubmitClicked | frontend/src/pages/candidate/TestInterface.jsx:188 | as `handleSubmit`; the request sent passes the server's validator for a question with at most four options |
| TestInterface.Controller.TimerTick | frontend/src/pages/candidate/TestInterface.jsx:23-27 | corrected (the code as written is `StaleClosureDropsSelection`): a tick that expires submits the current selection; an expiring countdown means the page was not submitting |
| TestInterface.Controller.SubmitSucceeded | frontend/src/pages/candidate/TestInterface.jsx:77-90 | completion navigates; a next question replaces the question, clears the pick and re-arms; `submitting` is always cleared |
| TestInterface.Controller.SubmitFailed | frontend/src/pages/candidate/TestInterface.jsx:86-90 | error screen with the detail or 'Failed to submit answer'; `submitting` cleared |
| TestInterface.Controller.VisibilityChanged | frontend/src/pages/candidate/TestInterface.jsx:32-40 | one tab-switch log per hidden-page event; nothing else changes |

The invariant `TestInterface.Controller.Valid` holds after every event. While on the
page, it says:
- a load is in flight exactly while `loading`, a submission exactly while `submitting`,
  and never both;
- the countdown is halted during either;
- the question screen always has a question;
- a selection names one of its options;
- every request carries the stored session id.

`TestService.Engine.Valid` keeps links valid, session ids unique per candidate and link,
and each session's attempts exactly for questions 0..index−1.

## Left out

- I/O, the clock and randomness are parameters (see above). MongoDB, FastAPI routing,
  HTTP status codes and the axios layer are not modelled. Errors are `ServiceError`
  values carrying their detail.
- Settings: `QUESTION_TIMER_SECONDS` is a `BaseSettings` field that the environment
  can override (backend/app/config.py:23). The model fixes it at its default, 10.
- Python's `round(…, 2)`, `format_duration`'s `.1f` text and the CSV and JSON text
  encodings: values are exact reals and typed cells.
- JavaScript division by a zero `initialSeconds`: `TimerHooks.PercentageOf` requires a
  non-zero divisor. The page never passes 0, because `ReadTimePerQuestion` is never 0.
- Identifiers: session ids are naturals issued from a counter, standing in for
  `ObjectId`. The identity of a user is the e-mail. `ObjectId.is_valid` and malformed-id
  exceptions are not modelled, and a missing user falls back to the placeholder record.
- Results.ListResults takes the completed sessions, newest completion first, as a
  parameter that must satisfy `CompletedNewestFirst`; Results.ExportCsv takes them in any
  order, under `CompletedOnce`. The database query and sort are not computed.
- `get_session_attempts` (backend/app/routes/results.py:170-197) is a join with variant
  records that computes no statistic; it is not part of this model.
- TimerHooks.AntiCheat keeps its listeners as a sequence in the order they were added,
  because `removeEventListener` removes a registration. `TimerHooks.RemoveTakesOne`
  gives the multiset view.
- TimerHooks.Countdown: `setInterval` and `clearInterval` become explicit `Tick` calls.
  The interval handle is not modelled.
- TestService.Engine: each request runs to completion before the next starts. The
  handlers are `async` and await between reading and writing, so two interleaved
  `start_test` calls could open two sessions for one candidate or count a use past
  `max_uses`, and two interleaved `submit_answer` calls could record two attempts for
  one question. These races are not modelled; `Engine.Valid` and
  `Engine.AnsweredOnceEach` hold for requests served one at a time.
- TestInterface.Controller: React batching, re-render timing and overlapping promises are
  not modelled. Each event runs to completion, and responses arrive only for the request
  in flight (the `requires` of each response event).
- TestInterface.Controller.VisibilityChanged: the tab-switch request's own response is
  swallowed by the source, so it has no event.
- The `JSON.parse` of a corrupted `testConfig` item would throw. The model reads any
  item other than a configuration as missing.
- The auto-submit flag `handleSubmit(true)` carries is never transmitted. The model
  sends the same request as a click.
- Authentication, AI generation, question-bank CRUD, the admin pages and the other
  routes are outside the modelled core.

## Findings

| source | as written | input that shows it | evidently intended | confidence | as-written member | corrected member |
|---|---|---|---|---|---|---|
| frontend/src/pages/candidate/TestInterface.jsx:23-27 | `handleTimeExpire` is memoised on `[submitting]` only. It keeps the `handleSubmit`, and with it the `selectedIndex`, of the render where `submitting` last changed, which is `null` after every load and advance. | Load a question, pick option C (index 2), let the countdown run out: `null` is sent. | Auto-submit sends the option currently selected. | medium, not executed | TestInterface.StaleClosureDropsSelection | TestInterface.Controller.TimerTick |
| frontend/src/pages/candidate/TestInterface.jsx:60-66 | The load's catch sets `error` but never clears `loading`. The render checks `loading` before `error`. | Any load failure other than the two end-of-test details, e.g. detail "Session not found": the page stays on "Loading question..." for good. | The error panel is shown after a failed load. | medium, not executed | TestInterface.LoadErrorHiddenAsWritten | TestInterface.Controller.FetchFailed |

# Smart Study Planner — session state store

A model of the logic under the Streamlit script `app.py` of the Smart Study
Planner: the per-session state store (identity, subjects, topic completion
flags, notes, doubts, study timer) and the rules that update and read it. The
Streamlit calls are left out; what remains is a small deterministic state
machine.

Layout (one module per concern):

- `text.dfy` (`Text`): Python's `str.strip()`, "blank after strip", and
  `str.isdigit()` read over ASCII digits. `strip()` removes the characters for which
  Python's `str.isspace()` holds.
- `progress.dfy` (`Progress`): a subject's topic dict as an insertion-ordered list
  of `Topic(name, done)`, dict item assignment, the completed count, the truncated
  percent, and the overall sums across subjects.
- `suggestions.dfy` (`Suggestions`): the burnout warning and the three progress tiers.
- `timer.dfy` (`StudyTimer`): start, stop and the displayed total, over clock ticks of one whole second.
- `doubts.dfy` (`Doubts`): the space-to-`+` query and the three search links.
- `session_spec.dfy` (`SessionSpec`): the whole store as a value `State`, its
  invariant `Valid`, one transition function per event handler, and the lemmas that
  relate several calls. Login, add-subject, add-topic and save-doubt can be rejected,
  so they return a `Step`: the new state and an `Outcome` (`Accepted` or
  `Rejected(reason)`). The checkbox, the notes box, Start and Stop cannot be
  rejected, so they return the new `State`.
- `session_store.dfy` (`SessionStore`): class `Session` with the script's session
  fields, updated in place. Each mutating method keeps `Valid()` and leaves
  `Snapshot()` equal to the matching `SessionSpec` transition of the old snapshot.
  The progress read-models are loops with invariants, proved against
  `CountDone`, `SumTotal` and `SumDone`.
- `wrappers.dfy` (`Wrappers`): `Option`.

The login gate is a precondition. The script calls `st.stop()` before the dashboard
while logged out (app.py:38-57), so `Login` requires a logged-out session. Every
dashboard operation requires a logged-in one. `Valid` records this too: before
login the state still equals the defaults.

Two behaviours of the code are kept as written:

- Pressing Start while the timer runs restamps the start time instead of doing
  nothing. `RestartDiscardsLiveInterval` shows the time this loses.
- The emptiness test at login is `not name`. A name made only of spaces is accepted.
  Only subject, topic and doubt texts are stripped.

## Model

| member | source | states |
|---|---|---|
| Text.IsSpace | app.py:85 | the whitespace set that `str.strip()` removes (CPython's `str.isspace()` table): it contains space and the C whitespace characters tab to carriage return, and no digit or ASCII letter |
| Text.StripLeft | app.py:85 | the result is the suffix of the input left after removing the leading whitespace; it does not start with whitespace |
| Text.StripRight | app.py:85 | the result is the prefix of the input left after removing the trailing whitespace; it does not end with whitespace |
| Text.Strip | app.py:85 | `str.strip()`, also called at app.py:125 and app.py:256: the result is no longer than the input and neither starts nor ends with whitespace; a text with no whitespace at either end comes back unchanged |
| Text.IsDigitString | app.py:48 | `str.isdigit()`: holds exactly when the text is non-empty and each of its characters is one of `0123456789` |
| Text.Blank | app.py:85 | the rejection test `x.strip() == ""`, used also at app.py:125 and, as `not doubt.strip()`, at app.py:256: the empty text is blank, and a text starting with a visible character is not; `Text.BlankIffAllSpace` gives the full characterisation |
| Text.BlankIffAllSpace | app.py:85 | a text is blank after `strip()` exactly when every character is whitespace, i.e. it has no visible character |
| Progress.HasTopic | app.py:127 | `topic in topics[subject]`: key membership in the insertion-ordered topic list; an empty dict has no key, and the most recently inserted key is present |
| Progress.Assign | app.py:130 | dict item assignment: existing keys keep their positions; the assigned key ends up with the new flag; a new key goes at the end; other entries are unchanged; unique keys stay unique |
| Progress.CountDone | app.py:133-144 | the completed count never exceeds the number of topics |
| Progress.CountDoneAll | app.py:143-144 | the completed count equals the total exactly when every topic is checked |
| Progress.CountDoneNone | app.py:143-144 | the completed count is zero exactly when no topic is checked |
| Progress.CountDoneAppend | app.py:130 | appending a topic adds its own flag to the completed count |
| Progress.CountDoneUpdate | app.py:142 | overwriting one flag changes the completed count by the difference between the new and old flag |
| Progress.Percent | app.py:146-151 | defined exactly when there are topics; then it is the floor of 100·completed/total, so it lies in 0..100 when completed ≤ total |
| Progress.SumTotal | app.py:161-164 | `overall_total`: at least the topic count of every listed subject, and zero with no subjects |
| Progress.SumDone | app.py:163-167 | the overall completed sum never exceeds the overall total |
| Progress.SumsUpdate | app.py:163-167 | replacing one listed subject's dict shifts both sums by that subject's own change; an unlisted subject's dict does not affect them |
| Progress.SumsStep | app.py:163-167 | one more subject in the loop adds its topic count to the total and its completed count to the completed sum |
| Progress.SumsOfOne | app.py:163-167 | with one subject the overall sums are that subject's counts |
| Progress.OverallOf | app.py:160-170 | completed ≤ total; pending = total − completed ≥ 0; the percent exists exactly when total > 0, and is then the floor of 100·completed/total and at most 100 |
| Suggestions.Suggest | app.py:232-244 | the burnout warning fires exactly when daily hours ≥ 10; a tier is produced exactly when there are topics |
| Suggestions.TierByPercent | app.py:235-244 | with topics, exactly one tier fires, decided by the floored percent: below 40 is low, 40 to 74 is good, 75 and up is exam ready |
| Suggestions.TierExamples | app.py:235-244 | 2/10 is low, 5/10 is good, and 8/10 and 1/1 are exam ready; with no topics and 10 hours, only the burnout warning fires |
| StudyTimer.Start | app.py:188-190 | start always sets running and stamps `now`, whether or not the timer was running; the elapsed bank is kept |
| StudyTimer.Stop | app.py:193-196 | when running, stop banks `now − start` and clears running; when stopped, it changes nothing |
| StudyTimer.Read | app.py:198-200 | the displayed total is what a Stop pressed at that moment would bank; it is the bank when stopped, and never below the bank while running on a clock that has not gone back |
| StudyTimer.Minutes | app.py:202 | the whole minutes shown are the floor of the displayed total divided by 60 |
| StudyTimer.StopKeepsReading | app.py:193-200 | stopping does not change the displayed total at that moment; afterwards the display is the bank |
| StudyTimer.StartThenStop | app.py:188-196 | a start at a followed by a stop at b adds exactly b − a to the bank |
| StudyTimer.RestartDiscardsLiveInterval | app.py:188-200 | pressing Start while running, after time has passed, drops the displayed total back to the bank |
| StudyTimer.ElapsedNeverDecreases | app.py:188-196 | for any sequence of Start and Stop presses on a clock that never runs backwards, the bank never decreases |
| Doubts.Query | app.py:268 | the query has the text's length; every space becomes `+` and every other character is unchanged |
| Doubts.LinksFor | app.py:268-274 | each of the three links starts with its fixed URL prefix and is as long as that prefix plus the doubt text |
| Doubts.LinksShareQuery | app.py:268-274 | each of the three links is its fixed URL prefix followed by the same query |
| Doubts.QueryHasNoSpace | app.py:268 | a query contains no space |
| Doubts.QueryIdempotent | app.py:268 | replacing a second time changes nothing |
| Doubts.QueryConcat | app.py:268 | the query of a concatenation is the concatenation of the queries |
| Doubts.QueryWithoutSpace | app.py:268 | text without spaces is its own query |
| Doubts.QueryExample | app.py:268 | "binary search tree" gives the query "binary+search+tree" |
| Doubts.QueryNotInjective | app.py:268-274 | "a b" and "a+b" produce identical links, since `+` is not escaped |
| SessionSpec.Init | app.py:17-29 | the defaults satisfy the store invariant and are logged out |
| SessionSpec.ValidLogin | app.py:46-48 | an identity the form accepts has a non-empty name and college and a ten-character phone |
| SessionSpec.ValidLoginByCharacters | app.py:46-48 | the form accepts an identity exactly when name and college are non-empty and the phone is ten characters, each one of `0123456789` |
| SessionSpec.Login | app.py:45-55 | accepted exactly when name, college and phone are non-empty and the phone is ten digits; rejected as missing details exactly when any field is empty, and as an invalid phone exactly when none is empty but the phone is not ten digits; a rejection changes nothing; acceptance sets the flag and stores the three fields, and changes nothing else |
| SessionSpec.AddSubject | app.py:84-93 | accepted exactly when the name is not blank after strip and not already listed; rejected as blank exactly when it is blank, and as a duplicate exactly when it is not blank but listed; a rejection changes nothing; acceptance appends the name and gives it an empty topic dict and empty notes, and changes nothing else |
| SessionSpec.AddTopic | app.py:124-131 | accepted exactly when the topic is not blank after strip and not already a key of that subject; rejected as blank exactly when it is blank, and as a duplicate exactly when it is not blank but already a key; a rejection changes nothing; acceptance appends it unchecked to that subject's dict alone |
| SessionSpec.SetTopicCompletion | app.py:136-142 | the named topic takes the flag; every other topic, every other subject and the key order are unchanged |
| SessionSpec.SetNotes | app.py:112-116 | the subject's notes become the text; every other subject's notes and the rest of the state are unchanged |
| SessionSpec.SaveDoubt | app.py:255-260 | the raw, untrimmed text is appended exactly when it is not blank after strip; otherwise nothing changes |
| SessionSpec.StartTimer | app.py:188-190 | only the timer changes, by the Start rule |
| SessionSpec.StopTimer | app.py:193-196 | only the timer changes, by the Stop rule |
| SessionSpec.OverallProgress | app.py:160-170 | for a store where every listed subject has a topic dict: completed ≤ total, pending = total − completed ≥ 0, and a percent exactly when total > 0, which is then the floor of 100·completed/total and lies in 0..100 |
| SessionSpec.LoginKeepsValid | app.py:45-55 | login keeps the store invariant; once logged in, the stored identity is one the form accepts |
| SessionSpec.AddSubjectKeepsValid | app.py:84-93 | adding a subject keeps subjects unique and non-blank, and keeps the keys of the topic and note dicts equal to the subject set |
| SessionSpec.NewSubjectKeepsValid | app.py:90-92 | appending a new visible subject with an empty topic dict and empty notes keeps the store invariant |
| SessionSpec.NewTopicKeepsValid | app.py:130 | appending a new visible, unchecked topic keeps a topic dict's names unique and visible |
| SessionSpec.TopicsUpdateKeepsValid | app.py:130-142 | replacing one subject's topic dict by a valid one keeps the store invariant |
| SessionSpec.AddTopicKeepsValid | app.py:124-131 | adding a topic keeps topic names unique and non-blank within each subject |
| SessionSpec.SetTopicCompletionKeepsValid | app.py:136-142 | ticking a checkbox keeps the store invariant |
| SessionSpec.SetNotesKeepsValid | app.py:112-116 | writing notes keeps the store invariant |
| SessionSpec.SaveDoubtKeepsValid | app.py:255-260 | saving a doubt keeps every stored doubt non-blank |
| SessionSpec.TimerKeepsValid | app.py:188-196 | start and stop keep the store invariant |
| SessionSpec.AddSubjectTwice | app.py:84-93 | adding a new subject twice: the first is accepted, the second is a duplicate that changes nothing, and the name is listed exactly once |
| SessionSpec.SetTopicCompletionIdempotent | app.py:142 | setting the same flag twice equals setting it once |
| SessionSpec.SetNotesIdempotent | app.py:112 | writing the same notes twice equals writing them once |
| SessionSpec.SumsAgreeOnSubjects | app.py:163-167 | the overall sums depend only on the listed subjects' dicts |
| SessionSpec.AddSubjectKeepsOverall | app.py:90-92 | adding a subject leaves the overall total and completed count unchanged |
| SessionSpec.AddTopicCounts | app.py:130 | an accepted topic raises the overall total by one and leaves the completed count unchanged |
| SessionSpec.SetTopicCompletionCounts | app.py:142 | ticking or unticking leaves the overall total unchanged and moves the completed count by the change in that flag |
| SessionSpec.ValidCovers | app.py:90-91 | in a valid store every listed subject has a topic dict, so the overall loop never misses a key |
| SessionSpec.AddFirstSubject | app.py:84-93 | in a logged-in store with no subjects, a name with a visible character is accepted and becomes the only subject, with no topics |
| SessionSpec.AddFirstTopic | app.py:124-131 | the first topic with a visible character added to a subject with no topics is accepted and becomes its only topic, unchecked |
| SessionSpec.TickOnlyTopic | app.py:136-170 | ticking the only topic of the only subject keeps the store valid and brings it to 1/1 at 100% |
| SessionSpec.OneCompletedTopic | app.py:169-170 | a store whose single subject has one checked topic is at 1/1, 0 pending, 100% |
| SessionSpec.Scenario | app.py:45-244 | login as Asha, add Math, add Algebra, tick it: all accepted, store valid, overall 1/1 at 100%, and 1 of 1 topics gives the exam-ready tier |
| SessionStore.Session.constructor | app.py:17-33 | a new session holds the defaults |
| SessionStore.Session.Login | app.py:45-55 | updates the fields in place to the `SessionSpec.Login` result and keeps the invariant; accepted exactly when the identity is valid |
| SessionStore.Session.AddSubject | app.py:84-93 | updates the fields in place to the `SessionSpec.AddSubject` result and keeps the invariant |
| SessionStore.Session.SetNotes | app.py:112-116 | updates the fields in place to the `SessionSpec.SetNotes` result and keeps the invariant |
| SessionStore.Session.AddTopic | app.py:124-131 | updates the fields in place to the `SessionSpec.AddTopic` result and keeps the invariant |
| SessionStore.Session.SetTopicCompletion | app.py:136-142 | updates the fields in place to the `SessionSpec.SetTopicCompletion` result and keeps the invariant |
| SessionStore.Session.StartTimer | app.py:188-190 | stamps `now`, sets running, keeps the bank |
| SessionStore.Session.StopTimer | app.py:193-196 | banks the live interval only if running, then clears running |
| SessionStore.Session.SaveDoubt | app.py:255-260 | updates the fields in place to the `SessionSpec.SaveDoubt` result and keeps the invariant |
| SessionStore.Session.SubjectProgress | app.py:133-151 | the counting loop yields the subject's topic count and completed count (≤ total), and the truncated percent exactly when there are topics |
| SessionStore.Session.OverallProgress | app.py:160-167 | the summing loop yields the overall sums, with completed ≤ total and pending = total − completed ≥ 0 |
| SessionStore.Session.ElapsedNow | app.py:198-200 | the displayed total is the bank when stopped, and the bank plus the live interval when running |

## Left out

- Streamlit rendering is not modelled: titles, text, metrics, progress bars, balloons, markdown, dividers, columns, page configuration and widget layout. `st.rerun` and `st.stop` appear only as the login/dashboard split.
- Wall-clock time is not modelled. `time.time()` becomes an integer tick count `now`, passed to the methods that read the clock.
- Timer values are integer ticks of one whole second, not floats. `int(elapsed // 60)` is floor division by 60, which Dafny's `/` is for a positive divisor.
- The fractional seconds that `time.time()` carries are lost. A clock reading becomes a whole second before it reaches the model. For example, a real 59.2-second session shows 0 minutes in the script, but can show 1 minute here if its two readings round to 1 and 60.
- Progress.Percent: computes the exact floor of 100·completed/total. The script computes `int((completed / total) * 100)` in IEEE doubles, which can come out one lower. For example 29/100 gives 28 there and 29 here. Floating point is not modelled.
- Suggestions.Suggest: compares the real ratio by cross-multiplication (100·c < 40·t, 100·c < 75·t). The script's double-precision percent can differ from this only for totals far beyond any session size.
- The exam date picker is not modelled: `exam_date` is never used. Its `min_value` is enforced by the widget.
- The daily-hours slider is not modelled: its 1..12 clamp is enforced by the widget. `daily_hours` is only an argument to `Suggest`.
- `str.isdigit()` is read as ASCII `'0'..'9'`. Python also accepts other Unicode digits, such as superscripts and other scripts' digits.
- Message texts and severities (info, warning, error, success) are not modelled. They appear as `Outcome` and `Reason` values.
- The checkboxes are written back on every render (app.py:136-142). This is modelled as one `SetTopicCompletion` per topic. `SubjectProgress` counts without writing.
- The notes text area is written back on every render (app.py:112-116). This is modelled as `SetNotes`.
- Streamlit widget-key collisions are not modelled. The keys `f"{subject}_{t}"` and `note_{subject}` can clash between different subjects and topics.
- Listing the subjects and numbering the saved doubts on screen is display only and not modelled.

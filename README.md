# FintrexQuiz in Dafny

A model of the logic of the Fintrex quiz application, with proofs about it.
The application has three parts.

- **The quiz session of the `Questionnaire` component**
  (`frontend/src/components/Questionnaire.jsx`). A player starts a quiz and
  gets at most ten questions, drawn from a bank and shuffled. The player
  answers them one at a time, against a six-minute clock. The session is kept
  in browser storage under a key for that player, so a page reload resumes it.
- **The back end's admission and result gate** (`backend/server.js`). The
  store holds one `Player` document per player, and `nic` and `mobile` are
  both unique. `/api/auth/authenticate` signs a player in, registering them
  on first use. `/api/result` records the player's one attempt.
- **The sign-in form's checks** (`frontend/src/components/Auth.jsx`). The
  form trims the inputs and validates the NIC, then the mobile number. Only
  then does it send a request.

Modules, one or two per file:

- `Wrappers` (`option.dfy`): `Option`, for `null` and "no document".
- `Text` (`text.dfy`): JavaScript's `trim`, decimal digits, and the decimal
  text of a number.
- `Validators` (`validators.dfy`): the NIC and mobile regular expressions,
  written as character predicates that follow the shape of each expression.
  `server.js:51-52` and `Auth.jsx:9-10` contain the same two expressions, so
  they are modelled once and both modules use them.
- `Server` (`server.dfy`): each handler is a pure outcome over the store.
  The lemmas are about that outcome. Each handler is also a method of the
  class `PlayerStore`, which updates the record field by field in the
  handler's order. The method's postcondition is the pure outcome.
- `Auth` (`auth.dfy`): `PreValidate`, plus the form as the class `AuthForm`.
- `Shuffle` (`shuffle.dfy`): `shuffleArray`, done in place on an array copy.
  The ghost permutation it returns shows which input position each output
  position came from.
- `Timing` (`timing.dfy`): the remaining time, derived from the start
  timestamp, and the `m:ss` display.
- `Quiz` (`quiz.dfy`): the session as the class `Questionnaire`. Storage is
  the class `LocalStorage`. The invariant `Consistent` is kept by every
  handler.
- `QuizScenarios` (`quiz.dfy`): three scenarios on concrete inputs, verified
  statically. In the first, one question is answered and then submitted
  again. In the second, the clock runs out and then ticks again. In the third,
  a finished quiz is reloaded and resumed.

Inputs from outside are parameters:
- the question bank (the JSON asset);
- the clock, as `now` in milliseconds;
- the random draws of each shuffle, where `draws[i]` is the `j` that
  `Math.floor(Math.random() * (i + 1))` picks at step `i`.

Each dialog ("Correct!/Wrong!", "Time's up!") counts as acknowledged at
once. So `SubmitAnswer` includes the "Continue" step, and `Tick` ends the
quiz itself.

Behaviour of the code worth noting:
- A quiz has `min(10, |bank|)` questions: ten, or the whole bank when it
  holds fewer.
- The winning threshold is written into the code: `score >= 7` on the end
  screen (`Questionnaire.jsx:229`) and `score === 10` in the result handler
  (`server.js:107`). Both rules are kept as written, and
  `Quiz.WinnerRulesDisagree` shows that a score of 7, 8 or 9 is displayed as
  a win but recorded as LOST.
- A restore that does not resume leaves the state as it is. At mount this is
  the initial state.
- The save effect writes only while the quiz has not ended, so no session it
  saves has `quizEnded` set. The restore effect's logout branch for an ended
  session is therefore never reached for a session this component saved. A
  reload after the last answer resumes the last session saved in progress,
  and the last question can be answered again
  (`QuizScenarios.FinishedQuizResumes`). In the code, that session is saved
  while the "Continue" dialog is open, so it already holds the last answer.
  Answering again adds a second entry for the same question, and a correct
  answer counts twice. In the model, the answer is appended and the index
  moves on in one step, so the resumed session lacks the last answer.
- The timer's guard `!quizStartTimestamp` is also true for a timestamp of 0.
  In the code, a quiz started at time 0 never ticks, and a restored
  timestamp of 0 is replaced by `now` (`Quiz.Truthy`).

## Model

| member | source | states |
|---|---|---|
| `Text.Trim` | frontend/src/components/Auth.jsx:16-18 | the trimmed string is a contiguous part of the input; only whitespace lies outside it; it neither starts nor ends with whitespace |
| `Text.TrimIdempotent` | frontend/src/components/Auth.jsx:16-18 | trimming a trimmed string changes nothing |
| `Text.TrimKeeps` | frontend/src/components/Auth.jsx:16-18 | a string with no whitespace at either end is its own trim |
| `Text.NatToString` | frontend/src/components/Questionnaire.jsx:214 | a non-negative number renders as at least one decimal digit, with no leading zero |
| `Text.ParseNatToString` | frontend/src/components/Questionnaire.jsx:214 | reading the decimal text of `n` back gives `n` |
| `Validators.DigitsMeans` | backend/server.js:51-52 | `[0-9]{n}` matches exactly the strings of `n` decimal digits |
| `Validators.IsValidNic` | backend/server.js:51 | true exactly for 9 digits followed by one of `v V x X`, or for 12 digits |
| `Validators.IsValidMobile` | backend/server.js:52 | true exactly for `07` followed by 8 digits, 10 characters in all |
| `Validators.ValidNicIsTrimmed` | frontend/src/components/Auth.jsx:16-23 | a valid NIC is unchanged by trimming |
| `Validators.ValidMobileIsTrimmed` | frontend/src/components/Auth.jsx:16-27 | a valid mobile number is unchanged by trimming |
| `Validators.NicExamples` | backend/server.js:51 | `123456789V` passes; `12345`, `12345678V` and `123456789A` fail |
| `Validators.MobileExamples` | backend/server.js:52 | `0712345678` passes; `123456789`, `0812345678` and `071234567X` fail |
| `Server.NewPlayer` | backend/server.js:83 | a new document has the given NIC, name and mobile and the schema defaults of lines 41-43: score 0, status LOST, not played |
| `Server.RecordedStatus` | backend/server.js:107 | WON exactly for a score of 10 |
| `Server.FindFirst` | backend/server.js:69 | `findOne` gives the first record in store order that matches the query, or none when no record matches |
| `Server.AuthenticateOutcome` | backend/server.js:64-87 | the reply is 200, 400, 403 or 409; 400 exactly for a bad NIC or mobile, with the NIC message when the NIC is bad; any rejection leaves the store as it was; 200 carries a record with the request's keys that has not played; no record changes its keys, score, status or played flag; a name changes only to a non-empty trimmed name; either the store is unchanged, or the new default record is appended, or exactly one record is replaced by the one the reply carries |
| `Server.AuthenticateKeepsUnique` | backend/server.js:69-85 | after authentication, `nic` and `mobile` are still unique |
| `Server.AuthenticateConflict` | backend/server.js:69-74 | on a store with unique keys, 409 is returned exactly when some record matches one key of the request but not the other, whichever record `findOne` returns |
| `Server.AuthenticateAlreadyPlayed` | backend/server.js:75-77 | on a store with unique keys, 403 is returned exactly when the record with both keys has played |
| `Server.AuthenticateCreates` | backend/server.js:82-85 | a record is added exactly when neither key is known; it has the trimmed name, score 0, status LOST, and played false |
| `Server.AuthenticateRenames` | backend/server.js:78-81 | a returning player who has not played gets 200; their stored name becomes the trimmed name exactly when that is non-empty, and every other record stays as it was |
| `Server.ResultOutcome` | backend/server.js:100-118 | the reply is 200, 400, 403 or 404; 400 exactly for a bad NIC or a score outside 0..10; 404 exactly when no record has the NIC; any rejection leaves the store as it was; on 200 the reply is a record with the NIC, the score, WON exactly when the score is 10, and played true; only one record changes, it had that NIC and had not played, and it becomes the record the reply carries |
| `Server.ResultAccepts` | backend/server.js:108-118 | on a store with unique keys, a valid result for a stored NIC gets 403 exactly when that player has played; otherwise it gets 200, the reply carries the updated record, and only that record changes: it takes the score, WON exactly for 10, and played true |
| `Server.ResultRetryRejected` | backend/server.js:97-116 | after a result is accepted, a retry gets 403 and the first score stays |
| `Server.FindFirstSameKeys` | backend/server.js:108 | updating one record without touching its NIC keeps it as the first NIC match |
| `Server.PlayedIsFinal` | backend/server.js:75-84 | neither handler clears `played`, or changes the score or status of a record that has played |
| `Server.PlayerStore.Authenticate` | backend/server.js:62-95 | the handler's reply and new store are those of `AuthenticateOutcome`, and unique keys are kept |
| `Server.PlayerStore.RecordResult` | backend/server.js:98-123 | the handler's reply and new store are those of `ResultOutcome`, and unique keys are kept |
| `Auth.PreValidate` | frontend/src/components/Auth.jsx:12-27 | a request is sent exactly when the trimmed NIC and the trimmed mobile number are both valid; a refusal always carries a non-empty error; the request carries the trimmed NIC, name and mobile number |
| `Auth.NicCheckedFirst` | frontend/src/components/Auth.jsx:20-27 | with a bad NIC the error is the NIC error, whatever the mobile number; the mobile error appears exactly when the NIC passes and the mobile number fails |
| `Auth.SentRequestsPassServerFormat` | frontend/src/components/Auth.jsx:33 | for any request the form sends, the server never replies 400 |
| `Auth.WhitespaceIgnored` | frontend/src/components/Auth.jsx:16-18 | surrounding whitespace in the inputs does not change the outcome |
| `Auth.AuthForm.constructor` | frontend/src/components/Auth.jsx:4-7 | all three inputs and the error start empty |
| `Auth.AuthForm.SetNic` | frontend/src/components/Auth.jsx:73 | the NIC input takes the typed value |
| `Auth.AuthForm.SetName` | frontend/src/components/Auth.jsx:82 | the name input takes the typed value |
| `Auth.AuthForm.SetMobile` | frontend/src/components/Auth.jsx:91 | the mobile input takes the typed value |
| `Auth.AuthForm.HandleSubmit` | frontend/src/components/Auth.jsx:12-33 | on a refusal, the form's error is set and no request is returned; otherwise the error is cleared and the request body is returned |
| `Shuffle.SwapKeepsPermutation` | frontend/src/components/Questionnaire.jsx:9 | swapping two entries of a permutation gives a permutation |
| `Shuffle.Swap` | frontend/src/components/Questionnaire.jsx:9 | the array becomes its old contents with two positions exchanged |
| `Shuffle.ShuffleArray` | frontend/src/components/Questionnaire.jsx:5-12 | the result has the input's length and multiset, and each position holds the input element at `perm[k]`, where `perm` is a permutation |
| `Timing.Remaining` | frontend/src/components/Questionnaire.jsx:121-124 | for `now >= start` at most 360 seconds are left; no time is left exactly when 360000 ms or more have passed |
| `Timing.RemainingCountsWholeSeconds` | frontend/src/components/Questionnaire.jsx:121-122 | the time left is 360 minus the whole seconds elapsed |
| `Timing.RemainingMonotone` | frontend/src/components/Questionnaire.jsx:121-122 | a later tick never shows more time left |
| `Timing.FormatTime` | frontend/src/components/Questionnaire.jsx:211-215 | for `s >= 0` the display is the minutes as decimal text, a colon, and a two-digit field whose digits read back as `s % 60` |
| `Timing.SecondsField` | frontend/src/components/Questionnaire.jsx:214 | the padded seconds are two digits, the first at most 5, and they read back as the seconds |
| `Timing.FormatTimeShape` | frontend/src/components/Questionnaire.jsx:211-215 | for `s >= 0` the display is the minutes' digits, a colon and two digits of seconds below 60, with `m * 60 + ss == s` |
| `Timing.FormatTimeRoundTrip` | frontend/src/components/Questionnaire.jsx:211-215 | reading the display back gives `s` |
| `Timing.FullDurationDisplay` | frontend/src/components/Questionnaire.jsx:14 | the full duration displays as `6:00` |
| `Quiz.StorageKey` | frontend/src/components/Questionnaire.jsx:27 | the key ends with the NIC, so different players get different keys, and no session key is the player record's key |
| `Quiz.CountCorrect` | frontend/src/components/Questionnaire.jsx:244-245 | at most one correct answer per answer given |
| `Quiz.CountCorrectAppend` | frontend/src/components/Questionnaire.jsx:168-173 | appending an answer raises the count by one exactly when that answer is correct |
| `Quiz.IsWinner` | frontend/src/components/Questionnaire.jsx:229 | a win exactly from 7; every score the result handler records as WON is a win |
| `Quiz.WinnerRulesDisagree` | frontend/src/components/Questionnaire.jsx:229 | the end screen wins from 7; a score of 7, 8 or 9 is shown as a win but the result handler records LOST; every recorded win is shown as a win |
| `Quiz.Revived` | frontend/src/components/Questionnaire.jsx:66-75 | questions, index, score and answers come back as saved; the session is in progress; a truthy timestamp, a non-zero time left and a non-empty selection are kept; otherwise the timestamp becomes `now`, the time left becomes 360 and the selection becomes `null` |
| `Quiz.RevivedIdempotent` | frontend/src/components/Questionnaire.jsx:66-75 | after one resume no default applies: resuming the result again gives it back unchanged |
| `Quiz.RevivedIsSaved` | frontend/src/components/Questionnaire.jsx:66-75 | a record saved in progress is resumed unchanged exactly when none of the `||` defaults applies (truthy timestamp, non-zero time left, non-empty selection) |
| `Quiz.RevivedConsistent` | frontend/src/components/Questionnaire.jsx:66-75 | resuming a consistent record gives a consistent session in progress |
| `Quiz.LocalStorage.SetItem` | frontend/src/components/Questionnaire.jsx:99 | the key is bound to the value; every other key is unchanged |
| `Quiz.LocalStorage.RemoveItem` | frontend/src/components/Questionnaire.jsx:156-157 | the key is gone; every other key is unchanged |
| `Quiz.Questionnaire.constructor` | frontend/src/components/Questionnaire.jsx:29-40 | the start screen, with nothing drawn, score 0 and the full time |
| `Quiz.Questionnaire.StartQuiz` | frontend/src/components/Questionnaire.jsx:191-209 | `min(10, |bank|)` questions from distinct bank positions; each keeps its text and answer, and its options are a permutation of the bank's; the index, score, answers and selection are reset; the time left is 360 and the start timestamp is `now`; the quiz is in progress |
| `Quiz.Questionnaire.SelectOption` | frontend/src/components/Questionnaire.jsx:318 | only the selected option changes |
| `Quiz.Questionnaire.SubmitAnswer` | frontend/src/components/Questionnaire.jsx:162-189 | does nothing once the quiz has ended, with no selection, or with no current question; otherwise it appends exactly one `{question, selected, correct}` entry and adds 1 to the score exactly when the answer is correct; after the last question the quiz ends, and otherwise the index moves on by one and the selection is cleared; the invariant is kept, so the score is always the number of correct entries |
| `Quiz.Questionnaire.Tick` | frontend/src/components/Questionnaire.jsx:115-135 | does nothing on the start screen, after the end, or without a truthy timestamp; otherwise it shows the time left derived from the timestamp, or shows 0 and ends the quiz once no time is left; for `now >= start` the time left shown is within 0..360 |
| `Quiz.Questionnaire.HandleLogout` | frontend/src/components/Questionnaire.jsx:155-159 | the session key and the player key are removed from storage; nothing else changes |
| `Quiz.Questionnaire.Save` | frontend/src/components/Questionnaire.jsx:86-100 | while the quiz has not ended, the full state is written under the player's key; after the end, storage is untouched |
| `Quiz.Questionnaire.Restore` | frontend/src/components/Questionnaire.jsx:60-83 | a resumable saved session (not ended, with questions) sets the state with the `||` defaults; one that has ended removes the session and player keys; no value, a malformed value, or a session with no questions changes nothing |
| `Quiz.ReloadPage` | frontend/src/components/Questionnaire.jsx:60-100 | saving a consistent session in progress and restoring it into a new component for the same player gives the same state, when the session has questions and no `||` default applies (a truthy timestamp and a selection that is not empty) |
| `QuizScenarios.SingleQuestionRun` | frontend/src/components/Questionnaire.jsx:162-189 | one question answered correctly gives score 1 and one answer, and a second submission after the end adds nothing |
| `QuizScenarios.TimeRunsOut` | frontend/src/components/Questionnaire.jsx:119-134 | one millisecond before six minutes 1 second is left; at six minutes 0 is shown and the quiz ends; a later tick changes nothing |
| `QuizScenarios.FinishedQuizResumes` | frontend/src/components/Questionnaire.jsx:60-100 | a quiz that ended with score 0 is resumed by a reload, and its last question then scores 1 |

## Left out

- Network calls are left out. This covers loading the question bank
  (`Questionnaire.jsx:43-57`) and posting the result to the back end
  (`Questionnaire.jsx:143-153`). It also covers the form's authenticate
  request and its reply handling (`Auth.jsx:29-48`): storing the player and
  showing the server's message or "Server not reachable". The bank is a
  parameter, and the server's side is the `Server` module.
- The dialogs are left out: they count as acknowledged at once. A second
  submit while the "Continue" dialog is open would append a second answer;
  that interleaving is not modelled. The save effect also runs while each
  dialog is open, and those saves are not modelled either. In the code:
  - After an answer, the answer is already appended and counted
    (`Questionnaire.jsx:168-173`), but the index moves on only once the
    dialog closes (`Questionnaire.jsx:180-187`). So the code saves a session
    in progress that holds the answer, with the index not yet advanced.
  - On timeout, `timeLeft` is set to 0 before the "Time's up!" dialog
    (`Questionnaire.jsx:125-131`). So the code saves a session in progress
    with `timeLeft` 0, which a restore turns into 360
    (`Questionnaire.jsx:73`).
  The model's `SubmitAnswer` and `Tick` run to completion, so neither state
  is ever saved.
- React scheduling is left out: rendering, `useEffect` ordering, and
  `setInterval`/`clearInterval`. `Save` and `Tick` are explicit methods that
  the caller invokes.
- A mount is not one member. In the code, the restore effect
  (`Questionnaire.jsx:60-83`) and the save effect
  (`Questionnaire.jsx:86-99`) both run after the first render, and that save
  sees the initial state. A second save follows only when the restore
  resumed a session, and it rewrites the key with that session. On every
  other branch, the mount's one save is the last write, and it stores the
  start-screen state under the session key: where there is no value, text
  that does not parse, or a session with no questions. That includes a
  session that had ended: `handleLogout` removes the key
  (`Questionnaire.jsx:76-77`, `155-157`), and the key is present again after
  the mount. The model reproduces this when a mount is written as
  `new Questionnaire(nic)`, then `Restore(storage, now)`, then
  `Save(storage)`.
- `Math.random` and `Date.now` are replaced by the `draws` and `now`
  parameters. The options of the k-th drawn question use `optionDraws[k]`.
- JSON is not modelled. A stored value is either a complete, well-typed saved
  session or unparsed text (`RawItem`). A JSON object with missing or
  ill-typed fields is not modelled beyond the `||` defaults.
- The component's check for a missing player (`Questionnaire.jsx:21-25`), the
  `onLogout` callback, and `App.jsx` are wiring, and are left out.
- The Express, CORS and mongoose set-up, `/health`, the 500 handler, and
  document timestamps are left out.
- The duplicate-key error 11000 (`server.js:89-90`) is left out. The store
  is sequential, with unique keys as an invariant, and under that invariant
  `AuthenticateKeepsUnique` shows that no insert can collide. Concurrent
  requests are not modelled.
- `/api/winners` and `/api/losers` (`server.js:126-134`) are left out: they
  are sorted queries with no logic of their own.
- Request bodies always have string `nic`, `name` and `mobile` and an
  integer `score`. A missing `name` is the empty string. The
  `typeof score !== "number"` check is not modelled. In the code, a
  fractional score such as 9.5 passes the range check; the model's integer
  score cannot express that.
- `Server.FindFirst`: the documents' natural order is modelled as the store's
  sequence order, and MongoDB does not promise that order. Under unique keys,
  `AuthenticateConflict` and `AuthenticateAlreadyPlayed` show that the reply
  does not depend on it.
- `Quiz.Questionnaire.Restore`: it ensures the invariant only for a saved
  record that was itself consistent. A tampered record is restored as it is,
  as in the code.
- An empty question bank: `StartQuiz` then gives a session in progress with
  no questions, and `Consistent` allows that state. The component then fails
  while rendering the missing current question (`Questionnaire.jsx:298`,
  `Questionnaire.jsx:311`). Rendering is not modelled, so that failure is not
  modelled either.

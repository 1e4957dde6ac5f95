# EdTech Mastery LAN quiz: a Dafny model of the game core

EdTech Mastery LAN is a local-network classroom quiz. Teachers join from their phones, the
presenter drives the game from an admin panel, and a Node.js/socket.io server keeps one
in-memory game state. This project models three parts of it:

- The server's game session (`server.js`): the phases lobby, waiting_answer, revealed and
  ended, and the handlers for join-game, submit-answer, admin-start-game,
  admin-next-question, admin-reveal-answer, admin-restart and disconnect.
- Server-side scoring, the per-question countdown, the leaderboard, and the per-question
  and per-category statistics.
- The player client's answer gate, score tracking, reveal verdict and level
  (`public/js/client.js`), and the fixed 23-question bank (`public/js/questions.js`).

Layout, one module per file:

| file | module | what it holds |
|---|---|---|
| `options.dfy` | `Options` | `Option`, standing in for JavaScript's `null`/absent |
| `ordered_map.dfy` | `OrderedMaps` | an insertion-ordered map: the JavaScript `Map` of players and answers |
| `text.dfy` | `Text` | `String.prototype.trim` and `toLowerCase` as the name checks use them |
| `questions.dfy` | `Questions` | the question bank and its well-formedness facts |
| `scoring.dfy` | `Scoring` | `getRemainingTime`, the points formula, and the player record with its answer log |
| `stats.dfy` | `Stats` | what `getQuestionStats` and `calculateCategoryStats` should report |
| `leaderboard.dfy` | `Leaderboard` | `getPlayersList`: the entries sorted by score, stably |
| `messages.dfy` | `Messages` | the phases and the events the server emits |
| `timer.dfy` | `Timer` | the `setInterval` countdown of `sendQuestion`, as a value with a `Tick` |
| `session.dfy` | `Session` | the `gameState` object (class `Session`), its handlers, its loops, and the interval object (class `RoundTimer`) |
| `client.dfy` | `Client` | `EdTechClient` (class), the answer gate as a step function, verdict and level |
| `scenarios.dfy` | `Scenarios` | whole games driven through the handlers, with what is emitted |

How the code is modelled:

- `gameState` is a class whose methods reassign its fields. Its `Valid()` invariant
  covers the following, and every handler keeps it:
  - Each stored player is filed under its own id.
  - Each player's counters (`correctAnswers`, `streak`, `bestStreak`) equal functions of
    its answer log.
  - Each log names each question at most once, in increasing order, and none after the
    open question. It names the open question only once the player's answer to it is
    stored. So logs name only bank questions.
  - Answers come only from joined players.
  - Phase and flag agree: a game is started exactly when the phase is not the lobby.
  - The game ends only on the last question.
- The `forEach` loops become `for` loops with invariants, each proved equal to a
  specification function:
  - the score reset of admin-start-game (`ResetAll`);
  - `getQuestionStats`, which counts into a four-element `array`;
  - the two passes of `calculateCategoryStats`.
- Communication is plain data. Each handler returns the events it emits, each addressed
  to one audience: the requester, everyone, or the admin room.
- The clock `Date.now()` becomes a parameter.
- The countdown interval is an object armed by `sendQuestion`. Each firing is a `Tick`
  that reads the session's status and question index.

The code differs from a plain reading of its own intent in places. The model follows the
code:

- `getRemainingTime` ignores when the question was sent. It computes
  `30 - floor(now / 1000) mod 31` from the wall clock alone (`Scoring.RemainingTimeCycles`).
  Points and the late-join snapshot use that value.
- Names that differ only in case are refused only while a game is started. In the lobby
  they are accepted (`Scenarios.DuplicateNames`).
- The duplicate check compares the name as sent (server.js:67-68), but the stored name is
  trimmed (server.js:78). Once a game is started, " Ana" still joins beside a stored "Ana"
  and is then stored as "Ana" too (`Scenarios.PaddedDuplicateAdmitted`).
- The server keeps accepting answers after time-up until the admin reveals. Only the
  client's gate stops a player from answering late.
- A countdown is not invalidated by a restart. Its guard compares only the phase and the
  question index. An interval that did not fire while the game was elsewhere resumes when
  a new game is back on its question (`Timer.StaleTimerGuard`,
  `Scenarios.StaleTimerSurvivesRestart`).
- `sendQuestion` does not send `totalQuestions`, so the client falls back to 23.
- Neither new-question payload (server.js:103-108 and 322-329) carries `options`. The client
  builds its buttons from `data.options || []` (public/js/client.js:257), so it shows no
  button and no click event can come from the page. The gate models clicks as they would
  arrive if buttons were shown.

## Model

| member | source | states |
|---|---|---|
| `Text.TrimSlice` | server.js:61 | what `trim` keeps is one contiguous slice of the name; everything cut from either end is whitespace, and the result neither starts nor ends with whitespace |
| `Text.TrimEmptyIffBlank` | server.js:61 | a name trims to `''` exactly when it is all whitespace |
| `Text.TrimIdempotent` | server.js:78 | trimming the stored name again changes nothing |
| `Session.MissingNameIffBlank` | server.js:61-64 | a name is refused as missing exactly when it is absent or all whitespace |
| `Session.JoinCheck` | server.js:58-73 | a missing or blank name is rejected with the required-name message; a name equal, ignoring case, to a stored player's name is rejected with the duplicate message only while a game is started; and, as an if-and-only-if, anything else is admitted under its trimmed, non-empty name |
| `Session.LateJoinQuestion` | server.js:99-110 | a joining player is sent the open question, at most once, exactly when the game is started and the phase is waiting_answer |
| `Session.DeleteKeepsOk` | server.js:286-287 | deleting a player's record and pending answer together keeps both maps well formed, every answer from a joined player and every other log fitting |
| `Session.OneEntryPerQuestion` | server.js:123-146 | in a log that fits the open question, no two entries name the same question, none names a later question, and the open question is named only if the player's answer to it is stored |
| `Session.RecordKeepsSessionOk` | server.js:123-163 | recording the answer of a joined player with no answer stored, to the open question, keeps both maps well formed, every stored answer from a joined player, and every log fitting: the new entry names the open question, which the player's log did not name before |
| `Session.JoinKeepsOk` | server.js:77-87 | registering a player under its own id with zeroed counters and an empty log keeps both maps well formed and every log fitting; every other player is untouched |
| `Session.AdvanceKeepsOk` | server.js:237-240 | moving to the next question and clearing the stored answers keeps every log fitting |
| `Session.ClearedLogsOk` | server.js:209-220 | players reset to empty logs, with no answers stored, fit any open question |
| `Session.LogsInBank` | server.js:141-146 | when the invariant holds for a question of the bank, the logs a question of the bank name only questions of the bank |
| `Session.Session.constructor` | server.js:27-33 | the initial game state: lobby, question 0, no players, no answers, the invariant established |
| `Session.Session.Join` | server.js:58-113 | a rejected join changes nothing and emits only the error; an admitted one stores a zeroed player under the trimmed name, keeping its place if the connection had joined before, with specialty defaulting to 'No especificada'; it emits join-success, the roster and count, and the late-join question; the invariant is kept |
| `Session.Session.SubmitAnswer` | server.js:116-182 | an answer from an unknown connection, outside waiting_answer, or a second answer to the same question changes nothing and emits nothing; otherwise the answer and the updated record are stored and the acknowledgement and admin notice are emitted with the new counts; when scoring and acknowledgement use the same clock reading, the acknowledged points are exactly what the score gained |
| `Session.Session.Record` | server.js:129-163 | the stored answer and log entry, and the player's record updated by the scoring rules for the remaining time it is given (`SubmitAnswer` gives it the helper's value at the same instant) |
| `Session.Session.StartGame` | server.js:205-226 | once a game is started this does nothing; otherwise it moves to question 0 in waiting_answer, clears the answers, resets every player's counters and log while keeping their order and identity, emits game-started and question 0 with 30 seconds, and arms a fresh countdown for question 0 |
| `Session.ResetAll` | server.js:214-220 | the loop leaves every player in place with `ResetPlayer` applied and no player added or removed |
| `Session.Session.SendQuestion` | server.js:315-329 | a bank index is broadcast with 30 seconds and gets a freshly armed countdown; an index past the bank emits nothing and arms nothing |
| `Session.Session.NextQuestion` | server.js:229-243 | before a game starts this does nothing; past the last question the game ends with the results broadcast; otherwise the next question opens with its answers cleared and its countdown armed |
| `Session.Session.EndGame` | server.js:392-405 | the phase becomes ended and the ranking, the bank size and the category statistics go to everyone and to the admins |
| `Session.Session.RevealAnswer` | server.js:246-261 | outside waiting_answer this does nothing; otherwise the phase becomes revealed and everyone receives the correct index with the statistics of the current answers |
| `Session.Session.Restart` | server.js:264-275 | from every phase: back to the lobby at question 0 with no players and no answers, emitting game-restarted and an empty roster |
| `Session.Session.Disconnect` | server.js:281-296 | an unknown connection changes nothing; a player's record and pending answer are deleted, every other player is untouched, and the new roster is broadcast |
| `Session.Session.QuestionStats` | server.js:370-390 | the report equals `StatsOf` of the answers in insertion order: total, correct plus wrong equal to the total, and the four option buckets adding up to at most the total |
| `Session.TallyAnswers` | server.js:378-387 | the loop's right and wrong counts and its four option buckets equal the counts over the whole answer list |
| `Session.Session.CategoryStats` | server.js:407-428 | the two loops produce exactly `CategoryStatsOf`: one entry per category of the bank, its question count, and the players' correct answers to its questions |
| `Session.TallyTotals` | server.js:410-415 | the first pass creates an entry for each category in the bank, holding its number of questions |
| `Stats.TotalsSnoc` | server.js:411-414 | one more question adds one to its category's total, creating the category's entry the first time it occurs |
| `Session.TallyCorrect` | server.js:419-424 | the second pass for one log adds, per category, the correct entries that answer a bank question of that category |
| `Session.RoundTimer.constructor` | server.js:332 | a new countdown is armed for its question with 30 seconds |
| `Session.RoundTimer.Tick` | server.js:333-348 | one firing of the interval object is exactly `Timer.Tick` of its state against the session's phase and index |
| `Timer.Tick` | server.js:333-348 | a stale or exhausted timer clears itself and emits nothing; a live one emits its time left, counts down by one, and emits time-up exactly when the update was for 1 |
| `Timer.RunLive` | server.js:333-348 | a live timer kept on its question emits its time left down to 1, one value per firing, then time-up once, then nothing |
| `Timer.RunSilent` | server.js:334-338 | a cleared or exhausted timer never emits again |
| `Timer.FreshTimerCountdown` | server.js:332-348 | a freshly armed timer emits 30, 29, ..., 1 and then time-up once |
| `Timer.StaleTimerGuard` | server.js:334-336 | a firing while the session is elsewhere clears the timer and silences it for good |
| `Scoring.RemainingTime` | server.js:353-356 | the helper's value is between 0 and 30 |
| `Scoring.RemainingTimeCycles` | server.js:353-356 | the helper depends only on the clock second, repeats every 31 seconds, and equals `30 - (now div 1000) mod 31` |
| `Scoring.Points` | server.js:156-159 | the integer points equal `Math.round((100 + max(0, t) * 2) * multiplier)`, where the multiplier is 1.2 from a streak of 3 |
| `Scoring.PointsRange` | server.js:156-159 | with 0 to 30 seconds left a correct answer earns 100 to 192 points, and at most 160 without the streak bonus |
| `Scoring.PointsMonotone` | server.js:156-159 | more time left or a longer streak never earns fewer points |
| `Scoring.PointsExamples` | server.js:156-159 | 144 points for 10 seconds at streak 3, 150 for 25 seconds at streak 1, 100 for no time |
| `Scoring.ResetPlayer` | server.js:214-220 | a reset player satisfies the log invariant |
| `Scoring.RecordAnswer` | server.js:141-163 | the entry is appended to the log; a wrong answer ends the streak and leaves the score; a correct one extends the streak and the correct count, raises the best streak if exceeded, and adds the points for the new streak; the log invariant is kept |
| `Scoring.UpToAgree` | server.js:141-163 | the counters over a prefix of the log depend on that prefix only, so appending an entry changes them only at the end |
| `Scoring.TrailingRunSpec` | server.js:148-163 | over any prefix of the log, and so for the whole log the streak counter follows, the trailing run is all correct and is preceded by a wrong answer or by the start of the log |
| `Scoring.LongestRunSpec` | server.js:151-153 | over any prefix, and so for the whole log, the best-streak counter is the length of a run of consecutive correct answers inside it and no such run is longer |
| `Scoring.ConsistentBounds` | server.js:148-153 | in a consistent record, streak ≤ best streak ≤ correct answers ≤ answers given |
| `Stats.StatsOf` | server.js:370-390 | correct plus wrong equals the number of responses, and the buckets add up to at most that |
| `Stats.CorrectPlusWrong` | server.js:379-383 | every answer is counted once, as correct or as wrong |
| `Stats.DistributionBounded` | server.js:384-386 | the four buckets never exceed the number of answers, and equal it when every index is 0 to 3 |
| `Stats.CategoryCorrectTotals` | server.js:418-425 | summed over the four categories, the per-category correct counts equal the players' correct answers |
| `Stats.CategoryTotalsCoverBank` | server.js:410-415 | the statistics have exactly the four categories and their totals add up to the 23 questions |
| `Stats.CategoryStatsOf` | server.js:407-428 | the reported categories are the categories of the bank |
| `Leaderboard.SortByScore` | server.js:303-313 | the ranking is sorted by non-increasing score and is a permutation of the entries |
| `Leaderboard.InsertPermutes` | server.js:312 | inserting an entry adds exactly that entry |
| `Leaderboard.InsertSorted` | server.js:312 | inserting into a sorted ranking keeps it sorted |
| `Leaderboard.SortIsStable` | server.js:312 | players with equal scores keep their join order, as with the stable `Array.prototype.sort` |
| `Leaderboard.PlayersList` | server.js:303-313 | the roster has one entry per player, sorted by score, a permutation of the players' entries |
| `Leaderboard.PlayersListMembers` | server.js:303-311 | an entry is on the roster exactly when it is the entry of a stored player |
| `Questions.BankSize` | public/js/questions.js:7-368 | the bank has 23 questions |
| `Questions.BankIdsInOrder` | public/js/questions.js:7-368 | question `i` has id `i + 1` |
| `Questions.BankWellFormed` | public/js/questions.js:7-368 | every question has four options and a correct index among them, so every lookup the server makes is in range |
| `Questions.BankCategoryBlocks` | public/js/questions.js:8-368 | the categories come in contiguous blocks of 5, 5, 5 and 8 |
| `Questions.BankCategoryCounts` | public/js/questions.js:8-368 | the bank holds 5, 5, 5 and 8 questions of the four categories |
| `Questions.CategoryCountsSum` | public/js/questions.js:13 | every question belongs to exactly one category, so the per-category counts add up to the number of questions |
| `Questions.BankHasFourCategories` | public/js/questions.js:8-368 | exactly the four categories occur |
| `Questions.CategoryNamesDistinct` | public/js/questions.js:13 | distinct categories have distinct labels, so keying statistics by label is keying by category |
| `Client.JoinRequest` | public/js/client.js:202-219 | a typed name is trimmed and sent unless it is all whitespace; a picked name is sent as it is unless it is empty; the specialty sent is 'Docente' |
| `Client.TypedNameAgreesWithServer` | public/js/client.js:202-219 | for a typed name, the client sends nothing exactly when the server would call the name missing, and what it sends the server stores unchanged |
| `Client.BlankPickedNameReachesServer` | public/js/client.js:203-204 | a picked name made only of whitespace gets past the client and is refused by the server |
| `Client.GateStep` | public/js/client.js:235-241 | new-question re-arms the gate; a click sends its index exactly when the gate is open, and closes it; time-up closes it; the gate's invariant is kept |
| `Client.AtMostOneSubmitPerQuestion` | public/js/client.js:296-302 | between two new-question events at most one answer is sent, none once the gate is closed, and the gate remembers the answer sent |
| `Client.TimeUpClosesGate` | public/js/client.js:328-332 | after time-up nothing more is sent for the question |
| `Client.GateRunKeepsOk` | public/js/client.js:235-332 | every reachable gate keeps its invariant: an answer is recorded exactly when one was given, and an open gate has none |
| `Client.VerdictFollowsSubmission` | public/js/client.js:348-359 | the verdict is correct exactly when the one answer sent was the correct option, "¡Casi!" when another option was sent, and "Tiempo agotado" when none was |
| `Client.GetLevelMonotone` | public/js/client.js:440-465 | a higher percentage never gives a lower level |
| `Client.LevelForIsGetLevel` | public/js/client.js:389-390 | the integer thresholds `100 * correct >= k * total` give the same level as `getLevel(correct / total * 100)` |
| `Client.LevelForMonotone` | public/js/client.js:440-465 | more correct answers never give a lower level |
| `Client.FindEntry` | public/js/client.js:377 | the first ranking entry with the player's id, or none when there is no id or no such entry |
| `Client.AckKeepsClientInStep` | server.js:166-172 | adding the acknowledged points to a client score that matched the server's record, and taking the acknowledged streak, matches the updated record |
| `Client.EdTechClient.constructor` | public/js/client.js:7-18 | a client starts with no id, score and streak 0, 10 questions assumed and the gate closed |
| `Client.EdTechClient.OnJoinSuccess` | public/js/client.js:131-134 | the id and name from join-success are stored and nothing else changes |
| `Client.EdTechClient.OnGameStarted` | public/js/client.js:227-230 | score, streak and question index restart at 0; the gate is untouched |
| `Client.EdTechClient.OnNewQuestion` | public/js/client.js:235-241 | the question index is taken, the total is the one given or 23 when absent or 0, and the gate is re-armed as `GateStep` says |
| `Client.EdTechClient.SubmitAnswer` | public/js/client.js:296-302 | the gate and the index sent are exactly those of `GateStep` for the click |
| `Client.EdTechClient.OnTimeUp` | public/js/client.js:328-332 | the gate closes as `GateStep` says for time-up |
| `Client.EdTechClient.OnAnswerReceived` | public/js/client.js:309-312 | the acknowledged points (0 when absent) are added to the score and the streak is replaced (0 when absent) |
| `Client.EdTechClient.OnRevealAnswer` | public/js/client.js:334-359 | correct exactly when the last answer is the correct option; otherwise "¡Casi!" if an answer was given and "Tiempo agotado" if not; with the matching title |
| `Client.EdTechClient.OnGameEnded` | public/js/client.js:373-390 | the player's correct answers are taken from the first ranking entry with its id, or 0; the level is `getLevel` of their percentage, equal to the integer thresholds |
| `Scenarios.EndToEnd` | server.js:58-243 | starting, P1 joining mid-question, one correct answer with 25 seconds left, reveal and advancing to the end give the late-join question with 30 seconds, an acknowledgement of 150 points at streak 1, one correct response for option B, and a final ranking with P1 alone at 150 |
| `Scenarios.DuplicateNames` | server.js:66-73 | "Ana" and "ANA" both join in the lobby; once the game is started "aNa" is refused as a duplicate |
| `Scenarios.PaddedDuplicateAdmitted` | server.js:66-78 | with "Ana" stored and the game started, " Ana" is admitted under the trimmed name "Ana", while "Ana" itself is refused as a duplicate |
| `Scenarios.SecondAnaAdmitted` | server.js:66-78 | in the lobby the duplicate check is skipped: "ANA" is admitted beside a stored "Ana" |
| `Scenarios.StaleTimerSurvivesRestart` | server.js:332-348 | a countdown from before a restart resumes at 29 beside the new game's countdown at 30 |
| `Scenarios.AdvanceAfterEnd` | server.js:229-236 | advancing after the game has ended ends it again and broadcasts the results a second time |

## Left out

- HTTP routes, the Express static server, socket.io transport and delivery, the `uncaughtException` and `SIGINT` handlers. These are I/O. Handlers return the events they would emit.
- admin-join, admin-state and `getCurrentQuestionData`. These are admin-panel snapshots outside the game core, and `public/js/admin.js` is not part of this model.
- The text of questions, options, contexts and explanations, and the text fields of event payloads. They are presentation. The question bank keeps id, category, difficulty, option count and correct index.
- Concurrency between socket events. Each handler runs to completion in Node's single event loop, so the model applies handlers one at a time.
- `Date.now()`. It is a parameter. submit-answer reads the clock for the record (`now`) and again for the acknowledgement (`ackNow`). The timestamp stored with the answer is taken as the same reading as the one used for scoring.
- A non-integer or non-number `answerIndex` in submit-answer. The model takes an `int`, so JavaScript's `===` comparison with a string or a fractional index is not modelled.
- Players are values in the map, not shared mutable objects. JavaScript mutates the object that `Map.get` returned. The model stores the updated value under the same key, which has the same effect because nothing else holds a reference.
- `Scoring.RemainingTime`: takes one clock reading. `getRemainingTime` reads `Date.now()` twice (server.js:355). The model treats both as the same instant, so the clock crossing into a new second between the two reads is not modelled.
- A `name` that is not a string, or a join-game or submit-answer event without a payload. `name.trim()` (server.js:61) and the destructuring of the payload (server.js:59 and 117) then throw a `TypeError` inside the handler. `Option<string>` cannot express these.
- `Session.Session.CategoryStats`: returns a `map`. The JavaScript object keeps its keys in the order the bank first names each category, and the admin panel lists them in that order with `Object.entries` (public/js/admin.js:606). The map does not keep that order.
- `Text.ToLower`: covers ASCII letters and the upper-case Latin-1 letters. Other Unicode case mappings of `toLowerCase` are not modelled.
- `Client.LevelForIsGetLevel`: the percentage is an exact rational. JavaScript's floating-point `correct / total * 100` could land just below a threshold that the exact value meets.
- The client's DOM work: screens, buttons, `animateScore`, `updateTimerCircle`, `updateStudentListUI`. Also its reconnection handling and the display of timer-update. The 1500 ms `setTimeout` before the reveal verdict is not modelled; the verdict is computed from the gate as it is when reveal-answer arrives.
- The client field `currentCorrectAnswer`. It is only ever reset to `null`, and nothing reads it.

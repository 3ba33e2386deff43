# CalQuiz game engine in Dafny

CalQuiz is an Android arithmetic quiz. It shows a random question such as
`7 * 12 = ?`. A correct answer earns 10 to 20 points, fewer the longer the
player took. A wrong answer costs one of three lives. When the last life goes, a
game-over dialog asks for a name and saves the result to a local top-ten
leaderboard. The app is a single Kotlin file of Jetpack Compose UI. This
project models the game engine inside that file:

- `equations.dfy` (module `Equations`): `generateEquation`. The random draws
  are parameters (`Draw`). The operator `when` is kept with its fallback
  branch, and the question text is rendered from the operands.
- `session.dfy` (module `SessionRules`): the rules of a play-through as
  functions on a `Session` value:
  - the clamped answer time and the points formula;
  - the Submit step;
  - runs of many answers (`Play`, `Misses`) and their lives accounting.
- `leaderboard.dfy` (module `Leaderboard`): the `HighScore` record and
  Kotlin's `isBlank`.
  - `sortByDescending` is a stable insertion sort. It is proved to be the only
    stable descending sort, so any implementation returns the same list.
  - Also modelled: the save (append, sort, `take(10)`) and `maxByOrNull`.
- `game.dfy` (module `Game`): the screen's state variables and the persisted
  list, as classes.
  - `HighScoreStore` holds the persisted list.
  - `MathGame` holds score, lives, total time, equation, feedback, dialog flag,
    player name and last high score.
  - Its methods are the button handlers. Each is proved against the functions
    above.
- `wrappers.dfy`: `Option`.

Inputs that come from the platform are parameters:
- the whole seconds elapsed since the question start was last stamped;
- the answer text as parsed by `toIntOrNull` (an `Option<int>`);
- the random draws;
- the formatted date string.

## Model

| member | source | states |
|---|---|---|
| `Equations.GenerateEquation` | app/src/main/java/dev/cems/calquiz/MainActivity.kt:451-463 | The answer is the sum, the difference (`answer + num2 == num1`) or the product, by operator. Any symbol other than `-`, `*`, `/` falls back to the sum. The question shows the operands and the chosen symbol, or `+` on the fallback. |
| `Equations.Generate` | app/src/main/java/dev/cems/calquiz/MainActivity.kt:452-454 | One generator call with its draws: the question shows the drawn operands and the drawn operator symbol. |
| `Equations.DrawnAnswer` | app/src/main/java/dev/cems/calquiz/MainActivity.kt:452-461 | For every possible draw the divisor is at least 1. Each of the four listed operators yields its own result (`+`, `-`, `*`, truncated `/`), so the fallback branch is never taken. |
| `Equations.TruncatedQuotient` | app/src/main/java/dev/cems/calquiz/MainActivity.kt:460 | For operands in [1, 19], `a / b` is the largest whole `q` with `b*q <= a`, and `0 <= q <= a`. |
| `Equations.DivisionAnswer` | app/src/main/java/dev/cems/calquiz/MainActivity.kt:460 | A division question's answer is its truncated quotient. |
| `Equations.AnswerBounds` | app/src/main/java/dev/cems/calquiz/MainActivity.kt:452-461 | Whatever the operator, the answer lies in [-18, 361]. |
| `Equations.DivisionTruncates` | app/src/main/java/dev/cems/calquiz/MainActivity.kt:460 | "7 / 2 = ?" expects 3, which is not the exact quotient. |
| `Equations.Question` | app/src/main/java/dev/cems/calquiz/MainActivity.kt:457-461 | Defines the question text of each `when` branch's string template: the first operand, a space, the operator symbol, a space, the second operand and `" = ?"`. |
| `Equations.QuestionLayout` | app/src/main/java/dev/cems/calquiz/MainActivity.kt:457-461 | In every question the first operand's digits come first and are followed by a space, the symbol sits between two spaces, the second operand's digits end just before `" = ?"`, and both operands' digits read back to the drawn numbers. |
| `Equations.NatToString` | app/src/main/java/dev/cems/calquiz/MainActivity.kt:457-460 | An operand renders as a non-empty string of decimal digits. It starts with '0' only for zero. |
| `Equations.NatToStringRoundTrip` | app/src/main/java/dev/cems/calquiz/MainActivity.kt:457-460 | Reading the rendered digits back gives the number. |
| `Equations.IntToString` | app/src/main/java/dev/cems/calquiz/MainActivity.kt:457-460 | A rendering starts with '-' exactly for negative numbers. |
| `SessionRules.EffectiveTime` | app/src/main/java/dev/cems/calquiz/MainActivity.kt:294 | The charged time is at most 20 and at most the elapsed time. It is the elapsed time or 20. |
| `SessionRules.Points` | app/src/main/java/dev/cems/calquiz/MainActivity.kt:299-300 | The points are the floor of the exact real value `10 * (1 + (20 - t) / 20)`, and they lie in [10, 20]. |
| `SessionRules.PointsNonIncreasing` | app/src/main/java/dev/cems/calquiz/MainActivity.kt:299-300 | Points never increase with time. An instant answer earns 20 and a 20-second one earns 10. |
| `SessionRules.NewSession` | app/src/main/java/dev/cems/calquiz/MainActivity.kt:177-186 | A new game starts with `MAX_LIVES` = 3 lives and no dialog, and satisfies the session invariant. |
| `SessionRules.IsCorrect` | app/src/main/java/dev/cems/calquiz/MainActivity.kt:298 | The answer test `userAnswer != null && userAnswer == equation.answer`: it holds exactly when the parsed answer is present and equals the expected one, so unparsable text is never correct. |
| `SessionRules.SubmitAnswer` | app/src/main/java/dev/cems/calquiz/MainActivity.kt:292-316 | Submit keeps the invariant: lives in [0, 3], non-negative score and time, dialog up exactly when lives are 0. Total time grows by at most 20. |
| `SessionRules.SubmitChargesTime` | app/src/main/java/dev/cems/calquiz/MainActivity.kt:293-295 | Right or wrong, an answer adds `min(elapsed, 20)` to the total time. |
| `SessionRules.SubmitCorrect` | app/src/main/java/dev/cems/calquiz/MainActivity.kt:298-303 | A correct answer adds `Points(min(elapsed, 20))` points, which is 10 to 20. It keeps lives, leaves the dialog closed, shows the newly drawn equation and says "Correct!". |
| `SessionRules.SubmitWrong` | app/src/main/java/dev/cems/calquiz/MainActivity.kt:304-315 | A wrong or unparsable answer takes exactly one life and leaves the score. A new equation is drawn while lives remain; otherwise the dialog opens. |
| `SessionRules.QuickCorrectAnswer` | app/src/main/java/dev/cems/calquiz/MainActivity.kt:298-300 | Answering 7 to "3 + 4 = ?" when charged 3 seconds earns 18. |
| `SessionRules.Play` | app/src/main/java/dev/cems/calquiz/MainActivity.kt:292-316 | Any run of Submit presses keeps the session invariant. Presses after the dialog opens are ignored. |
| `SessionRules.PlayAccounting` | app/src/main/java/dev/cems/calquiz/MainActivity.kt:305-315 | Over any run: final lives = initial lives − misses; misses never exceed the lives; the dialog is up exactly when misses equal the initial lives; the score never falls; time grows by at most 20 per press. |
| `SessionRules.ThreeMissesEndTheGame` | app/src/main/java/dev/cems/calquiz/MainActivity.kt:305-314 | From a new game, with any mix of answers, the game is over exactly when three answers were wrong, and then lives are 0. |
| `Leaderboard.IsBlank` | app/src/main/java/dev/cems/calquiz/MainActivity.kt:196 | Kotlin's `String.isBlank`, the guard of `saveHighScore` and, negated as `isNotBlank`, of the game-over save and both restart handlers (:311, :373, :393). The empty string is blank, and a string is not blank exactly when some character is not whitespace. Whitespace is Kotlin's `Char.isWhitespace`: a Java whitespace character or a Unicode space, line or paragraph separator, which is the code-point set of `IsWhitespace`. |
| `Leaderboard.InsertDesc` | app/src/main/java/dev/cems/calquiz/MainActivity.kt:210-211 | Inserting `r` adds exactly one entry. |
| `Leaderboard.InsertionPoint` | app/src/main/java/dev/cems/calquiz/MainActivity.kt:211 | `r` goes after every leading entry scoring at least `r.score`, and before the first entry scoring less. |
| `Leaderboard.InsertDescSplits` | app/src/main/java/dev/cems/calquiz/MainActivity.kt:211 | The insertion is the list split at the insertion point, with `r` placed in the gap. |
| `Leaderboard.InsertDescPermutes` | app/src/main/java/dev/cems/calquiz/MainActivity.kt:210-211 | The insertion is a permutation of the list plus `r`. |
| `Leaderboard.InsertDescSorted` | app/src/main/java/dev/cems/calquiz/MainActivity.kt:211 | Inserting into a sorted list keeps it sorted. |
| `Leaderboard.InsertDescStable` | app/src/main/java/dev/cems/calquiz/MainActivity.kt:211 | Inserting into a sorted list appends `r` to the entries of its score and leaves every other score's entries untouched. |
| `Leaderboard.SortByDescending` | app/src/main/java/dev/cems/calquiz/MainActivity.kt:211 | The sort returns a permutation of its input in non-increasing score order. It keeps the order of equal-score entries. |
| `Leaderboard.SortedByScoreUnique` | app/src/main/java/dev/cems/calquiz/MainActivity.kt:211 | Two sorted lists with the same entries, in the same order, for every score are equal. |
| `Leaderboard.StableSortIsUnique` | app/src/main/java/dev/cems/calquiz/MainActivity.kt:211 | Every stable descending sort of a list returns `SortByDescending` of it. |
| `Leaderboard.SortedIsFixed` | app/src/main/java/dev/cems/calquiz/MainActivity.kt:211 | Sorting a list already in leaderboard order changes nothing. |
| `Leaderboard.AppendThenSort` | app/src/main/java/dev/cems/calquiz/MainActivity.kt:210-211 | On a sorted stored list, appending `r` and sorting equals inserting `r` after every entry scoring at least `r.score`. |
| `Leaderboard.Take` | app/src/main/java/dev/cems/calquiz/MainActivity.kt:213 | `take(n)` keeps the first `min(length, n)` entries unchanged. |
| `Leaderboard.Saved` | app/src/main/java/dev/cems/calquiz/MainActivity.kt:210-213 | The list a non-blank save stores: the record appended, the list stably sorted by descending score and cut by `take(10)`. It holds `min(n + 1, 10)` entries in leaderboard order; `SaveDrops` shows that what is cut off is exactly the rest of the sorted list. |
| `Leaderboard.SaveIntoSorted` | app/src/main/java/dev/cems/calquiz/MainActivity.kt:210-213 | Saving onto a sorted list of length n gives `min(n + 1, 10)` entries. The result is sorted and is a prefix of the list with `r` inserted after every entry scoring at least as much. `r` is present unless ten older entries outrank or tie it. Entries after `r` are the old ones shifted down, all scoring less. |
| `Leaderboard.SaveKeepsHighest` | app/src/main/java/dev/cems/calquiz/MainActivity.kt:210-213 | Every record dropped by the cap scores no more than every record kept. |
| `Leaderboard.SaveWithRoom` | app/src/main/java/dev/cems/calquiz/MainActivity.kt:210-213 | Below ten entries, a save is exactly the stable insertion. |
| `Leaderboard.TwoSaves` | app/src/main/java/dev/cems/calquiz/MainActivity.kt:210-213 | Saving A (50) then B (80) onto an empty list gives B, A. |
| `Leaderboard.ThreeSaves` | app/src/main/java/dev/cems/calquiz/MainActivity.kt:210-213 | Saving A (50), then B (80), then C (80) gives B, C, A: the later equal score goes behind. |
| `Leaderboard.FirstMaxIndex` | app/src/main/java/dev/cems/calquiz/MainActivity.kt:227 | The chosen index has the maximal score, and every earlier index scores strictly less. |
| `Leaderboard.MaxByOrNull` | app/src/main/java/dev/cems/calquiz/MainActivity.kt:227 | None exactly for the empty list. Otherwise it is an entry of the list whose score is maximal. |
| `Leaderboard.BestOfSortedIsHead` | app/src/main/java/dev/cems/calquiz/MainActivity.kt:227 | On a non-empty list in leaderboard order the best record is the head. |
| `Leaderboard.LastSavedNotBest` | app/src/main/java/dev/cems/calquiz/MainActivity.kt:219 | After saving A (50) onto [B (80)], the best record is B, not the just-saved A. |
| `Game.HighScoreStore.constructor` | app/src/main/java/dev/cems/calquiz/MainActivity.kt:204-208 | A never-written entry reads as the empty list, which is sorted and within the cap. |
| `Game.MathGame.constructor` | app/src/main/java/dev/cems/calquiz/MainActivity.kt:177-187 | The screen starts in `NewSession` with an empty name and no last high score. |
| `Game.MathGame.LoadLastHighScore` | app/src/main/java/dev/cems/calquiz/MainActivity.kt:222-229 | With a stored list, `lastHighScore` becomes `maxByOrNull` of it, which is its head. Without one it is unchanged. |
| `Game.MathGame.EnterPlayerName` | app/src/main/java/dev/cems/calquiz/MainActivity.kt:354-357 | The name field exists only while the game-over dialog is up, and it holds what was typed. The name is still blank whenever the dialog is closed (`NameOnlyInDialog`). |
| `Game.MathGame.SaveHighScore` | app/src/main/java/dev/cems/calquiz/MainActivity.kt:195-220 | A blank name changes nothing. Otherwise the stored list becomes `Saved(old, r)` and `lastHighScore` becomes `r`. The store stays sorted and within ten entries. |
| `Game.MathGame.Submit` | app/src/main/java/dev/cems/calquiz/MainActivity.kt:292-316 | The new state is `SubmitAnswer` of the old one, and the name is unchanged. The store changes only when the dialog opens with a non-blank name, and then by the guarded save. When `NameOnlyInDialog` held before the press, it still holds and the store and `lastHighScore` are untouched. |
| `Game.MathGame.Restart` | app/src/main/java/dev/cems/calquiz/MainActivity.kt:371-383 | Pressed only while the dialog is up. With a blank name nothing changes. Otherwise the result is saved, the state becomes `NewSession` and the name field is cleared. Afterwards the name is blank whenever the dialog is closed. |
| `Game.MathGame.MainMenu` | app/src/main/java/dev/cems/calquiz/MainActivity.kt:392-404 | Pressed only while the dialog is up. Same as Restart. The screen is left exactly when the name was not blank. |

## Left out

- Compose UI is not modelled: navigation, the main-menu and about screens,
  the dialog's rendering, the icons and the text fields. The answer text field
  is represented only by its parsed value.
- SharedPreferences and JSON encoding are not modelled. The persisted list is
  a `seq` field of `HighScoreStore`, and an absent key is the empty list. A
  failure to decode stored JSON, which the code does not catch, is not
  modelled.
- `System.currentTimeMillis`, the `LaunchedEffect` that stamps the question
  start and `LocalDateTime.now()` are not modelled. The elapsed whole seconds
  (a `nat`) and the formatted date are parameters.
- SessionRules.EffectiveTime: takes a non-negative elapsed time. The code
  does not guard against a clock that goes backwards; a negative difference
  there would lower the total time and raise the points above 20.
- `Random.nextInt` and `.random()` are not modelled. Their outcomes are the
  `Draw` parameter, and only draws those calls can produce are accepted.
- `String.toIntOrNull` is not modelled. Its result is the `Option<int>`
  answer parameter.
- SessionRules.Points: uses exact real arithmetic rather than the code's
  32-bit float expression. For whole seconds in [0, 20] the float rounding is
  not modelled.
- Kotlin `Int` score and `Long` total time are unbounded integers here.
  Overflow would take over a hundred million answers.
- `LoadLastHighScore` treats an empty stored list as an absent key. Every
  save writes at least one record, so the two cannot be told apart.
- `Submit` requires the dialog to be closed. The dialog is modal, so Submit
  cannot be pressed behind it. `Play` models the same rule by ignoring
  presses after game over.
- `sortByDescending` is modelled as a function rather than the library's
  in-place algorithm. `StableSortIsUnique` shows that any stable sort gives
  the same list.
- `Game.MathGame.Submit`: the save at game over is modelled as written, and
  not proved unreachable inside the method. The name field exists only inside
  the dialog, so `NameOnlyInDialog` (a blank name while the dialog is closed)
  holds after the constructor and every handler. `Submit` keeps the store
  unchanged whenever it held before. It is a separate predicate rather than
  part of `Valid`, so that the save branch stays in the method as written.
- The question start is stamped by an effect keyed on the equation value.
  When a new equation equals the current one, no new stamp is taken. This
  happens when the same operands and operator are drawn again, or when a
  restart redraws the unanswered game-over equation. The next answer is then
  charged from the earlier stamp. The model takes the elapsed seconds as given
  and does not model this case.

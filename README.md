# Wordle Reload — a verified model of the game logic

Wordle Reload is a console word-guessing game in one C++ file. The player
picks a three- or five-letter board. The game picks a random target word
from a word list. The player then has `numLetters + 1` accepted guesses and
`numLetters * 10 - 10` seconds to find it. Each accepted guess is answered
with a feedback row: `*` for a letter not in the target, a capital for a
letter in the right place, a small letter for a letter elsewhere in the
target. Four counters (total correct, current streak, longest streak, total
time) run across rounds, and an average time is shown on exit.

This project models that logic in Dafny and proves what it promises:

- `catalog.dfy` (module `Catalog`): the word-list filter of
  `readWordleWords`, and `binarySearch` with the C++ string order. The search
  is sound on any list and complete on a sorted one.
- `evaluate.dfy` (module `Evaluate`): lowering the typed guess, `find` on
  strings, and the feedback row. The row is written in place into the
  reused `outputWord` buffer (an `array<char>`).
- `stats.dfy` (module `Stats`): the counters, their update on a win or a
  loss, what they mean after any history of rounds, and the exit summary.
  The counters live in a class, since the game passes them by reference and
  updates them in place.
- `play.dfy` (module `Play`): the round loop of `wordlePlay` as a method,
  proved equal to a step function `Step` folded over the input by `Run`,
  with lemmas about that fold.

Inputs the game reads from outside are parameters here. Each typed word
comes with the two clock readings the round takes for it: one after reading
the word, one after showing its feedback. The random pick of the target is an
index into the word list.

Three behaviours of the code are worth stating up front:

- A correct guess wins even when it comes after the time limit, because the
  match test at main.cpp:169 comes before the clock test at main.cpp:182
  (`Play.ExactMatchWins`).
- The "correct place" test `randomWord.find(c, i) == i` is exactly the
  comparison `randomWord[i] == c` (`Evaluate.FindAtIsPositional`). A
  repeated guessed letter is marked present at every position where the
  target does not have it, however often it occurs in the target.
- The clock is restarted on every read while no guess has been accepted
  (main.cpp:117-119), so it effectively starts at the first accepted guess.

The average shown on exit is the total time divided by the longest streak,
not by the number of wins (main.cpp:253). The model keeps this. The counter
invariant `Stats.Consistent` makes the divisor positive whenever the
division is reached.

## Model

| member | source | states |
|---|---|---|
| `Catalog.Less` | main.cpp:79-82 | `std::string`'s `<` used by the search: strict, and a proper prefix comes before the longer string |
| `Catalog.LessTotal` | main.cpp:79-87 | when a word is neither below nor above the guess, it is the guess, so the search's final branch returns a real match |
| `Catalog.Search` | main.cpp:77-90 | the search over window `low..high` returns -1 or an index inside the window that holds the guess |
| `Catalog.Lookup` | main.cpp:69-91 | `binarySearch` returns -1 or a valid index holding the guess, on any list, sorted or not |
| `Catalog.SearchFinds` | main.cpp:77-88 | on a sorted list, a window that holds an occurrence of the guess never ends in -1 |
| `Catalog.LookupComplete` | main.cpp:69-91 | on a sorted list the search returns -1 exactly when the guess is absent; an empty list gives -1 |
| `Catalog.BinarySearch` | main.cpp:69-91 | the loop over `low`/`high` returns the search result: sound on any list, -1 iff absent on a sorted list |
| `Catalog.OfLength` | main.cpp:52-60 | the filtered list is no longer than the input and holds only tokens of the given length |
| `Catalog.OfLengthConcat` | main.cpp:52-60 | the filter keeps input order: filtering a concatenation concatenates the filtered parts |
| `Catalog.OfLengthCounts` | main.cpp:52-60 | each token of the given length is kept as often as it occurs; every other token is dropped |
| `Catalog.ReadWordleWords` | main.cpp:47-60 | after clearing, the three-letter list is the length-3 tokens and the five-letter list the length-5 tokens, in input order |
| `Evaluate.Lowercase` | main.cpp:122-124 | the in-place loop leaves every character of the guess passed through `tolower` |
| `Evaluate.Find` | main.cpp:139-144 | `find(c, from)` returns the first index at or after `from` holding `c`, or npos when there is none |
| `Evaluate.FindAtIsPositional` | main.cpp:144 | `find(c, i) == i` holds exactly when the target has `c` at position `i` |
| `Evaluate.FindMissing` | main.cpp:139 | `find(c) == npos` holds exactly when `c` does not occur in the target |
| `Evaluate.Cell` | main.cpp:138-150 | one cell: `*` iff the letter is absent, a capital iff a lower-case letter is in place, a small letter iff it is elsewhere; a non-`*` cell shows the guessed letter |
| `Evaluate.Row` | main.cpp:137-152 | one cell per guessed character, each `*` or the guessed letter in some case |
| `Evaluate.WriteFeedback` | main.cpp:137-152 | the loop deciding cells with `find` fills the whole buffer with the positional feedback row, whatever it held before |
| `Evaluate.RowClassifies` | main.cpp:137-152 | for a lower-case guess each cell is `*` iff the letter is absent, a capital iff it is in place, a small letter iff it is elsewhere |
| `Evaluate.RowOfTarget` | main.cpp:139-145 | guessing the target gives the target in capitals: no `*` and no small letter |
| `Evaluate.RowExample` | main.cpp:137-152 | target "cat" and guess "dot" give the row `**T` |
| `Stats.Win` | main.cpp:173-178 | a win adds one win and its seconds, extends the streak by one, and the record becomes the larger of the old record and the new streak |
| `Stats.Loss` | main.cpp:185-188 | a loss ends the streak, keeps wins and time, and the record becomes the larger of the old record and the ended streak |
| `Stats.RecordKeepsConsistent` | main.cpp:173-197 | a win or a loss keeps streak <= record <= wins, and record > 0 iff wins > 0; the record never drops |
| `Stats.LossKeepsRecord` | main.cpp:185-197 | on consistent counters a loss only ends the streak; the record raise on that path changes nothing |
| `Stats.Trailing` | main.cpp:175-188 | the current streak counts the wins after the last loss: all of them wins, preceded by a loss or the start |
| `Stats.LongestRunStep` | main.cpp:176-178 | after one more round the record is the larger of the old record and the current streak, and that is the longest run of wins |
| `Stats.ReplayMeaning` | main.cpp:173-197 | after any history of rounds the counters are the number of wins, the trailing wins, the longest run of wins and the seconds of won rounds |
| `Stats.TruncDiv` | main.cpp:253 | C++ integer division truncates toward zero; it is only reached with a positive divisor |
| `Stats.Average` | main.cpp:250-254 | the average is "N/A" exactly when there is no win, and otherwise the total time divided by the longest streak (positive), truncated toward zero for either sign of the total |
| `Stats.ThreeWinsThenTimeout` | main.cpp:173-189 | three wins and a timeout leave 3 wins, streak 0, record 3 and the three times added up |
| `Stats.Tracker.constructor` | main.cpp:210-213 | the four counters start at zero, which is consistent |
| `Stats.Tracker.RecordWin` | main.cpp:173-178 | a win updates the counters as `Stats.Win` and keeps them consistent |
| `Stats.Tracker.RecordLoss` | main.cpp:185-197 | a timeout or a lost board updates the counters as `Stats.Loss` and keeps them consistent |
| `Stats.Tracker.Summary` | main.cpp:247-254 | the exit summary shows wins, record and the average, with no division by zero |
| `Play.Accepted` | main.cpp:126-135 | a guess is accepted only when it has the board's length and is in the list; on a sorted list, exactly then |
| `Play.Step` | main.cpp:115-199 | one loop pass counts an attempt exactly when the guess is accepted, stores one row per counted attempt, changes nothing else on a rejected guess, ends only on an accepted guess, and wins only on the target |
| `Play.StepSound` | main.cpp:113-200 | one pass of the round loop keeps one row per attempt, attempts within the limit, and each ending justified |
| `Play.RunSound` | main.cpp:113-201 | the whole round keeps those facts, whatever is typed and whatever the clock says |
| `Play.RoundSound` | main.cpp:101-113 | a round started fresh accepts at most `numLetters + 1` guesses and every ending it reaches is justified |
| `Play.RejectedGuessesChangeNothing` | main.cpp:126-135 | guesses of the wrong length or missing from the list, however many, use no attempt, store no row, end nothing and leave the counters alone |
| `Play.ExactMatchWins` | main.cpp:164-180 | an accepted guess equal to the target wins, even after the time limit or on the last attempt |
| `Play.TimeoutOnlyWhenLate` | main.cpp:167-190 | a round times out exactly on an accepted, wrong guess checked more than `numLetters * 10 - 10` seconds after the clock started |
| `Play.SettleIsRecord` | main.cpp:169-199 | ending a round updates the counters as recording its outcome, a win exactly when the round was won |
| `Play.SettleAllIsReplay` | main.cpp:228-245 | the counters after any number of finished rounds, passed from round to round, equal `Stats.Replay` of the rounds' outcomes |
| `Play.SettleKeepsConsistent` | main.cpp:169-199 | the counter invariant survives every round's ending |
| `Play.WordlePlay` | main.cpp:95-203 | the round loop ends in the state the step function reaches on the same input, and leaves the counters updated for that ending |

## Left out

- Reading `wordlewords.txt`: opening, closing, the `assert` on a failed open, and splitting the file into tokens. The model starts from the token sequence.
- All console output: the instructions, prompts, messages and the bracketed history display. The stored rows are modelled, not their printing.
- `rand()` and `srand`: the target is given as an index into the word list.
- `time(NULL)` and `difftime`: each entry carries its two clock readings. The readings are whole seconds, so the conversion of `difftime` to `int` loses nothing.
- The menu loop and `exit(0)`: both are process control. The counter resets before `exit(0)` have no effect because the process ends right after.
- End of input: at end of file `cin >> guessWord` (main.cpp:115) fails and leaves the last word in place, so the loop goes on without reading. If that word was rejected or nothing was read, the loop never ends. If it was an accepted wrong guess, it is accepted again each pass until the round is lost, and the loss is recorded. The model does not capture this: it stops when the entries run out, with the round still `Playing` and the counters unchanged.
- Locales: `tolower` and `toupper` are modelled for the "C" locale, where only ASCII letters change case.
- 32-bit `int` limits: the counters, `high + low` and `totalTime` are unbounded integers. The game never gets near the limits in practice.
- The empty word list for the random pick: `rand() % size()` divides by zero there. `Play.WordlePlay` requires a valid target index.

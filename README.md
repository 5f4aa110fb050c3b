# Wordle in Rust — a verified model of the guess engine

`wordle_in_rust` is a terminal Wordle. A secret five-letter answer is picked for each round.
The player has six chances to find it. After each guess, every letter is marked:
- GREEN / Hit: right letter, right place;
- YELLOW / Close: the letter is in the answer elsewhere;
- RED / Missed: the letter is absent.

Duplicate letters are handled the Wordle way: the answer's copies are handed out first to exact
matches, then from left to right to the other copies in the guess. An alphabet (keyboard) view
keeps, for each letter, the best mark it has received so far.

In hard mode, a guess must keep every GREEN letter of the previous guess in place. It must also
contain each YELLOW letter of the previous guess at least as many times as it was marked YELLOW.
A session plays several rounds and reports:
- wins and losses;
- the average number of guesses of won rounds;
- the most frequently used guesses.

The repository holds two engines for the same game, and the model keeps them apart:

- the procedural engine in `src/main.rs`, with the status order of `src/status.rs`. Its
  `Status` values rank GREEN > YELLOW > RED > UNKNOWN, and the alphabet keeps the maximum. It is
  modelled by the modules `StatusOrder` and `Procedural`. `Procedural` covers:
  - `is_valid`, `update_state`, `find_most_frequent_strings` and `check_subset`;
  - the round loop and the session loop of `main`, as `PlayRound` and `PlaySession`.
- the object engine in `src/game.rs` and `src/game/*.rs`. Its `KeyStatus` uses the derived order
  Hit < Close < Missed < Unknown, and the keyboard keeps the minimum. It is modelled by
  `Common`, `Keyboards`, `Players` and `GameEngine`. `Keyboard`, `Player`, `Round` and `Game` are
  classes whose methods update fields in place, as the Rust methods taking `&mut self` do.

Shared, source-independent definitions:
- `Letters`: letter slots, occurrence counts, ASCII case mapping.
- `Feedback`: a closed-form definition of the two-pass classification (`MarkAt`). Each position
  is Exact when the letters are equal. Otherwise it is Present exactly when fewer earlier
  non-exact copies of that letter precede it than the answer has unmatched copies. Both
  imperative classifiers (`update_state` and `take_guess`) are proved to compute it.
- `Frequency`: the occurrence map, the ranking order (count descending, then word ascending), and
  `IsTopN`, the specification of "the n most frequent words", which is proved to have exactly one
  solution.
- `Wrappers`: `Option` and `Result`.

Reading a line from standard input becomes a sequence of input lines; each line is upper-cased
and trimmed as `main` does. The round loop calls `is_valid` as written, so a panic of `is_valid`
or `update_state` is an outcome of the model (`Crash`, `Panicked`, `Crashed`), not a
precondition. The round and session loops are specified by the functions `RoundFrom` and
`SessionFrom` of the input lines, and the methods are proved to do what they say. The random
shuffle of the answer list becomes a parameter (any sequence). Floating-point averages become a
numerator/denominator pair.

## Model

| member | source | states |
|---|---|---|
| Feedback.LetterBudget | src/main.rs:83-109 | for every letter, the number of positions marked Exact or Present is the smaller of its counts in guess and answer |
| Feedback.PresentInAnswer | src/main.rs:94-106 | a letter marked Present does occur in the answer |
| Feedback.PresentIsLeftmost | src/main.rs:94-106 | among non-exact copies of a letter, Present goes to the leftmost ones: a later copy is Present only if every earlier one is |
| Feedback.AllExactIffEqual | src/game.rs:224-231 | every position is Exact if and only if the guess equals the answer |
| Feedback.LollyAgainstAlloy | src/main.rs:83-109 | the duplicate-letter example: LOLLY against ALLOY is marked Present, Present, Exact, Absent, Exact |
| StatusOrder.PartialCmp | src/status.rs:10-26 | the comparison is always defined; Equal exactly for equal statuses, Greater/Less exactly when the first carries more/less information (GREEN > YELLOW > RED > UNKNOWN) |
| StatusOrder.Cmp | src/status.rs:29-33 | `cmp` agrees with `partial_cmp` and is antisymmetric |
| StatusOrder.Max | src/main.rs:108 | the kept status is an upper bound of both arguments and is one of them |
| StatusOrder.AtLeastIsTotalOrder | src/status.rs:10-33 | the status order is reflexive, antisymmetric, transitive and total |
| StatusOrder.GreenIsGreatest | src/status.rs:19-24 | GREEN is the top and UNKNOWN the bottom of the order, with each step of the chain strictly Greater |
| Frequency.OutranksIsStrictOrder | src/main.rs:178-181 | ranking by count descending, then word ascending, is irreflexive, asymmetric, transitive and total on distinct words |
| Frequency.PrefixIsTopN | src/main.rs:183-187 | the first n entries of the fully ranked tally are the n most frequent words with their exact counts |
| Frequency.TopNUnique | src/main.rs:169-188 | the top-n answer is unique, so every correct implementation returns the same list |
| Frequency.CountOccurrences | src/main.rs:173-175 | the map's keys are the distinct words and each value is that word's number of occurrences |
| Frequency.CollectTallies | src/main.rs:177 | the collected pairs are each distinct word once, with its exact count |
| Common.KeyOrderIsTotal | src/game/common.rs:5-15 | the derived order Hit < Close < Missed < Unknown is a strict total order with Hit least and Unknown greatest |
| Common.NewWordStatus | src/game/common.rs:44-50 | a new word status has five entries, all Unknown |
| Common.ShowKey | src/game/common.rs:19-28 | each key status is shown as one of G, Y, R, X |
| Common.ShowWordInjective | src/game/common.rs:35-42 | the rendering of a word status determines the word status |
| Common.RightGuessShowsGreen | src/game/common.rs:16-18 | the right-guess constant renders as GGGGG, a new status as XXXXX, and the two differ |
| Keyboards.Settle | src/game/keyboard.rs:20-27 | the settled key is the lesser of the current and the offered status, and is one of them |
| Keyboards.SettleIsIdempotent | src/game/keyboard.rs:20-27 | offering the same status twice changes nothing more, and the result is never worse than the offer |
| Keyboards.Keyboard.constructor | src/game/keyboard.rs:29-33 | a new keyboard has 26 keys, all Unknown |
| Keyboards.Keyboard.UpdateStatus | src/game/keyboard.rs:20-27 | the key changes exactly when the offered status is strictly better, and no other key changes |
| Keyboards.Keyboard.Show | src/game/keyboard.rs:9-16 | the display has 26 characters, the k-th showing key k |
| Keyboards.KeyFoldIsMinimum | src/game/keyboard.rs:20-27 | folding a guess's statuses into a key gives the minimum of the old key and that letter's statuses, attained by one of them, and leaves letters absent from the guess unchanged |
| Players.WinsBound | src/game/player.rs:24-33 | the number of won rounds is at most the number of rounds |
| Players.TotalCountBounds | src/game/player.rs:24-33 | when every won round used between 1 and the maximum number of tries, the total tries of won rounds lies between the wins and the maximum times the wins |
| Players.Reverse | src/game/player.rs:44 | reversal is a permutation with the i-th element taken from the mirrored position |
| Players.SortByWord | src/game/player.rs:43 | the sort by word is a permutation in strictly ascending word order |
| Players.SortByCount | src/game/player.rs:45 | the stable sort by count of a word-descending list is a permutation in reverse rank order: count ascending, ties by word descending |
| Players.Player.constructor | src/game/player.rs:12-17 | a new player has no used words and no rounds |
| Players.Player.RecodeInput | src/game/player.rs:18-20 | the word is appended to the used words; the rounds are unchanged |
| Players.Player.Evaluate | src/game/player.rs:21-23 | the round's (count, success) pair is appended; the used words are unchanged |
| Players.Player.Analyse | src/game/player.rs:24-33 | wins plus losses equals the rounds played; the average is total tries over wins, and 0 with no win |
| Players.Player.ShowMostUsedWords | src/game/player.rs:34-48 | the result is the five most used words, ranked by count then word, with their exact counts |
| Players.AnalyseBounds | src/game/player.rs:24-33 | with any win, the average number of tries lies between 1 and the maximum |
| GameEngine.IsWordIsByteTest | src/game.rs:80-82 | holds iff the word is upper-case ASCII letters with a byte length of five, which on such letters is five letters |
| GameEngine.Game.IsRoundEnd | src/game.rs:77-79 | in a valid game, holds iff six guesses are pending, so no chance is left; the pending guesses are then the last six taken |
| GameEngine.JudgeIsWordle | src/game.rs:197-221 | Hit exactly at equal letters, no Unknown left, and per letter the Hit/Close marks number the smaller of the two counts |
| GameEngine.JudgeRightIffEqual | src/game.rs:224-231 | the result equals the right-guess constant if and only if the guess is the answer |
| GameEngine.ExtendRestrictions | src/game.rs:197-221 | after a guess, a position is locked iff it was locked or now hit, and a letter is required iff it was required or is now Close |
| GameEngine.AnswerKeepsHistory | src/game.rs:163-185 | the answer itself always satisfies the hard-mode restrictions of a round |
| GameEngine.KeyAfterIsBest | src/game/keyboard.rs:20-27 | after a round's guesses, each key holds the best mark its letter received, and is Unknown iff the letter was never guessed |
| GameEngine.CountLetters | src/game.rs:192-195 | for each letter of the guess, the arrays hold its counts in the answer and in the guess; other slots are 0 |
| GameEngine.MarkHit | src/game.rs:197-206 | one step of the hit pass: marks a position Hit when letters agree, locks it, consumes one count of the letter and settles its key |
| GameEngine.MarkHits | src/game.rs:197-206 | the hit pass marks exactly the equal positions, locks them, and leaves each key the minimum of its old value and the new Hits |
| GameEngine.MarkClose | src/game.rs:207-221 | one step of the close pass: marks the position Close or Missed as the closed form says and records Close letters |
| GameEngine.MarkCloses | src/game.rs:207-221 | the close pass completes the classification, so the result equals the closed-form marks |
| GameEngine.JudgeGuess | src/game.rs:190-221 | the two passes together compute the closed-form marks, update the restrictions and fold the marks into the keyboard |
| GameEngine.KeepsHits | src/game.rs:176-182 | true iff every locked position of the guess holds the answer's letter |
| GameEngine.SummaryStep | src/game.rs:222-233 | one accepted guess keeps the round's summary invariant: history, keyboard, locks, required letters, success flag and count |
| GameEngine.Round.constructor | src/game.rs:148-159 | a new round has no guesses, no restrictions, no success and a fresh all-Unknown keyboard |
| GameEngine.Round.SetAns | src/game.rs:160-162 | setting the answer changes nothing else |
| GameEngine.Round.IsValidGuess | src/game.rs:163-185 | the first guess, or any guess outside hard mode, is accepted; otherwise acceptance is exactly keeping all locks and required letters of the round |
| GameEngine.Round.TakeGuess | src/game.rs:187-234 | the guess is recorded with its closed-form marks; success, success count, locks, required letters and keyboard are updated exactly |
| GameEngine.Game.constructor | src/game.rs:62-73 | a new game keeps the given word lists and mode, with an empty round and an empty player |
| GameEngine.Game.IsValidGuess | src/game.rs:74-76 | a guess is valid iff it is an acceptable word and the round accepts it |
| GameEngine.Game.GenAnswerFrom | src/game.rs:84-86 | an answer exactly for a day between 1 and the length of the final list, namely that day's word, a five-letter upper-case word when the lists are well formed; `None`, the panic, at day 0 and past the end |
| GameEngine.Game.StartNewRound | src/game.rs:87-93 | a fresh round with the given answer; the answer joins the used answers |
| GameEngine.Game.EndCurRound | src/game.rs:94-105 | reports success, answer and count (1 to 6 on success, 0 otherwise); moves the round's inputs to the player and records the round |
| GameEngine.Game.ShowMostUsedWords | src/game.rs:106-108 | the five most used words of the session with their exact counts |
| GameEngine.Game.ShowAnalyse | src/game.rs:109-111 | wins plus losses equals the rounds; with a win the average lies between 1 and 6 |
| GameEngine.Game.Guess | src/game.rs:112-122 | OverTry exactly after six guesses; Invalid exactly for an inadmissible word before that, both leaving the round unchanged; the guess is taken, with its closed-form marks, exactly when it is admissible before round end; then the success count is set to the number of guesses on the first right guess and kept afterwards, and the locks and required letters grow by the new Hits and Close letters |
| GameEngine.AnswerIsAdmissible | src/game.rs:74-76 | an acceptable answer is always a valid guess, hard mode or not |
| Procedural.Tally | src/main.rs:41-54 | one step of the green pass's tallies: counts the guess letter and, for a YELLOW position, the previous letter |
| Procedural.TallyGreens | src/main.rs:41-54 | false iff some GREEN position of the previous guess is not kept; when true, the tallies are exact |
| Procedural.CheckYellows | src/main.rs:56-64 | true iff every letter occurs in the guess at least as often as it was YELLOW in the previous guess |
| Procedural.IsValid | src/main.rs:28-67 | the verdict (accept, refuse or panic) is `Validity`'s; outside hard mode or in round 1 it accepts exactly the words whose lower case is in the list, and never panics |
| Procedural.HardValidity | src/main.rs:31-66 | in hard mode after round 1 the check accepts exactly the upper-case candidates of at most five letters, no longer than the previous guess, that keep its GREEN letters and YELLOW counts, with no word-list check; it panics only on candidates of another shape |
| Procedural.GreenScanPasses | src/main.rs:41-54 | a first loop that gets through met a letter byte at every position and every GREEN letter kept |
| Procedural.GreenScanOfWord | src/main.rs:41-54 | on an upper-case candidate no longer than the previous guess the first loop never panics, and gets through when every GREEN letter is kept |
| Procedural.ResubmitIsAccepted | src/main.rs:41-64 | the previous guess always satisfies its own hard-mode constraints |
| Procedural.ClassifyIsWordle | src/main.rs:83-109 | GREEN exactly at equal letters, nothing left UNKNOWN, and per letter the GREEN/YELLOW marks number the smaller of the two counts |
| Procedural.ClassifyYellowIsLeftmost | src/main.rs:94-106 | YELLOW is handed to the leftmost non-exact copies of a letter |
| Procedural.AbsorbIsMaximum | src/main.rs:108 | the alphabet entry becomes the maximum of its old value and the letter's statuses, attained by one of them; letters not guessed are unchanged |
| Procedural.LetterHistogram | src/main.rs:75-81 | the histogram holds each letter's number of occurrences in the answer |
| Procedural.MarkGreens | src/main.rs:83-92 | the green pass marks exactly the equal positions GREEN and counts the exact matches per letter |
| Procedural.OtherMark | src/main.rs:94-106 | the counting rule of the second pass gives YELLOW or RED exactly as the closed form does |
| Procedural.MarkPosition | src/main.rs:94-108 | one step of the second pass: raises that position's status and the letter's alphabet entry, and advances the letter's tally |
| Procedural.MarkOthers | src/main.rs:94-109 | the second pass raises every position to its classification and folds the statuses into the alphabet |
| Procedural.UpdateState | src/main.rs:70-110 | each position gets GREEN when exact, else the maximum of its old status and its classification; the alphabet takes maxima; from a blank state the result is the closed-form classification |
| Procedural.HardModeSkipsWordList | src/main.rs:29-31 | the empty line is refused on the first chance; in hard mode on a later chance it passes the constraints of any previous guess though it is not in the list, and `update_state` then panics on it against any non-empty answer |
| Procedural.IsValidChecked | src/main.rs:28-67 | valid iff the word is in the word list and, in hard mode after round 1, also keeps the previous constraints |
| Procedural.InsertRanked | src/main.rs:178-181 | inserting a new word keeps the list ranked and adds exactly that entry |
| Procedural.SortRanked | src/main.rs:178-181 | the sort is a permutation ranked by count descending, then word ascending |
| Procedural.FindMostFrequentStrings | src/main.rs:169-188 | the result is the n most frequent strings with their exact counts, ties broken alphabetically |
| Procedural.CheckSubset | src/main.rs:207-211 | true iff every word of the first list is in the second |
| Procedural.SnapshotsUpgrade | src/main.rs:108 | each alphabet snapshot of a round is pointwise at least the previous one |
| Procedural.ExtendFolded | src/main.rs:276-281 | appending a guess with its statuses and updated alphabet keeps the fold invariant |
| Procedural.ExtendHistory | src/main.rs:276-281 | pushing a recorded guess (five upper-case letters, listed where `is_valid` looked it up, keeping the previous constraints in hard mode) with its classification and alphabet snapshot keeps the round history valid |
| Procedural.RecordedWord | src/main.rs:275-281 | a line `is_valid` accepts and `update_state` does not panic on is five upper-case letters, and in the list where `is_valid` consulted it: on the first chance, and on every chance outside hard mode |
| Procedural.RecordedShape | src/main.rs:41-64 | such a line in hard mode also keeps the previous guess's GREEN letters and YELLOW counts |
| Procedural.EmptyLineAtEnd | src/main.rs:270-279 | the empty line that `read_line` leaves at the end of input is refused exactly outside hard mode or on the first chance; when it is accepted, `update_state` panics on it |
| Procedural.RecordGuess | src/main.rs:276-281 | the guess is pushed with its classification from a fresh word state and the alphabet snapshot after folding it in; the history stays valid |
| Procedural.Step | src/main.rs:270-293 | a line a chance records is five upper-case letters, and the round's guesses stay five-letter words listed where `is_valid` looked them up |
| Procedural.Judge | src/main.rs:270-279 | the guess is the next line upper-cased and trimmed (empty at the end of input); the chance is refused exactly when `is_valid` refuses it, crashes exactly when `is_valid` or `update_state` panics, and is recorded otherwise |
| Procedural.TryGuess | src/main.rs:270-293 | the chance is `Step`'s on the line read; a refused or crashing line changes nothing; a recorded one is pushed with its classification and snapshot and keeps the history valid |
| Procedural.RoundShape | src/main.rs:263-294 | a round's guesses extend those it started from, are at most six, five-letter upper-case words listed where checked, and none but the last is the answer |
| Procedural.RoundWaits | src/main.rs:263-294 | a round is left waiting for input only once every line is read |
| Procedural.RoundWon | src/main.rs:286-288 | a won round has a guess, and its last guess is the answer |
| Procedural.RoundLost | src/main.rs:263-294 | a round that is not won has no guess equal to the answer |
| Procedural.RoundOutcome | src/main.rs:263-294 | a round that ends with an outcome has a guess, and it is won exactly when its last guess is the answer |
| Procedural.RoundChances | src/main.rs:260-300 | a won round spent one chance per guess; a FAILED round spent all six and left the counter at -1; a round whose sixth guess is not the answer is FAILED |
| Procedural.NextChance | src/main.rs:264-293 | one pass of the loop body is the next step of `RoundFrom`: the round ends as it says with the guesses recorded, or goes on after exactly one line with at most one guess more, none the answer |
| Procedural.PlayRound | src/main.rs:260-294 | the outcome, the guesses (the accepted lines, in order) and the lines read are exactly `RoundFrom` on the input lines; the word states and snapshots form a valid history |
| Procedural.EndOfInput | src/main.rs:263-293 | at the end of input a hard-mode round with a guess panics, and any other round is left waiting |
| Procedural.HardModeRecordsUnlisted | src/main.rs:275-281 | in hard mode a second line that keeps the first guess's constraints is recorded, in the word list or not |
| Procedural.StatsLine | src/main.rs:308-313 | wins, and losses as rounds minus wins; the average as a fraction: 0 with no win, otherwise the guesses of won rounds over the wins, between 1 and 6 when each win took one to six |
| Procedural.TotalRounds | src/main.rs:306 | the rounds counted are at most the rounds played |
| Procedural.WinRounds | src/main.rs:296-300 | the rounds won are at most the rounds counted |
| Procedural.RoundsAppend | src/main.rs:277-306 | one more round adds one counted round if it has an outcome, one win and its guesses if it was won, and its guesses to the session's list |
| Procedural.RoundIsWellPlayed | src/main.rs:263-294 | a round played from its start has at most six guesses, five upper-case letters each, in the list outside hard mode; a win used one chance per guess |
| Procedural.SessionCounters | src/main.rs:296-306 | over the rounds played, wins are at most the guesses of won rounds, which are at most six per win; at most six guesses per round; every guess a five-letter word, listed outside hard mode |
| Procedural.ReportsBounds | src/main.rs:308-313 | one statistics line per round with an outcome, each with non-negative losses and, with a win, an average between 1 and 6 |
| Procedural.DrawnExtend | src/main.rs:242-258 | appending the answer drawn for the next day keeps the answers in shuffled order from the chosen day |
| Procedural.Draw | src/main.rs:241-258 | there is no answer (the index panics) exactly when a seeded draw falls outside the shuffled list; drawing reads at most the lines there are |
| Procedural.AfterRound | src/main.rs:326-337 | the session plays on exactly after a round with an outcome, with no fixed word, on the option line Y; it quits exactly on a fixed word or N; it waits for input exactly when the round did |
| Procedural.SessionDraws | src/main.rs:242-247 | with a seed, the answers are the words of the shuffled list from the chosen day on, in order |
| Procedural.SessionFixedWord | src/main.rs:249-328 | with a fixed word a session plays at most one round, and without a seed its answer is that word, upper-cased and trimmed |
| Procedural.SessionAnswers | src/main.rs:227-258 | a whole session's answers follow the shuffle from the chosen day with a seed; a fixed word gives at most one round, on that word without a seed |
| Procedural.NextRound | src/main.rs:241-294 | the answer is `Draw`'s, and the round played on the lines after it is `RoundFrom`'s |
| Procedural.SessionRound | src/main.rs:237-337 | one pass of the session loop: the session from these lines is the session from the rest with one round more, or ends here, as `SessionFrom` says; the round played is well played |
| Procedural.Account | src/main.rs:277-324 | the counters and guess list become those over one more round; with statistics, a round with an outcome adds the statistics line and the top five of all guesses so far |
| Procedural.PlaySession | src/main.rs:214-338 | the session ends, draws its answers and plays its rounds exactly as `Session` says on the input lines; a configuration error iff the final list is not a subset; the counters and guess list are the sums over the rounds played; with statistics, one statistics line and one top-five report per counted round |

## Left out

- Terminal rendering: `print_state_tty`, `print_state_not_tty` and the colour codes are not modelled beyond the letters `Show` produces.
- Reading word lists from files (`load_word_list`, `src/game/word_set.rs`): the lists are parameters. `builtin_words.rs` is not part of this model; its word list is the parameter `builtin`.
- `src/cli.rs` (argument parsing), `src/state.rs` (saving sessions) and the tests are not part of this model.
- The random shuffle is a parameter: any sequence may be passed as the shuffled list.
- Averages are floating point in the source and exact fractions in the model. The statistics line and the top-five report are computed (`reports` and `tops` of `PlaySession`) but not formatted.
- Input lines carry no line terminator; `str::trim` removes it in the source anyway. The white space `str::trim` removes is the Unicode White_Space set, written out in `Letters.IsSpace`.
- End of input: `read_line` then leaves the line empty, every time. A round that refuses the empty line loops forever in the source; the model ends it with `Exhausted` and the session with `InputExhausted`.
- Panics end the program: the model ends the round with `Panicked` and the session with `Crashed`, and does not model the message. The `u8` subtractions in `is_valid` and `update_state` panic as in a debug build; the wrap-around of a release build is not modelled.
- Non-ASCII input: the model uses the ASCII case rules only. `str::to_lowercase` in `is_valid` also lowers non-ASCII letters.
- Integer widths (`u32`, `usize`, `i32`): integers are unbounded. No counter in the model comes near a bound.
- GameEngine.Round.SetAns: requires that no guess has been taken yet. The source only ever sets the answer on a fresh round.
- GameEngine.Round.TakeGuess: requires a five-letter answer. The source indexes the answer by position and panics on a shorter one; longer answers are not modelled.
- GameEngine.Game.Guess: requires a five-letter answer, for the same reason: shorter answers panic, longer answers are not modelled.
- GameEngine.Round.IsValidGuess: requires a guess of at most five letters in hard mode after the first guess. On a longer guess the source returns false or panics when it indexes the sixth lock; its only caller passes words of the acceptable list, which are five letters long.
- Procedural.WordList: the built-in list is assumed to hold five-letter lower-case words; the round and session members (`PlayRound`, `PlaySession`, `EmptyLineAtEnd` and the lemmas about `RoundFrom` and `SessionFrom`) require it, so no guarantee is given for a list holding other strings. The list itself is not part of this model.
- GameEngine.Game.constructor: requires every word of both lists to be a five-letter upper-case word, the shape the loader produces.
- `show_keyboard`, `is_success` and `show_answer` in `src/game.rs` only read a field. The model reads that field directly.
- Procedural.IsValid: in hard mode after round 1, requires a previous guess in upper case and its five-entry word state, which `main` always passes: a guess is only recorded when `update_state` does not panic on it.
- The `acceptable_set` parameter of `is_valid` is never read by the source. It is kept in the signature only.
- Players.SortByCount: stability is stated for an input already in word-descending order. That is the only order in which the source calls it.
- `Vec::sort_by` and the other in-place sorts on vectors are modelled on sequences.

## Findings

| source | as written | input that shows it | evidently intended | confidence | as-written member | corrected member |
|---|---|---|---|---|---|---|
| src/main.rs:29-31 | in hard mode after round 1, `is_valid` checks only the previous guess's GREEN/YELLOW constraints and never checks the word list | hard mode, any first guess, then an empty line: no constraint has a position to check, so it is accepted; `update_state` then panics on its length assertion (src/main.rs:71). With answer BOUND and first guess CRANE, the line ZZZNZ is recorded as a guess though it is no word. | every guess must be in the word list; hard mode adds the previous constraints on top | high; not executed | Procedural.IsValid, Procedural.HardModeSkipsWordList, Procedural.HardModeRecordsUnlisted | Procedural.IsValidChecked |

The round loop of the model follows `main` as written: `PlayRound` calls `IsValid`. `IsValidChecked` is the corrected validator, with its property proved on its own.

# TriviaIQ question generator and timed quiz, in Dafny

This project models the core of TriviaIQ, a trivia web application, in two parts.

**The local question generator** (`api/generate-questions.js`):
- **Topic resolution.** The generator resolves a free-text topic and an optional genre to a pool of question records drawn from its in-memory table. A main topic is searched when the lower-cased input includes its key, or when its key includes the input's first space-separated token. A subtopic of a searched topic is kept when there is no genre, when its name includes the genre, or when the input includes its name. When nothing matches, the whole table is used.
- **Shuffling and sampling.** The pool is shuffled once by a backward Fisher-Yates pass. Then `count` questions are built by wrap-around indexing.
- **Question forms.** Each question is either an open question carrying its answer, or a four-option question. A four-option question has three distractors: up to two answers of other records of the same category, then accepted draws from a fixed list of 23 generic answers (at most 50 draws), then "Option X" placeholders. The options are shuffled, and the correct index is found with `indexOf`.

**The timed quiz of `src/App.js`:**
- **The game session.** It has four steps (setup, generating, playing, results), a 30- or 60-second countdown, the scoring of each answer and the 800 ms feedback delay before the next question. The game ends either on the last answer or when the clock runs out. Play Again resets the session.
- **Scoring.** A correct answer earns 100 points plus a speed bonus of one point per full 100 ms left in a ten-second window. A wrong answer earns 0.
- **High scores.** The ranking appends the new entry, sorts by score from highest to lowest (stably) and keeps ten.
- **The prompt.** The prompt for a question request is built from topic, subtopic and genre.

`Math.random()` is an injected stream of draws in [0, 1). Each operation that draws takes the position of its first unused draw and returns the position after its last draw, so every random choice is `Floor(r * n)`, the floor taken over exact reals rather than over the double-precision product. Each timer tick, the end of the feedback delay and the outcome of the question request is an explicit event (a method of `GameSession.Game`).

## Behaviour of the code worth noting

- **"Ancient Rome trivia" does not select the history topic.** The input includes no main-topic key, and its first token "ancient" lies in no key. So the pool falls back to the whole table: `TopicResolver.AncientRomeFallsBack`.
- **Distractors are not necessarily distinct.** The same-category step keeps repeats: `Distractors.RepeatedDistractors` has two same-category records with the answer "Paris" giving "Paris" twice. Same-category answers always differ from the correct answer, but they may repeat each other. A placeholder can equal the correct answer. Generic draws are kept apart from the correct answer and from every earlier slot. `Distractors.WrongAnswersSlots` and `Distractors.SameCategoryOthers` state this.
- **The high-score entry counts one answer too few.** The callback that ends the game uses the answer list as it was when the last answer was given, before that answer was added. So the entry counts one answer fewer than were given: `GameScenarios.AnswerEverything` returns `seenByHighScore == |qs| - 1`.

## Model

| member | source | states |
|---|---|---|
| Randomness.Pick | api/generate-questions.js:260 | `Math.floor(r * n)` for an exact draw `r` in [0, 1) is an index below `n`, namely the one with `j <= r*n < j+1` |
| JsStrings.Lower | api/generate-questions.js:157 | lower-casing keeps the length and maps each character by itself |
| JsStrings.LowerIdempotent | api/generate-questions.js:157 | lower-casing twice is lower-casing once |
| JsStrings.ContainsIff | api/generate-questions.js:164 | `includes` holds exactly when `t` occurs at some position of `s` |
| JsStrings.MissingChar | api/generate-questions.js:164 | a string does not include one holding a character it lacks |
| JsStrings.MissingCovered | api/generate-questions.js:164 | a string does not include `t` when every possible start of `t` covers a position whose character `t` lacks |
| JsStrings.FirstToken | api/generate-questions.js:164 | `split(' ')[0]` is a prefix free of spaces that stops at a space or at the end |
| JsStrings.KeepChar | src/App.js:1407 | one character survives `replace(/[^\w\s]/g, '')`, as itself, exactly when it is a word or white-space character, and otherwise nothing is left of it |
| JsStrings.StripNonWord | src/App.js:1407 | the strip is no longer than its input and keeps exactly the word and white-space characters of its input |
| JsStrings.StripNonWordAppend | src/App.js:1407 | the strip of a concatenation is the strips of its parts, in order, so the kept characters keep their order and their number |
| JsStrings.StripNonWordIdempotent | src/App.js:1407 | stripping twice is stripping once |
| JsStrings.TrimStart | src/App.js:1407 | the result is a suffix, what was removed is all white space, and it does not start with white space |
| JsStrings.TrimEnd | src/App.js:1407 | the result is a prefix, what was removed is all white space, and it does not end with white space |
| JsStrings.TrimmedSlice | src/App.js:1407 | trimming the end and then the start leaves the slice of the input between an all-white-space prefix and an all-white-space suffix, empty exactly when the input is all white space |
| JsStrings.Trim | src/App.js:1407 | `trim()` is the slice `s[a..b]` of its input with only white space before `a` and after `b`, with no white space at either end; it keeps every other character and is empty iff the input is all white space |
| QuestionBank.InSubtopicQuestions | api/generate-questions.js:176-180 | a record is in the concatenated subtopic lists iff one list holds it |
| TopicResolver.TopicMatches | api/generate-questions.js:164 | a main topic is searched when the input includes its key, when its key includes the input's first token (in particular when the key starts with it), and always when that token is empty |
| TopicResolver.SubtopicKept | api/generate-questions.js:166-167 | a subtopic is kept when there is no genre, when its lower-cased name includes the lower-cased genre (in particular when it is the genre up to case), and when the input includes its lower-cased name |
| TopicResolver.ResolvePool | api/generate-questions.js:155-181 | the two passes build exactly the matched records, or the whole table when none matched; the pool is never empty for a non-empty table |
| TopicResolver.CollectMatched | api/generate-questions.js:163-172 | the outer pass appends, topic by topic, the kept records of every searched topic |
| TopicResolver.AppendKept | api/generate-questions.js:165-170 | the inner pass appends the records of every kept subtopic in order |
| TopicResolver.CollectAll | api/generate-questions.js:175-181 | the fallback pass appends every subtopic list of every topic in order |
| TopicResolver.InKeptQuestions | api/generate-questions.js:165-170 | a record is kept from a topic iff a kept subtopic holds it |
| TopicResolver.InMatchedQuestions | api/generate-questions.js:163-172 | a record is matched iff a kept subtopic of a searched topic holds it |
| TopicResolver.NoGenreKeepsAll | api/generate-questions.js:166 | without a genre every subtopic of a searched topic is kept |
| TopicResolver.EmptyInputMatchesEveryKey | api/generate-questions.js:157-164 | a missing or empty topic searches every main topic |
| TopicResolver.EmptyInputMatchesAll | api/generate-questions.js:157-172 | an empty input without genre matches every record of the table, in order |
| TopicResolver.EmptyInputResolvesAll | api/generate-questions.js:157-181 | an empty input without genre resolves to the whole table |
| TopicResolver.PoolFromTable | api/generate-questions.js:160-181 | every record of the pool is held by some subtopic of the table |
| TopicResolver.InAllQuestions | api/generate-questions.js:175-181 | a record is in the whole table iff some subtopic holds it |
| TopicResolver.NoneMatched | api/generate-questions.js:163-172 | when no topic is searched nothing is matched |
| TopicResolver.SourceKeyLetters | api/generate-questions.js:42-143 | the letters that set each of the six main-topic keys apart from the input "ancient rome trivia" |
| TopicResolver.AncientRomeMissesKey | api/generate-questions.js:164 | an input with those letters searches none of the six keys |
| TopicResolver.AncientRomeFallsBack | api/generate-questions.js:157-181 | "Ancient Rome trivia" resolves, for any genre, to the whole table of any table keyed like the source's |
| SampleTable.SampleAncientRomeFallsBack | api/generate-questions.js:157-181 | for a table holding some of the source's own entries, "Ancient Rome trivia" resolves to the whole table, for any genre |
| Shuffle.SwapPermutes | api/generate-questions.js:280 | the destructuring swap keeps the length and the multiset |
| Shuffle.FisherYates | api/generate-questions.js:278-281 | the first `n` steps of the backward pass, step `k` swapping index `|s| - k` with the index the next draw picks, keep the length |
| Shuffle.FisherYatesPermutes | api/generate-questions.js:278-281 | every prefix of the backward pass is a permutation of its input |
| Shuffle.Shuffled | api/generate-questions.js:276-283 | the shuffle of a sequence has its length and its multiset |
| Shuffle.SwapAt | api/generate-questions.js:280 | the array afterwards is its old contents with the two elements exchanged |
| Shuffle.ShuffleInPlace | api/generate-questions.js:278-281 | the loop leaves the array as the full backward pass over its old contents and consumes one draw per index from the last down to 1 |
| Shuffle.ShuffleArray | api/generate-questions.js:276-283 | the in-place pass over a copy yields the Fisher-Yates permutation of the input, with its length and multiset, and consumes `n - 1` draws |
| Distractors.Placeholder | api/generate-questions.js:269 | the placeholder for slot `n` is "Option " followed by the letter `65 + n` |
| Distractors.KeepRecord | api/generate-questions.js:221-223 | one record passes the filter, as itself, exactly when it has the category and an answer other than the correct one |
| Distractors.SameCategoryOthers | api/generate-questions.js:221-223 | the filter is no longer than the pool and keeps exactly the pool records of the category whose answer differs from the correct one |
| Distractors.SameCategoryOthersAppend | api/generate-questions.js:221-223 | the filter of a concatenation is the filters of its parts, in order, so the kept records keep pool order and multiplicity |
| Distractors.SimilarCount | api/generate-questions.js:226 | `min(2, similar.length)` |
| Distractors.Answers | api/generate-questions.js:226-228 | the answers of some records, one per record, in order |
| Distractors.TakeAnswers | api/generate-questions.js:226-228 | the same-category loop pushes the answers of the first `k` similar records, in order |
| Distractors.GenericIsNoPlaceholder | api/generate-questions.js:231-255 | no generic answer is a placeholder label |
| Distractors.Drawn | api/generate-questions.js:260 | a draw selects an answer of the generic list |
| Distractors.Accept | api/generate-questions.js:261-263 | a drawn answer is appended exactly when it is neither the correct answer nor already a slot; otherwise the slots are unchanged |
| Distractors.FillGeneric | api/generate-questions.js:258-265 | the generic loop never drops a slot and never moves back in the stream of draws |
| Distractors.FillGenericGrows | api/generate-questions.js:258-265 | the loop keeps its starting slots, fills at most three, makes at most the draws it is allowed, and stops short of three slots only after all of them |
| Distractors.FillGenericPicks | api/generate-questions.js:258-265 | every slot the loop fills holds a generic answer, other than the correct one and every earlier slot, selected by one of the draws it made |
| Distractors.FillGenericRejects | api/generate-questions.js:259-264 | every draw the loop makes is the correct answer or one of the final slots, so no draw that passes the test is dropped |
| Distractors.FillGenericStops | api/generate-questions.js:259-264 | when the loop fills the third slot that slot holds its last draw: drawing stops at the third acceptance |
| Distractors.FillGenericAvoids | api/generate-questions.js:261 | the loop never adds the correct answer |
| Distractors.DrawGeneric | api/generate-questions.js:258-265 | the loop with its attempts counter computes the generic fill with 50 draws allowed |
| Distractors.PadPlaceholders | api/generate-questions.js:268-270 | padding never shortens the slots and leaves at least three |
| Distractors.PadPlaceholdersFills | api/generate-questions.js:268-270 | padding keeps the slots and puts the placeholder of each position into every slot up to the third |
| Distractors.PadPlaceholdersAvoids | api/generate-questions.js:268-270 | padding adds nothing but placeholder labels |
| Distractors.PadSlots | api/generate-questions.js:268-270 | the padding loop computes the padded slots |
| Distractors.Completed | api/generate-questions.js:258-272 | the generic loop, the padding and `slice(0, 3)` leave exactly three slots |
| Distractors.CompletedKeeps | api/generate-questions.js:258-272 | the starting slots are kept |
| Distractors.CompletedGenericOrPadded | api/generate-questions.js:258-272 | every later slot is an accepted generic draw, made between the first and the next unused draw, or its own placeholder, and the placeholders come last |
| Distractors.CompletedDrawCount | api/generate-questions.js:258-272 | at most 50 draws are made, and all 50 whenever a placeholder was needed |
| Distractors.CompletedRejects | api/generate-questions.js:258-272 | every draw made is the correct answer or one of the three slots |
| Distractors.CompletedLastDraw | api/generate-questions.js:258-272 | when the third slot is no placeholder, the last draw made filled it |
| Distractors.WrongAnswers | api/generate-questions.js:217-273 | `generateWrongAnswers` yields exactly three answers |
| Distractors.WrongAnswersSlots | api/generate-questions.js:217-273 | the first `min(2, n)` slots are the same-category answers in pool order; each later slot is an accepted generic draw made by this call or its placeholder, and the placeholders come last |
| Distractors.WrongAnswersExcludeCorrect | api/generate-questions.js:217-273 | the correct answer is never among the wrong answers, unless it is itself a placeholder label |
| Distractors.GenerateWrongAnswers | api/generate-questions.js:217-273 | the three loops and the slice return exactly the three wrong answers `WrongAnswers` describes, with the next unused draw |
| Distractors.RepeatedDistractors | api/generate-questions.js:221-228 | two same-category records with one answer give that answer twice |
| Generator.IndexOf | api/generate-questions.js:194 | `indexOf` is -1 iff the value is absent, else its first position |
| Generator.ChoiceOptions | api/generate-questions.js:192-193 | the options are four, and as a multiset they are the correct answer plus the three wrong answers |
| Generator.ChoiceOptionsCorrectOnce | api/generate-questions.js:192-194 | the correct answer is offered exactly once unless it is a placeholder label |
| Generator.ChoiceOptionsDistractors | api/generate-questions.js:192-193 | every other option is an answer of another same-category record, a generic answer or a placeholder |
| Generator.FormatQuestion | api/generate-questions.js:188-210 | an open question copies the record and the difficulty and draws nothing; a choice question's options are the shuffled correct answer and three wrong answers, the correct index is its first occurrence, it is offered exactly once unless it is a placeholder label, and every other option is a same-category, generic or placeholder answer |
| Generator.SampleQuestions | api/generate-questions.js:186-211 | `max(count, 0)` questions, question `i` formatted from `pool[i % |pool|]`: an open question copies the record and draws nothing; a choice question's options are exactly `ChoiceOptions` of that record at the question's own draw position (the wrong answers, then the shuffle, then the correct answer's index), so its answer sits at its index, once unless it is a placeholder label, and every other option is a same-category, generic or placeholder answer for that record; the draw positions run in turn from `pos`, each question starting where the one before stopped, and `next` is where the last one stopped |
| Generator.GenerateTopicQuestions | api/generate-questions.js:155-214 | the request fails (TypeError) iff a positive count meets an empty pool; otherwise `max(count, 0)` questions, question `i` formatted from the shuffled pool at `i % |pool|`, a choice question's options being exactly `ChoiceOptions` of its record at its draw position; the positions start right after the pool shuffle's `Draws(|pool|)` draws and run in turn, and `next` is where the last question stopped |
| Generator.OptionsDrawnAt | api/generate-questions.js:186-211 | in a list generated in turn, question `m` comes from `pool[m % |pool|]`; as a choice question, its options and the position after its draws are `ChoiceOptions` of that record at `ps[m]`, and as an open question it draws nothing |
| Generator.WrapAroundRepeats | api/generate-questions.js:187-188 | once the pool is exhausted questions repeat with period `|pool|`; open questions repeat outright |
| Generator.GeneratedFromTable | api/generate-questions.js:155-213 | every generated question is the text and category of a record of the table, and an open one carries its answer |
| Scoring.SpeedBonus | src/App.js:1493-1503 | the bonus is at most 100, is the number of full 100 ms left of the ten-second window, and is 0 once the window is over |
| Scoring.SpeedBonusMonotone | src/App.js:1503 | a slower answer never earns a larger bonus |
| Scoring.Points | src/App.js:1499-1505 | a correct answer earns 100 to 200 points (200 at 0 ms, 100 from 10 s on); a wrong one 0 |
| Scoring.CountCorrect | src/App.js:1620 | the number of correct answers never exceeds the number of answers |
| Scoring.TotalPointsBounds | src/App.js:1499-1517 | a score built by the rule lies between 100 and 200 points per correct answer |
| HighScores.ScoreTopic | src/App.js:1617 | the topic label is the subtopic, followed by " - " and the genre when one is chosen |
| HighScores.NewHighScore | src/App.js:1614-1621 | the entry carries the score, the difficulty, the topic label of `ScoreTopic`, the date, the number of answers and of correct answers |
| HighScores.Insert | src/App.js:1627 | an insertion step adds exactly one entry |
| HighScores.InsertPlaces | src/App.js:1627 | the entry goes right after the leading entries scoring at least as much and before the first scoring less, the others keeping their order, so an entry added last stays behind those of equal score as the stable sort keeps it |
| HighScores.InsertAtMost | src/App.js:1627 | inserting an entry no better than a bound keeps every entry within it |
| HighScores.ConsSorted | src/App.js:1627 | a sorted list headed by its best entry is sorted |
| HighScores.InsertSorted | src/App.js:1627 | insertion into a sorted list keeps it sorted |
| HighScores.SortByScore | src/App.js:1627 | the sort yields a permutation sorted by score, highest first, and it is the stable sort `InsertAll`: the entries are inserted first to last, each after the entries scoring at least as much |
| HighScores.InsertAllSorted | src/App.js:1627 | sorting a list already sorted by score leaves it unchanged |
| HighScores.SortedPrefixIsBest | src/App.js:1627-1628 | the first `k` entries of a sorted list are taken from it, and no entry after them outscores one of them |
| HighScores.SaveHighScore | src/App.js:1623-1628 | the kept list has `min(n + 1, 10)` entries, is sorted, is taken from the old list and the new entry, no dropped entry outscores a kept one, and it is `Saved`: the first ten of the stable sort of the old list followed by the new entry |
| HighScores.TieWithTenthDropped | src/App.js:1623-1628 | with ten sorted entries stored, a new result scoring no more than the tenth, a tie included, is dropped and the stored list stays as it was |
| Prompt.CleanGenre | src/App.js:1407 | the cleaned genre holds only word and white-space characters of the genre, keeps every word character of it, has no white space at its ends, and is empty iff the strip left only white space |
| Prompt.StripKeepsClean | src/App.js:1407 | the strip leaves a string of word and space characters unchanged |
| Prompt.CleanGenreIdempotent | src/App.js:1407 | cleaning a cleaned genre changes nothing |
| Prompt.PromptFor | src/App.js:1405-1413 | the prompt names the subtopic unless it is a general one without genre, names the topic when no genre is chosen, is the topic name alone for a general subtopic without genre, and starts with the cleaned genre and a space when one is chosen |
| GameSession.Game.constructor | src/App.js:84-92 | the page starts in setup with 30 s, no questions, no score, no answers and no feedback |
| GameSession.Game.ChooseGameTime | src/App.js:3487-3493 | the game-time buttons set 30 or 60 seconds |
| GameSession.Game.StartGame | src/App.js:1396-1413 | nothing happens without both topic and subtopic; otherwise the game is generating and the prompt is built |
| GameSession.Game.FinishGeneration | src/App.js:1474-1487 | on success the game plays the fetched questions from question 0 with no score and no answers and the full game time; on failure it returns to setup |
| GameSession.Game.AnswerGame | src/App.js:1490-1517 | the answer is correct iff its index is the correct one; exactly one record is appended and the score grows by its points; the feedback captures the index, the count, the new score and the earlier answers |
| GameSession.Game.Advance | src/App.js:1519-1532 | after the delay the feedback clears and the game moves to the question after the one answered, or after the last one ends in results and hands on the captured score and answers |
| GameSession.Game.Tick | src/App.js:108-122 | while playing with time left the clock drops by one second and the game ends at 0; otherwise nothing changes |
| GameSession.Game.PlayAgain | src/App.js:3875-3880 | back to setup with no score, no answers and the first question |
| GameScenarios.RunOutOfTime | src/App.js:108-122 | a game without answers ends after 30 ticks in results with no answers, no score and no time left |
| GameScenarios.AnswerWithinOneSecond | src/App.js:1490-1532 | one second of play, a correct answer 200 ms into the question, the countdown tick of `src/App.js:108-122` and the end of the 800 ms delay, adds 198 points and one answer, takes one second off the clock, and moves on or ends the game on the last question |
| GameScenarios.AnswerEverything | src/App.js:1490-1532 | answering all of fewer than 30 questions correctly 200 ms after each appears, one second per question, ends in results with every answer recorded, 198 points each and `30 - n` seconds left, while the high-score entry sees one answer fewer |

## Left out

- The HTTP handler of `api/generate-questions.js`, its defaults and its response format are not modelled. The defaults are `prompt || topic`, `questionCount || 10`, `difficulty || 'medium'` and the mini-game flag. The model starts at `generateTopicQuestions`.
- The request to the remote language model, the response parsing and the JSON cleanup in `startGame` are not modelled. `FinishGeneration` receives the outcome as a parameter.
- `topics.find` and `subtopics.find`, which look up the display names in the page's topic list, are not modelled. `StartGame` receives the names.
- The prompt builder is modelled once. The copies at `src/App.js:1339-1347` and `1366-1373` are identical to the one in `startGame`.
- Authentication, the user record, `localStorage` and the `if (users[user.username])` lookup are not modelled. `SaveHighScore` works on the list itself. The `isAuthenticated && user` guard before `saveHighScore` is not modelled either.
- Dates (`new Date().toISOString()`) and `Date.now()` are parameters. Response times are whole milliseconds. `toFixed(2)` is not modelled.
- Randomness.Pick: the floor is taken over the exact product of the draw and `n`. In double precision the product can round up to the next integer; for example the double draw `0.34782608695652173`, just below 8/23, times 23 rounds to 8.0, so `Math.floor` gives 8 where the exact floor is 7.
- Floating point is not modelled. Draws are exact reals in [0, 1), and the speed bonus is computed on integers. The bonus agrees with the floating-point formula except where rounding of `(10 - t) * 10` crosses an integer.
- `JsStrings.Lower`: lower-cases ASCII letters only. Every key and name in the table is ASCII.
- The question table `SampleTable.SampleDatabase` holds a few of the source's records, under three of its six topics. `SourceKeys` lists all six keys. `AncientRomeFallsBack` holds for any table keyed by them, and `SampleAncientRomeFallsBack` applies it to the sample.
- StripNonWord: its own contract states which characters survive. That they keep their order and number is stated by `KeepChar` and `StripNonWordAppend`.
- SameCategoryOthers: its own contract states which records survive. That they keep pool order and multiplicity is stated by `KeepRecord` and `SameCategoryOthersAppend`.
- FillGeneric: its own contract states only that it keeps the slots and moves forward in the draws. What it accepts, rejects and when it stops is stated by the `FillGeneric…` and `Completed…` lemmas.
- A null `topicInput` is modelled as the empty string, which is what `(topicInput || '')` yields.
- The sort is modelled as a stable insertion sort over sequences, not the engine's in-place sort. Only the order it produces is stated.
- `GameSession.Game.AnswerGame`: requires the current question to name one of its own options and the chosen index to be an option. The page only offers existing options. A malformed response would record `undefined` texts, which is not modelled.
- GameScenarios.AnswerWithinOneSecond: the countdown's tick and the end of the feedback delay fall due at the same second; the model takes the tick first. Which timer the browser runs first, and the few milliseconds each timer lags, are not modelled.
- The rendering, the scrolling helpers and every other screen of the page are not modelled.

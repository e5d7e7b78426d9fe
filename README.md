# Quiz Copa do Mundo — a Dafny model of the game's core

This project models the core of *Quiz Copa do Mundo*, a World Cup trivia
game built with Next.js and Supabase, and proves properties of that model.
The core is:

- the scoring library: base points by difficulty, the speed and streak
  bonuses, XP by game mode, level thresholds, the level reached and the
  progress towards the next one, and the level titles;
- the achievement catalogue and its lookups;
- the quiz session hook (`useQuiz`), the countdown timer component and
  hook, and the question card (answer selection and the 50/50 hint);
- the result screen: accuracy, level-up detection, the achievement checks
  and the one-shot save of a finished session;
- the API routes for questions, duels, friends, the activity feed, the
  daily streak and the rankings;
- the ranking, profile and activity pages' own computations;
- the seed script that normalises and writes the question bank;
- the conversion of the VAPID public key for push notifications.

Pure code is modelled as functions with lemmas. Code that changes state
step by step is modelled imperatively:

- React state and the routes' database tables become classes whose fields
  the methods reassign.
- Loops become methods with invariants, each proved against a
  specification function.

The database, the clock, `Math.random` and the network are parameters of
the model. Integer arithmetic replaces JavaScript's floating point where
the source's numbers are exact integers; each such boundary is stated in
integer form, and "Left out" below says where this matters.

Modules, one per file (`types.dfy` also holds `Http`):

| module | models |
|---|---|
| `Types`, `Http` | the shared types, `Option`/`Result`, and status-coded responses |
| `Text`, `Percent` | `parseInt`, `String(n)`, `padStart`, `trim`, `toLowerCase`, and `Math.round` of a percentage |
| `Scoring` | `src/lib/scoring.ts` |
| `Achievements` | `src/lib/achievements.ts` |
| `QuizSession` | `src/hooks/useQuiz.ts` |
| `Timer` | `src/components/quiz/Timer.tsx` |
| `QuestionCard` | `src/components/quiz/QuestionCard.tsx` |
| `ResultScreen` | `src/components/quiz/ResultScreen.tsx` |
| `QuestionsRoute`, `DuelsRoute`, `FriendsRoute`, `FeedRoute`, `Streak` | the API routes under `src/app/api/` |
| `Ranking` | `src/app/api/ranking/route.ts` and `src/app/ranking/page.tsx` |
| `ProfilePage`, `ActivitiesPage` | `src/app/perfil/page.tsx`, `src/app/atividades/page.tsx` |
| `Seed` | `scripts/seed-questions.ts` |
| `PushKey` | `urlBase64ToUint8Array` in `src/hooks/usePushNotifications.ts` |

## Model

| member | source | states |
|---|---|---|
| Scoring.BaseScore | src/lib/scoring.ts:32-34 | a correct answer is worth 100, 150 or 200 points: 100 plus 50 per difficulty step above `facil` |
| Scoring.BaseScoreIncreasing | src/lib/scoring.ts:7-11 | one difficulty is harder than another exactly when its base score is higher |
| Scoring.SpeedBonusRange | src/lib/scoring.ts:47-48 | with time left within the total, `floor(50 × remaining / total)` lies in 0..50 and is 50 when no time has elapsed |
| Scoring.SpeedBonus | src/lib/scoring.ts:42-49 | no time left earns 0; time left within the total earns 0..50; a full clock earns 50 |
| Scoring.SpeedBonusMonotone | src/lib/scoring.ts:42-49 | answering with more time left never earns a smaller bonus |
| Scoring.StreakBonus | src/lib/scoring.ts:54-66 | the streak bonus is zero exactly when the streak is below 3 |
| Scoring.StreakBonusIsHighestReachedThreshold | src/lib/scoring.ts:54-66 | the bonus is the table's value at the largest threshold the streak reaches, and 0 when it reaches none |
| Scoring.StreakThresholdsAreTheTableSorted | src/lib/scoring.ts:56-58 | the thresholds the loop visits are exactly the keys of `STREAK_BONUS`, in strictly descending order |
| Scoring.StreakBonusMonotone | src/lib/scoring.ts:22-27 | a longer streak never earns a smaller bonus |
| Scoring.GetStreakBonus | src/lib/scoring.ts:54-66 | the loop over the descending thresholds returns the highest-reached-threshold bonus |
| Scoring.AnswerScore | src/lib/scoring.ts:71-91 | a wrong answer scores 0; a right one scores at least base plus streak bonus (at least 100), exactly that without timing, and at most 50 more with time left within the total |
| Scoring.XP | src/lib/scoring.ts:96-98 | a score of 0 earns no XP; a non-negative score earns between 0 and 15% of itself, the duel rate being the highest |
| Scoring.XPMonotone | src/lib/scoring.ts:96-98 | in a given mode a higher score never earns less XP |
| Scoring.XPForLevel | src/lib/scoring.ts:103-104 | levels up to 1 need no XP |
| Scoring.XPForLevelIsFloorOfPower | src/lib/scoring.ts:105-106 | from level 2 the threshold t satisfies t² ≤ 10000·level³ < (t+1)², so it is `floor(100 × level^1.5)` computed exactly |
| Scoring.XPForLevelTwo | src/lib/scoring.ts:106 | level 2 needs 282 XP |
| Scoring.XPForLevelFour | src/lib/scoring.ts:106 | level 4 needs 800 XP |
| Scoring.XPForLevelStep | src/lib/scoring.ts:103-107 | every level from 1 on needs strictly less XP than the next |
| Scoring.XPForLevelIncreasing | src/lib/scoring.ts:103-107 | the thresholds strictly increase with the level from level 1 on |
| Scoring.XPForLevelMonotone | src/lib/scoring.ts:103-107 | a higher level never needs less XP |
| Scoring.LevelFrom | src/lib/scoring.ts:113-116 | counting up from a level whose threshold is reached ends at a level whose threshold is reached and whose successor's is not |
| Scoring.LevelBracket | src/lib/scoring.ts:112-118 | the level of an XP total is at least 1, its threshold is reached and the next level's is not |
| Scoring.LevelIsLargestCovered | src/lib/scoring.ts:112-118 | every level whose threshold the total reaches is at most the computed level |
| Scoring.LevelIsBelowUncovered | src/lib/scoring.ts:112-118 | a total short of level k+1's threshold has level at most k |
| Scoring.LevelPasses | src/lib/scoring.ts:114 | the level exceeds k exactly when level k+1's threshold is reached |
| Scoring.LevelUnique | src/lib/scoring.ts:112-118 | only one level brackets a given total, so the computed level is that one |
| Scoring.LevelAtThreshold | src/lib/scoring.ts:112-118 | exactly the threshold of a level puts the player at that level |
| Scoring.LevelBelowThreshold | src/lib/scoring.ts:112-118 | one XP short of level k+1's threshold is still level k |
| Scoring.LevelMonotone | src/lib/scoring.ts:112-118 | more XP never means a lower level |
| Scoring.GetLevelFromXP | src/lib/scoring.ts:112-118 | the counting loop returns the level that brackets the total |
| Scoring.FloorPercent | src/lib/scoring.ts:131 | a part below the whole gives 0..99 per cent, and no part gives 0 |
| Scoring.ProgressInSpan | src/lib/scoring.ts:123-132 | a level's span to the next is positive, and progress is the floor percentage of the XP gained inside it |
| Scoring.LevelProgressOf | src/lib/scoring.ts:124-126 | progress is measured in the span of the level the total brackets |
| Scoring.LevelProgressRange | src/lib/scoring.ts:123-132 | for a non-negative total the progress is 0..99 per cent, never 100 |
| Scoring.LevelProgressAtThreshold | src/lib/scoring.ts:123-132 | a total exactly at a threshold shows 0% progress |
| Scoring.LevelTier | src/lib/scoring.ts:137-143 | the title's minimum level is reached and no higher title's is |
| Scoring.LevelTierMonotone | src/lib/scoring.ts:137-143 | a higher level never gets a lower title |
| Achievements.ParseTypeKey | src/types/index.ts:66-78 | reading back an achievement type's key gives the type |
| Achievements.TypeKeyParse | src/types/index.ts:66-78 | a string that reads as a type is that type's key |
| Achievements.TypeKeyInjective | src/types/index.ts:66-78 | distinct types have distinct keys |
| Achievements.TypeKeys | src/lib/achievements.ts:3-76 | the keys of a list of types, position by position |
| Achievements.TypeKeysMembership | src/lib/achievements.ts:3-76 | a type's key is among a list's keys exactly when the type is in the list |
| Achievements.GetAchievementInfo | src/lib/achievements.ts:3-83 | the entry stored under a type carries, as its own written id, exactly the key it is stored under, so the id reads back as the type asked for |
| Achievements.EntriesOf | src/lib/achievements.ts:88-90 | the entries of a list of types, position by position |
| Achievements.TableIndex | src/lib/achievements.ts:3-76 | every type has a position in the table's declaration order |
| Achievements.TableIndexOfOrder | src/lib/achievements.ts:3-76 | the position of the i-th declared type is i |
| Achievements.TableOrderDistinct | src/lib/achievements.ts:3-76 | no type is declared twice |
| Achievements.AllAchievementsDistinct | src/lib/achievements.ts:88-90 | the catalogue lists 12 achievements with distinct ids, `first_quiz` first and `early_bird` last |
| Achievements.AllAchievementsComplete | src/lib/achievements.ts:81-90 | every type's entry is in the catalogue |
| Achievements.FilterTypes | src/lib/achievements.ts:3-76 | the kept types are exactly the listed ones whose key is among the ids |
| Achievements.FilterByIds | src/components/quiz/ResultScreen.tsx:117-119 | the kept achievements are exactly those of the list whose id is among the ids |
| Achievements.FilterEntries | src/lib/achievements.ts:88-90 | filtering entries by id is the same as filtering the types by key and taking their entries |
| Achievements.EntriesOfAppend | src/lib/achievements.ts:88-90 | the entries of two lists joined are the two lists of entries joined |
| Achievements.FilterTypesInOrder | src/lib/achievements.ts:3-76 | filtering keeps the table's declaration order |
| Achievements.FilterAllKeepsTableOrder | src/lib/achievements.ts:88-90 | filtering the whole catalogue by ids gives the matching entries in declaration order |
| ResultScreen.Errors | src/components/quiz/ResultScreen.tsx:46 | the errors and the correct answers add up to the number of questions |
| ResultScreen.StatsAgree | src/components/quiz/ResultScreen.tsx:43-47 | accuracy lies in 0..100; a perfect round is one with no errors and shows 100%; below 200 questions, 100% is shown only for a perfect round |
| ResultScreen.LevelChange | src/components/quiz/ResultScreen.tsx:50-56 | the old and new XP and the old level fall back as the screen's `\|\|` defaults do; when the stored level is the level of the old XP, the level-up banner shows exactly when the new XP has a higher level |
| ResultScreen.LeveledUpReachesNextLevel | src/components/quiz/ResultScreen.tsx:56 | a flagged level-up always means the new XP reaches at least the next level |
| ResultScreen.TierOf | src/components/quiz/ResultScreen.tsx:316-331 | a perfect round gets the top tier; otherwise the accuracy bands 80, 60 and 40 decide, each tier for exactly its band |
| ResultScreen.TierMonotone | src/components/quiz/ResultScreen.tsx:316-331 | a higher accuracy never gets a lower tier |
| ResultScreen.LevelAchievementsNested | src/components/quiz/ResultScreen.tsx:218-222 | earning the level 100 badge implies the level 50 one, which implies the level 10 one |
| ResultScreen.AddIfNew | src/components/quiz/ResultScreen.tsx:190-194 | a type unlocked before is never added and any other is added once at the end, and adding a type the list lacks keeps the list free of duplicates |
| ResultScreen.Pushed | src/components/quiz/ResultScreen.tsx:190-194 | one check pushes its type exactly when the type is earned and not already unlocked |
| ResultScreen.ExpectedIsAnswer | src/components/quiz/ResultScreen.tsx:196-242 | the checks in order list exactly the earned, not yet unlocked types, each once |
| ResultScreen.CheckNewAchievements | src/components/quiz/ResultScreen.tsx:170-249 | the new ids are exactly the earned types not already unlocked, without duplicates |
| ResultScreen.ShownAchievements | src/components/quiz/ResultScreen.tsx:113-120 | the cards shown are the catalogue entries of exactly the new types, in catalogue order |
| ResultScreen.SessionSaver.constructor | src/components/quiz/ResultScreen.tsx:36-38 | the guard starts unset and nothing has been written or shown |
| ResultScreen.SessionSaver.Save | src/components/quiz/ResultScreen.tsx:67-167 | without a profile or once the guard is set nothing changes; otherwise the guard is set before any write and cleared on failure, one session row is inserted unless the insert fails, XP is credited only when positive, and the new achievements are shown only when the run completes |
| ResultScreen.SavedOnceWhenRunTwice | src/components/quiz/ResultScreen.tsx:38 | running the effect twice, as Strict Mode does, inserts one session and credits XP at most once |
| ResultScreen.RetryAfterInsertError | src/components/quiz/ResultScreen.tsx:86-90 | after a failed insert a second run inserts the session once |
| ResultScreen.RetryAfterLateFailure | src/components/quiz/ResultScreen.tsx:159-162 | an exception after the insert clears the guard, so a second run inserts the same session again |
| QuizSession.CountCorrect | src/hooks/useQuiz.ts:117-119 | the right answers in a log never outnumber its entries |
| QuizSession.CountCorrectAppend | src/hooks/useQuiz.ts:111-119 | logging one more answer adds one to the count exactly when it is right |
| QuizSession.EarnedAtLeastBase | src/hooks/useQuiz.ts:97-117 | when each logged answer earned nothing if wrong and at least the 100 base points if right, the points add up to at least 100 per right answer |
| QuizSession.StartTime | src/hooks/useQuiz.ts:75-79 | Desafio starts a five-minute clock, Duelo and Diário one question's time, and Treino keeps whatever clock it had |
| QuizSession.CurrentQuestion | src/hooks/useQuiz.ts:82 | there is a current question exactly when the index is inside the list, and it is the question at the index |
| QuizSession.AnswerPoints | src/hooks/useQuiz.ts:90-103 | a wrong answer scores nothing and a right one at least the 100 base points |
| QuizSession.FreshConsistent | src/hooks/useQuiz.ts:63-72 | a freshly started run is consistent: nothing answered, nothing scored, and its score of 0 is the sum of no points |
| QuizSession.AfterAnswerConsistent | src/hooks/useQuiz.ts:114-126 | answering the current question of a running quiz keeps the run consistent: the question is logged once, the right-answer count still equals the right entries of the log, and the score is still the sum of the points each logged answer earned (none when wrong, at least 100 when right) |
| QuizSession.AfterSkipConsistent | src/hooks/useQuiz.ts:203-211 | skipping keeps the run consistent |
| QuizSession.FinishConsistent | src/hooks/useQuiz.ts:164 | ending the run on time-up keeps it consistent |
| QuizSession.AnswersAtMostQuestions | src/hooks/useQuiz.ts:86-160 | in a consistent run, right answers ≤ answers logged ≤ questions, since no question is answered twice |
| QuizSession.ResultBounds | src/hooks/useQuiz.ts:130-142 | a reported result has best streak ≤ right answers ≤ answers ≤ questions, at least 100 points per right answer, and non-negative XP |
| QuizSession.Quiz.constructor | src/hooks/useQuiz.ts:47-80 | the hook mounts with a fresh run, no best streak, and the mode's starting clock |
| QuizSession.Quiz.HandleAnswer | src/hooks/useQuiz.ts:86-160 | a finished run or a missing question changes nothing; otherwise the answer is scored and logged, the best streak rises to the new streak, the per-question clock restarts in Duelo and Diário unless finishing, and on the last question the result is reported |
| QuizSession.Quiz.HandleTimeUp | src/hooks/useQuiz.ts:162-178 | in Desafio the run ends and reports its result with 300 seconds spent, again on every call; in any other mode time-up is an answer of -1 (right only if the stored answer is -1), with the same effects as that answer: nothing once finished, otherwise the answer is scored and logged, the best streak and per-question clock updated, and the result reported on the last question |
| QuizSession.Quiz.Reset | src/hooks/useQuiz.ts:180-198 | the same questions restart from a fresh run, the best streak is cleared, and the mode's clock is set again |
| QuizSession.Quiz.Skip | src/hooks/useQuiz.ts:200-212 | only a running Treino quiz moves on, clearing the streak, or ends on the last question; nothing else changes |
| QuizSession.Quiz.SetTimeRemaining | src/hooks/useQuiz.ts:59 | the clock takes the given value and the run is untouched |
| QuizSession.PerfectTreinoRun | src/hooks/useQuiz.ts:86-160 | three right answers to easy questions in Treino score 100 + 100 + 125 = 325 points, a best streak of 3 and 16 XP |
| QuizSession.TimeUpOnLastQuestion | src/hooks/useQuiz.ts:175-177 | time running out on the only question of a Duelo run finishes it and reports a result with one wrong answer, no points and no streak |
| Timer.TickStep | src/components/quiz/Timer.tsx:33-39 | one second passing ends the countdown exactly when at most one second was left, leaving 0; otherwise one second less remains |
| Timer.TickStepBounds | src/components/quiz/Timer.tsx:33-39 | with time left, a tick strictly decreases it without going below 0, and time runs out exactly from 1 |
| Timer.Countdown.constructor | src/components/quiz/Timer.tsx:15-23 | the time left starts at the total, and time has not run out |
| Timer.Countdown.SetTotalSeconds | src/components/quiz/Timer.tsx:25-27 | a new total restarts the countdown from it; the same total leaves the countdown as it was |
| Timer.Countdown.SetPaused | src/components/quiz/Timer.tsx:29-30 | pausing or resuming changes nothing but the flag |
| Timer.Countdown.Tick | src/components/quiz/Timer.tsx:29-43 | paused or at zero nothing happens; otherwise one tick step is taken, and `onTimeUp` fires at most once per countdown |
| Timer.TimerHook.constructor | src/components/quiz/Timer.tsx:227-230 | the hook starts running with the full time left, not finished |
| Timer.TimerHook.Reset | src/components/quiz/Timer.tsx:232-236 | the full time is restored, running and not finished |
| Timer.TimerHook.Pause | src/components/quiz/Timer.tsx:238 | the hook is paused and nothing else changes |
| Timer.TimerHook.Resume | src/components/quiz/Timer.tsx:239 | the hook runs again and nothing else changes |
| Timer.TimerHook.Tick | src/components/quiz/Timer.tsx:241-256 | paused, finished or at zero nothing happens; otherwise one tick step is taken, and running out sets the finished flag and fires `onTimeUp` once |
| Timer.TicksUntilTimeUp | src/components/quiz/Timer.tsx:227-256 | a fresh hook of n > 0 seconds left running runs out on exactly its n-th tick |
| Timer.JsRem | src/components/quiz/Timer.tsx:63 | JavaScript's `%`: the usual remainder for a non-negative dividend, and a remainder in (-60, 0] for a negative one |
| Timer.ParseFormatTime | src/components/quiz/Timer.tsx:61-65 | the `m:ss` text of a non-negative number of seconds reads back as that number |
| Timer.ClockReadsBack | src/components/quiz/Timer.tsx:64 | minutes and seconds below 60, written as `m:ss`, read back as their total in seconds |
| Timer.SecondsField | src/components/quiz/Timer.tsx:64 | seconds below 60 are padded to exactly two digits that read back as the seconds |
| Timer.FormatTimeInjective | src/components/quiz/Timer.tsx:61-65 | two different non-negative times never show the same text |
| Timer.CriticalIsLow | src/components/quiz/Timer.tsx:45-47 | critical time (at most 10% left) is always low time (at most 25% left) |
| Timer.TimeColorOf | src/components/quiz/Timer.tsx:49-59 | green exactly above half the time left, red exactly in low time |
| Timer.TimeColorMonotone | src/components/quiz/Timer.tsx:49-59 | more time left never gives a more urgent colour |
| QuestionCard.WrongOptions | src/components/quiz/QuestionCard.tsx:89-91 | the wrong options are exactly the option indices other than the right answer, in increasing order: one fewer than the options when the right answer is among them |
| QuestionCard.Take | src/components/quiz/QuestionCard.tsx:94 | `slice(0, k)`: the first k elements, or all of them when there are fewer |
| QuestionCard.PermutationNoDuplicates | src/components/quiz/QuestionCard.tsx:93 | reordering a list without repeats leaves it without repeats |
| QuestionCard.HintPickProperties | src/components/quiz/QuestionCard.tsx:85-98 | the hint strikes out at most two options, all distinct, none of them the right answer, and exactly two on a four-option question |
| QuestionCard.HintButtonGone | src/components/quiz/QuestionCard.tsx:169 | the hint button disappears once an answer shows, and once a hint has struck out options of a question with at least two options, so it is offered at most once per question |
| QuestionCard.StyleOf | src/components/quiz/QuestionCard.tsx:100-118 | an option is struck out exactly when eliminated; otherwise it is hoverable exactly before an answer, drawn right exactly when it is the right answer, and drawn wrong exactly when it is the wrong pick |
| QuestionCard.ShownAnswerStyles | src/components/quiz/QuestionCard.tsx:100-118 | once an answer shows, the pick is drawn right or wrong according to whether it is right, and the right answer is drawn right, unless struck out |
| QuestionCard.Card.constructor | src/components/quiz/QuestionCard.tsx:51-53 | a card starts with no answer, no result shown and nothing eliminated |
| QuestionCard.Card.SetQuestion | src/components/quiz/QuestionCard.tsx:56-68 | a question with a new id clears the answer, the result and the eliminations; the same id keeps them |
| QuestionCard.Card.HandleAnswer | src/components/quiz/QuestionCard.tsx:70-83 | a disabled card, a shown result or a struck-out option ignores the click; otherwise the pick is recorded, the result shown and the pick passed on, at most once per question |
| QuestionCard.Card.HandleUseHint | src/components/quiz/QuestionCard.tsx:85-98 | the hint is used exactly when a handler exists and hints remain, and then the struck-out options are the first two of the shuffled wrong ones |
| QuestionCard.OneAnswerPerQuestion | src/components/quiz/QuestionCard.tsx:72 | a second click on the same card is ignored |
| Types.OrElse | src/components/quiz/ResultScreen.tsx:50-52 | `x \|\| d` on a nullable number: the value when it is present and non-zero, the default otherwise |
| Types.SliceEnd | src/app/api/questions/route.ts:57 | the end `slice(0, end)` uses never passes the list's length; a non-negative end is capped at the length, a negative one counts from the back, and NaN takes nothing |
| QuestionsRoute.Select | src/app/api/questions/route.ts:18-32 | the rows returned are exactly the table's rows that pass the given filters, each at most as often as in the table |
| QuestionsRoute.SelectAll | src/app/api/questions/route.ts:18-32 | without filters the query returns the whole table |
| QuestionsRoute.LimitOf | src/app/api/questions/route.ts:15 | an absent or empty `limit` means 10 |
| QuestionsRoute.Pick | src/app/api/questions/route.ts:52 | `Math.floor(Math.random() * (i + 1))` picks an index between 0 and i |
| QuestionsRoute.SwapPermutes | src/app/api/questions/route.ts:53 | swapping two elements permutes the list |
| QuestionsRoute.ShuffledPermutes | src/app/api/questions/route.ts:50-54 | the Fisher–Yates shuffle is a permutation of its input |
| QuestionsRoute.FisherYates | src/app/api/questions/route.ts:50-54 | the in-place loop leaves the array holding the shuffle of its old contents, a permutation of them |
| QuestionsRoute.ShuffledPrefix | src/app/api/questions/route.ts:50-57 | any prefix of the shuffled selection takes rows from the table, no row more often than it occurs, all passing the filters |
| QuestionsRoute.GetQuestions | src/app/api/questions/route.ts:7-67 | a failed query answers 500 and an empty selection 404; otherwise the answer is the shuffled selection cut at the limit, drawn from the table and matching the filters |
| DuelsRoute.CountOf | src/app/api/duels/route.ts:17 | an absent `questionCount` means 10; a given one is used as it is |
| DuelsRoute.Pool | src/app/api/duels/route.ts:20-27 | the candidate ids are exactly the ids of the table's questions in the category, or of all of them when the category is absent or `all` |
| DuelsRoute.FetchIds | src/app/api/duels/route.ts:20-29 | the query fails exactly for a negative limit, and otherwise returns the first `questionCount` candidates |
| DuelsRoute.PoolDistinct | src/app/api/duels/route.ts:20-27 | when question ids are unique, so are the candidates |
| DuelsRoute.ReorderDistinct | src/app/api/duels/route.ts:39 | reordering a list of distinct ids keeps them distinct |
| DuelsRoute.SelectionProperties | src/app/api/duels/route.ts:29-40 | when enough candidates exist the duel gets exactly `questionCount` ids, all from the candidates, and no id twice when question ids are unique |
| DuelsRoute.NewDuel | src/app/api/duels/route.ts:43-49 | a new duel is pending, belongs to the challenger, holds the chosen questions, and has no opponent, scores or completion time yet |
| DuelsRoute.DuelStore.constructor | src/app/api/duels/route.ts:43-51 | the duels table starts empty |
| DuelsRoute.DuelStore.WithId | src/app/api/duels/route.ts:93 | the rows selected are exactly the stored duels with that id, none when no duel has it |
| DuelsRoute.DuelStore.Get | src/app/api/duels/route.ts:76-109 | a missing or empty id answers 400; an unknown id answers 404; any duel returned is stored under the id asked for |
| DuelsRoute.DuelStore.GetFindsStored | src/app/api/duels/route.ts:76-109 | every stored duel is found by its own id |
| DuelsRoute.DuelStore.WithIdUnique | src/app/api/duels/route.ts:93 | with unique ids, the selection by a stored duel's id is that duel alone |
| DuelsRoute.DuelStore.Create | src/app/api/duels/route.ts:5-73 | no user answers 401 and too few questions 400; an error stores nothing; success stores exactly one new pending duel with `questionCount` questions, answers its id and share URL, and lets it be read back; with enough questions and working writes it succeeds |
| FriendsRoute.AcceptedOf | src/app/api/friends/route.ts:15-27 | the rows read are exactly the accepted friendships the user is on either side of |
| FriendsRoute.EntriesFor | src/app/api/friends/route.ts:35-41 | each friendship becomes one entry, in order, naming the other party |
| FriendsRoute.FriendsOf | src/app/api/friends/route.ts:14-41 | the friends list holds an entry for every accepted friendship of the user, and nothing else |
| FriendsRoute.FriendsListEachOther | src/app/api/friends/route.ts:14-41 | when two users are friends, each appears in the other's list |
| FriendsRoute.PairRows | src/app/api/friends/route.ts:98-101 | the positions found are exactly those of the rows joining the two users, in either direction, in increasing order |
| FriendsRoute.WithEmail | src/app/api/friends/route.ts:67-70 | the profiles found are exactly those with the given email |
| FriendsRoute.ResolveTarget | src/app/api/friends/route.ts:63-80 | a given `friend_id` is the target; without a usable email the `friend_id` stands; an email lookup that succeeds yields the id of a profile whose email is the lower-cased one |
| FriendsRoute.DecideFor | src/app/api/friends/route.ts:82-134 | a pending friendship is accepted only when it is the single row joining the pair; a new row is inserted only for a target that is given, not the caller, and not joined by exactly one row; anything else is a 404 or 400 |
| FriendsRoute.AtMostOneRowPerPair | src/app/api/friends/route.ts:97-102 | in a table without two rows for one pair, at most one row joins any two users |
| FriendsRoute.AppendWellFormed | src/app/api/friends/route.ts:128-134 | adding a row with a fresh id for a pair with no row keeps one row per pair |
| FriendsRoute.InsertThenAlreadyFriends | src/app/api/friends/route.ts:104-144 | after a friend is added, the table still has one row per pair and asking again answers "Vocês já são amigos" |
| FriendsRoute.AcceptThenAlreadyFriends | src/app/api/friends/route.ts:104-124 | after a pending request is accepted, the table still has one row per pair and asking again answers "Vocês já são amigos" |
| FriendsRoute.SamePairRowsAgree | src/app/api/friends/route.ts:112-115 | changing only a row's status does not change which rows join a pair |
| FriendsRoute.Remaining | src/app/api/friends/route.ts:169-173 | the delete removes exactly the rows with that id that involve the caller |
| FriendsRoute.RemainingWellFormed | src/app/api/friends/route.ts:169-173 | deleting keeps one row per pair |
| FriendsRoute.DeleteSparesOthers | src/app/api/friends/route.ts:173 | a friendship the caller is not part of is never deleted |
| FriendsRoute.AddedAreFriends | src/app/api/friends/route.ts:104-144 | after an insert or an accept the caller and the target are friends |
| FriendsRoute.FriendsStore.constructor | src/app/api/friends/route.ts:15-16 | the friendships table starts empty, with the given profiles |
| FriendsRoute.FriendsStore.Get | src/app/api/friends/route.ts:5-48 | no user answers 401 and a failed query 500; otherwise the list holds exactly the caller's accepted friendships, each naming the other party |
| FriendsRoute.FriendsStore.Post | src/app/api/friends/route.ts:51-149 | no user answers 401; a rejection or a failed write changes nothing; accepting sets that one row's status to accepted; adding appends one accepted row from caller to target; one row per pair is kept |
| FriendsRoute.FriendsStore.Delete | src/app/api/friends/route.ts:152-184 | no user answers 401, a missing id 400 and a failed delete 500, each changing nothing; otherwise the caller's rows with that id are removed |
| FeedRoute.OtherParties | src/app/api/feed/route.ts:37-39 | the ids listed are exactly the other party of each friendship read |
| FeedRoute.FeedUsers | src/app/api/feed/route.ts:30-42 | the caller comes first, and the users listed are exactly the caller and the other parties of the caller's accepted friendships (only the caller when the read fails) |
| FeedRoute.ByUsers | src/app/api/feed/route.ts:55 | the rows kept are exactly the table's rows by the listed users, none more often than stored |
| FeedRoute.InsertByTime | src/app/api/feed/route.ts:56 | inserting adds exactly the one row to the list's contents |
| FeedRoute.InsertKeepsOrder | src/app/api/feed/route.ts:56 | inserting into a newest-first list keeps it newest first |
| FeedRoute.SortNewestFirst | src/app/api/feed/route.ts:56 | the sort is a permutation of its input, newest first |
| FeedRoute.PrefixOfSorted | src/app/api/feed/route.ts:56-57 | cutting a newest-first list keeps it newest first, and no row cut off is newer than a row kept |
| FeedRoute.FeedQueryIsNewest | src/app/api/feed/route.ts:45-57 | the feed holds at most 50 rows, all by the listed users, newest first, and no matching row left out is newer than one shown |
| FeedRoute.Format | src/app/api/feed/route.ts:65-72 | a row keeps its id, author, type and time; missing data becomes `{}`; the joined profile is the first of an array, the single profile, or absent |
| FeedRoute.FormatAll | src/app/api/feed/route.ts:65-72 | every row is formatted, in order, with its own joined profile |
| FeedRoute.PostedShowsFirst | src/app/api/feed/route.ts:45-57 | an activity newer than every stored one, by a listed user, heads the feed |
| FeedRoute.FeedStore.constructor | src/app/api/feed/route.ts:45-46 | the activity table starts empty |
| FeedRoute.FeedStore.Get | src/app/api/feed/route.ts:21-79 | no user answers 401 and a failed query 500; otherwise the answer is the formatted feed query, at most 50 activities, each by the caller or a friend |
| FeedRoute.FeedStore.Post | src/app/api/feed/route.ts:82-131 | no user answers 401, a missing type or one outside the five known types 400; an error stores nothing; success stores exactly the new row, with `{}` for missing data, and returns it; a known type with a working insert always succeeds |
| Streak.StreakDecision | src/app/api/streak/route.ts:43-68 | playing again the same day keeps the streak and writes nothing; the day after the last game adds one; any other day, or a first game, restarts at 1 |
| Streak.UpdatedStreakPositive | src/app/api/streak/route.ts:43-68 | a streak that gets written is at least 1 |
| Streak.CurrentStreak | src/app/api/streak/route.ts:125-142 | the stored streak counts only when the last game was today or yesterday, and is 0 otherwise; without a last game the stored value (or 0) is shown |
| Streak.PostThenGet | src/app/api/streak/route.ts:4-155 | right after a POST, the GET of the same day reports the streak the POST answered |
| Streak.PostIdempotentWithinDay | src/app/api/streak/route.ts:46-48 | a second POST the same day writes nothing and answers the same streak |
| Streak.ConsecutiveDaysAddOne | src/app/api/streak/route.ts:55-58 | a POST the day after a POST writes the streak plus one |
| Streak.Profiles.constructor | src/app/api/streak/route.ts:19-23 | the profiles table holds the given rows |
| Streak.Profiles.Post | src/app/api/streak/route.ts:4-102 | no user answers 401 and a missing profile 500, changing nothing; otherwise the decided streak is answered and, when it changed, written with today as the last day, unless the write fails with 500 |
| Streak.Profiles.Get | src/app/api/streak/route.ts:105-155 | no user answers 401; a missing profile shows 0; otherwise the current streak of the stored row |
| Ranking.PeriodOf | src/app/api/ranking/route.ts:11 | a given non-empty period is used as it is; an absent or empty one means `alltime` |
| Ranking.LimitOf | src/app/api/ranking/route.ts:12 | an absent or empty `limit` means 50 |
| Ranking.DaysToMonday | src/app/api/ranking/route.ts:20-23 | going back the computed number of days (0..6) from any weekday lands on the most recent Monday, passing no other Monday |
| Ranking.TotalsMeaning | src/app/api/ranking/route.ts:47-52 | a user has a total exactly when one of their sessions counts (a user id and a non-zero score), and the total is the sum of their counted scores |
| Ranking.NoTotalsIffNothingCounts | src/app/api/ranking/route.ts:55-58 | the ranking is empty for lack of totals exactly when no session counts |
| Ranking.Aggregate | src/app/api/ranking/route.ts:47-52 | the `forEach` loop builds exactly the per-user totals |
| Ranking.FindTop | src/app/api/ranking/route.ts:80 | the index found holds a highest score of the unsorted part |
| Ranking.PlaceTop | src/app/api/ranking/route.ts:80 | one selection step permutes the lines, keeps the sorted part, and brings a highest remaining score to the front of the rest |
| Ranking.SortByScore | src/app/api/ranking/route.ts:80 | `sort((a, b) => b.score - a.score)`: the lines end up a permutation of the input, in non-increasing score |
| Ranking.NumberPositions | src/app/api/ranking/route.ts:81 | the loop numbers the lines 1, 2, … in order |
| Ranking.SortedCutIsRanking | src/app/api/ranking/route.ts:80-82 | sorting, numbering and cutting unnumbered lines yields a ranking: numbered from 1, non-increasing, made of input lines, and no line left out scores above a line shown |
| Ranking.PeriodRows | src/app/api/ranking/route.ts:71-78 | one unnumbered line per profile read |
| Ranking.PeriodScoresAreTotals | src/app/api/ranking/route.ts:71-82 | every line of a weekly or monthly ranking shows its user's total over the period's sessions |
| Ranking.PeriodRanking | src/app/api/ranking/route.ts:70-82 | the period branch answers a ranking of the profiles' lines cut to the limit |
| Ranking.XpRows | src/app/api/ranking/route.ts:96-103 | one unnumbered line per profile, scored by XP |
| Ranking.AllTimeIsRanking | src/app/api/ranking/route.ts:84-103 | profiles read in descending XP give an all-time ranking, line i being profile i with its XP |
| Ranking.GetRankings | src/app/api/ranking/route.ts:6-111 | the answer echoes the period; weekly and monthly answer 500 on a failed read, an empty list when nothing counts, and otherwise the ranking of the period totals cut to the limit; other periods answer the profiles by XP, or 500 |
| Ranking.FindUser | src/app/ranking/page.tsx:51 | `find` stops at the first line of the user, or runs off the end when there is none |
| Ranking.UserPositionInRanking | src/app/ranking/page.tsx:49-53 | in a numbered ranking the user has a position exactly when listed, and it is one more than the index of their first line |
| Ranking.MedalEmoji | src/app/ranking/page.tsx:124-131 | only positions 1 to 3 get a medal |
| Ranking.MedalsAreTopThree | src/app/ranking/page.tsx:342 | from position 1 on, a line has a medal exactly when it is highlighted as top three, and the three medals differ |
| Ranking.EmailToSend | src/app/ranking/page.tsx:405-415 | a blank email is refused before any request; otherwise the trimmed, non-empty email is sent |
| Ranking.RankingPage.constructor | src/app/ranking/page.tsx:31 | the friends ranking starts empty |
| Ranking.RankingPage.LoadFriendsRanking | src/app/ranking/page.tsx:79-122 | without a user, a failed request or no friends nothing changes; otherwise the friends ranking is the user and the friends ranked by XP, all of them |
| ProfilePage.SumAppend | src/app/perfil/page.tsx:98-102 | a `reduce` sum over two lists joined is the sum of the two sums |
| ProfilePage.SumPermutation | src/app/perfil/page.tsx:98-102 | a `reduce` sum does not depend on the order of the sessions |
| ProfilePage.StreakOf | src/app/perfil/page.tsx:107 | a game's streak stand-in is capped at 10 |
| ProfilePage.MaxStreak | src/app/perfil/page.tsx:106-108 | the best streak is at least every game's and equal to some game's |
| ProfilePage.ComputeStats | src/app/perfil/page.tsx:89-133 | no sessions give all-zero stats; otherwise the count, the sums of right answers and questions, the rounded accuracy (0 without questions), the rounded average score and the best capped streak; the XP is the profile's either way |
| ProfilePage.StatsOrderIndependent | src/app/perfil/page.tsx:94-118 | the stats do not depend on the order the sessions arrive in |
| ProfilePage.SumsOfSoundRows | src/app/perfil/page.tsx:98-99 | when no game has more right answers than questions, neither do the totals |
| ProfilePage.StatsRanges | src/app/perfil/page.tsx:96-118 | for such games the right answers lie within the questions, the accuracy in 0..100 and the best streak in 0..10 |
| ProfilePage.RecentGames | src/app/perfil/page.tsx:121 | the recent games are the first ten sessions, or all of them when there are fewer |
| ProfilePage.GameAccuracy | src/app/perfil/page.tsx:441-443 | a game without questions shows 0% |
| ProfilePage.GameAccuracyRange | src/app/perfil/page.tsx:441-443 | a sound game shows 0..100%, 100% when every answer was right and 0% when none was |
| ProfilePage.GetModeInfo | src/app/perfil/page.tsx:174-182 | each known mode gets its own badge, and any other text gets the Treino badge |
| ProfilePage.ModeEntriesDistinct | src/app/perfil/page.tsx:175-180 | different modes show different labels |
| ProfilePage.GetLevelSpan | src/app/perfil/page.tsx:205-208 | without a profile the bar shows 0 of 100; otherwise the XP past the level's threshold out of the XP between the level's threshold and the next |
| ProfilePage.LevelSpanBounds | src/app/perfil/page.tsx:205-208 | when the stored level brackets the XP, the bar is filled at least 0 and less than the span |
| ProfilePage.LevelSpanIsProgressSpan | src/app/perfil/page.tsx:203-208 | the bar's span is positive and the percentage shown is the bar's XP over that span |
| Text.ParseNat | src/components/quiz/Timer.tsx:64 | a text reads as a number exactly when it is a non-empty run of digits |
| Text.NatToString | src/components/quiz/Timer.tsx:64 | a number's decimal text is all digits, one digit exactly below 10 and two from 10 to 99 |
| Text.ParseNatToString | src/components/quiz/Timer.tsx:64 | a number's decimal text reads back as the number |
| Text.IntToString | src/components/quiz/Timer.tsx:64 | `String(n)`: the digits of a non-negative number, and a minus sign before the digits of a negative one |
| Text.PadStart | src/components/quiz/Timer.tsx:64 | `padStart(width, c)`: the text keeps its end, is at least `width` long, and is filled with `c` in front |
| Text.IndexOf | src/components/quiz/Timer.tsx:64 | the first position of the character, or the length when it does not occur |
| Text.TrimStart | src/app/ranking/page.tsx:405 | what is cut from the front is all white space, and the rest does not start with white space |
| Text.TrimEnd | src/app/ranking/page.tsx:405 | what is cut from the back is all white space, and the rest does not end with white space |
| Text.TrimEmptyIffBlank | src/app/ranking/page.tsx:405 | `trim()` gives the empty text exactly for a text of white space only |
| Text.TrimIdempotent | src/app/ranking/page.tsx:405 | trimming twice is trimming once |
| Text.DigitRun | src/app/api/questions/route.ts:15 | the leading run of digits, as long as possible |
| Text.LeadingNumber | src/app/api/questions/route.ts:15 | a text starts with a number exactly when it starts with a digit |
| Text.ParseIntToString | src/app/atividades/page.tsx:52-57 | `parseInt` reads back any integer's decimal text, whatever non-digit text follows it |
| Text.LowerChar | src/app/api/friends/route.ts:70 | upper-case ASCII letters become lower case and every other character is kept |
| Text.Lower | src/app/api/friends/route.ts:70 | `toLowerCase()` maps each character in place |
| Text.LowerIdempotent | src/app/api/friends/route.ts:70 | a lower-cased text has no upper-case ASCII letter left, and lower-casing it again changes nothing |
| Percent.RoundDivNearest | src/components/quiz/ResultScreen.tsx:43-45 | `Math.round(a / b)` is within half a unit of the quotient, halves going up |
| Percent.RoundDivUnique | src/components/quiz/ResultScreen.tsx:43-45 | only one integer is that close, so the rounding is the nearest integer |
| Percent.RoundDivExact | src/app/perfil/page.tsx:101-103 | an exact quotient is left as it is |
| Percent.RoundDivMonotone | src/app/perfil/page.tsx:101-103 | a larger dividend never rounds to less |
| Percent.RoundPercentRange | src/components/quiz/ResultScreen.tsx:43-45 | a share of a whole rounds to 0..100 per cent, 0 for nothing and 100 for everything |
| Percent.RoundPercentFullOnlyWhenWhole | src/components/quiz/ResultScreen.tsx:43-47 | below 200 questions, 100% is shown exactly when every answer was right |
| Percent.RoundPercentFullWithAMiss | src/components/quiz/ResultScreen.tsx:43-47 | 199 right out of 200 is already shown as 100% |
| ActivitiesPage.Render | src/app/atividades/page.tsx:57-81 | a text field renders as itself, a number as its decimal text, and a missing field as `undefined` |
| ActivitiesPage.UserName | src/app/atividades/page.tsx:47 | the author's name when it is present and non-empty, "Alguém" otherwise; never empty |
| ActivitiesPage.QuizEmoji | src/app/atividades/page.tsx:53 | the mode's own emoji when it has one, 🎮 otherwise |
| ActivitiesPage.QuizLabel | src/app/atividades/page.tsx:54 | the mode's label when it has one, the mode's own text otherwise |
| ActivitiesPage.Phrase | src/app/atividades/page.tsx:49-86 | a finished quiz shows the mode's emoji and a sentence with its label and accuracy; an unlocked achievement shows 🏅 and its name in quotes; a level-up shows ⬆️ and the new level; a won duel shows ⚔️ and a fixed sentence; a streak milestone shows 🔥 and its number of days; any other type shows 📌 and the generic sentence |
| ActivitiesPage.PostedAchievementMessage | src/app/atividades/page.tsx:60-65 | for an achievement the result screen posts, the feed shows the medal and, in quotes, the name the achievement table gives it |
| ActivitiesPage.GetActivityMessage | src/app/atividades/page.tsx:45-87 | the message opens with the author's name and a space, followed by the type's phrase, under the type's emoji |
| ActivitiesPage.PostedIsOwn | src/app/atividades/page.tsx:180 | an activity the feed stored for a user is highlighted as theirs and as no one else's, and never without a profile |
| ActivitiesPage.ModeKeysLabelled | src/app/atividades/page.tsx:26-43 | every game mode the game posts has a label and an emoji |
| ActivitiesPage.PostedQuizMessage | src/app/atividades/page.tsx:50-59 | for a game the result screen posts, the feed shows the mode's own emoji and label, never the fallbacks, and the accuracy in the sentence reads back as the result screen's rounded percentage |
| Seed.RemoveWhitespace | scripts/seed-questions.ts:55 | `replace(/\s+/g, "")`: the result keeps exactly the non-whitespace characters of its input, in order, and holds no whitespace |
| Seed.RemoveWhitespaceKeeps | scripts/seed-questions.ts:55 | a string without whitespace is left as it is |
| Seed.CategoryMapFixed | scripts/seed-questions.ts:47-54 | every category the table maps to is already in normal form, and a key in normal form maps to itself |
| Seed.FoldedOfLowerStripped | scripts/seed-questions.ts:55 | lower-casing and then removing whitespace always gives a string in normal form |
| Seed.NormalizeCategory | scripts/seed-questions.ts:46-56 | "Copa 2026" becomes "copa2026"; a category outside the table is lower-cased with its whitespace removed; the result is always in normal form, and a category already in normal form is kept |
| Seed.FoldedIsFixed | scripts/seed-questions.ts:55 | the fallback rewrite leaves a string in normal form unchanged |
| Seed.NormalizeCategoryIdempotent | scripts/seed-questions.ts:46-56 | normalising a category twice gives what normalising it once gives |
| Seed.CategoryKeysNormal | scripts/seed-questions.ts:47-52 | each category the game stores is its own normal form |
| Seed.NormalizeDifficulty | scripts/seed-questions.ts:59-72 | a spelling in the table becomes its difficulty's key; any other spelling is only lower-cased |
| Seed.Spellings | scripts/seed-questions.ts:60-69 | each difficulty has three accepted spellings, the first of them its own key |
| Seed.SpellingsNormalize | scripts/seed-questions.ts:60-71 | every accepted spelling of a difficulty normalises to that difficulty's key |
| Seed.DifficultyCaseSensitive | scripts/seed-questions.ts:71 | the table is matched before lower-casing, so "EASY" becomes "easy" and only a second pass maps it to "facil": normalising a difficulty is not idempotent |
| Seed.FindIndex | scripts/seed-questions.ts:80 | `findIndex`: -1 exactly when the option is absent, otherwise the first position holding it |
| Seed.NormalizeCorrectAnswer | scripts/seed-questions.ts:75-82 | a numeric answer is kept; a textual one becomes the first position of that option, or 0 when no option matches; with options present the index is always in range |
| Seed.UuidOfGroups | scripts/seed-questions.ts:160 | five hex groups of 8, 4, 4, 4 and 12 digits joined by hyphens match the UUID pattern |
| Seed.GroupsOfUuid | scripts/seed-questions.ts:160 | a string matching the UUID pattern is exactly such five hex groups joined by hyphens |
| Seed.UuidCaseInsensitive | scripts/seed-questions.ts:160 | the pattern ignores case: a string matches exactly when its lower-cased form does |
| Seed.TextOf | scripts/seed-questions.ts:143 | `text` when it is non-empty, else `question`; empty exactly when both are absent or empty |
| Seed.KeptId | scripts/seed-questions.ts:159-163 | an id is kept exactly when it is present and matches the UUID pattern |
| Seed.MapQuestion | scripts/seed-questions.ts:142-165 | a question without text is skipped; any other becomes a row with its text, its options, its normalised answer index, category and difficulty, its explanation, and its id only when that is a UUID |
| Seed.Prepare | scripts/seed-questions.ts:142-166 | every prepared row comes from a question of the file, every question with text yields its row, and there are never more rows than questions |
| Seed.PreparedRowsWellFormed | scripts/seed-questions.ts:142-166 | every prepared row has text, a category in normal form and, when it has an id, a UUID |
| Seed.PrepareAppend | scripts/seed-questions.ts:142-166 | preparing two files one after the other gives the rows of each, in order |
| Seed.WithId | scripts/seed-questions.ts:169 | the rows with an id, and only those |
| Seed.WithoutId | scripts/seed-questions.ts:170 | the rows without an id, and only those |
| Seed.SplitCovers | scripts/seed-questions.ts:169-170 | the two groups split the rows: together they are a permutation of them and no row is in both |
| Seed.NumBatches | scripts/seed-questions.ts:187 | the number of batches of 50 is the least that covers all the rows |
| Seed.BatchesDone | scripts/seed-questions.ts:187 | the loop stops after exactly that many batches |
| Seed.Batch | scripts/seed-questions.ts:188 | each batch holds between 1 and 50 rows |
| Seed.Batches | scripts/seed-questions.ts:187-188 | one batch per step of the loop, each the slice that step takes |
| Seed.BatchesPrefix | scripts/seed-questions.ts:187-188 | the first k batches, joined, are the first 50·k rows (or all of them) |
| Seed.BatchesCover | scripts/seed-questions.ts:187-188 | the batches, joined, are all the rows in order, and none is empty or over 50 |
| Seed.TallyOf | scripts/seed-questions.ts:199-207 | after k batches, every row sent so far is counted once, as a success or as a failure, and at most one error is logged per batch |
| Seed.TallyNoFailure | scripts/seed-questions.ts:199-207 | when no batch fails, nothing is counted as failed and no error is logged |
| Seed.RunBatches | scripts/seed-questions.ts:187-208 | the loop adds each batch's size to the success or the error count and logs one error per failed batch, so the counts grow by exactly the number of rows |
| Seed.WriteRows | scripts/seed-questions.ts:178-239 | rows without an id are inserted first, then rows with an id are upserted; every row ends in exactly one of the two counts, and with no failing batch all are successes and no error is logged |
| Seed.SeedQuestions | scripts/seed-questions.ts:84-264 | the counts add up to the number of prepared rows, never more than the questions in the file, and all are successes when no batch fails |
| PushKey.Repeat | src/hooks/usePushNotifications.ts:191 | `"=".repeat(n)`: exactly n copies of the character |
| PushKey.Padding | src/hooks/usePushNotifications.ts:191 | between 0 and 3 "=" signs, just enough to bring the key to a multiple of 4 characters |
| PushKey.ReplaceAll | src/hooks/usePushNotifications.ts:192 | a global single-character replace changes every occurrence of the character and nothing else |
| PushKey.ToStandard | src/hooks/usePushNotifications.ts:192 | "-" becomes "+", "_" becomes "/", every other character is kept, and the length is unchanged |
| PushKey.SextetOf | src/hooks/usePushNotifications.ts:193 | a character of the standard alphabet stands for a value below 64 whose letter it is |
| PushKey.SextetOfLetter | src/hooks/usePushNotifications.ts:193 | every value below 64 is read back from its letter |
| PushKey.StandardOfUrlLetter | src/hooks/usePushNotifications.ts:192 | mapping a base64url letter to the standard alphabet gives the standard letter of the same value (section 5 of RFC 4648) |
| PushKey.Encode | src/hooks/usePushNotifications.ts:190 | an unpadded encoding of bytes never has a length of 1 modulo 4 |
| PushKey.EncodeToStandard | src/hooks/usePushNotifications.ts:192 | the character mapping turns the base64url encoding of any bytes into their standard encoding |
| PushKey.EncodeInAlphabet | src/hooks/usePushNotifications.ts:193 | the standard encoding of any bytes uses only the standard alphabet |
| PushKey.RemoveAsciiWhitespace | src/hooks/usePushNotifications.ts:193 | `atob` drops ASCII white space and keeps every other character |
| PushKey.StripPadding | src/hooks/usePushNotifications.ts:193 | on a length that is a multiple of 4, one or two final "=" are dropped; any other string is kept |
| PushKey.BinaryString | src/hooks/usePushNotifications.ts:193 | one character per byte, the character's code being the byte |
| PushKey.Atob | src/hooks/usePushNotifications.ts:193 | a successful `atob` yields a binary string: every character code is below 256 |
| PushKey.DecodeEncode | src/hooks/usePushNotifications.ts:193 | decoding the standard encoding of any bytes gives back those bytes |
| PushKey.Codes | src/hooks/usePushNotifications.ts:196-198 | `charCodeAt` for each character: one byte per character, equal to its code |
| PushKey.CodesOfBinary | src/hooks/usePushNotifications.ts:194-198 | copying the codes of a binary string gives back the bytes it was made of |
| PushKey.AtobOfPadded | src/hooks/usePushNotifications.ts:191-193 | `atob` accepts a padded encoding and yields the binary string of its bytes |
| PushKey.PreparedEncoding | src/hooks/usePushNotifications.ts:191-192 | padding and mapping a base64url key gives the padded standard encoding of the same bytes |
| PushKey.KeyRoundTrip | src/hooks/usePushNotifications.ts:190-201 | the function decodes the unpadded base64url encoding of any key back to exactly that key |
| PushKey.PreparedOneModFour | src/hooks/usePushNotifications.ts:191 | a key of length 1 modulo 4 is padded with three "=" |
| PushKey.OneModFourRejected | src/hooks/usePushNotifications.ts:191-193 | a key of length 1 modulo 4 with no white space is never decoded: `atob` throws |
| PushKey.UrlBase64ToUint8Array | src/hooks/usePushNotifications.ts:190-201 | the array holds exactly the bytes the key decodes to, and there is none when `atob` throws |

## Left out

- Floating point: the source computes base points, XP multipliers, `Math.pow(level, 1.5)`, `Math.round` and the timer and progress percentages in doubles. The model uses the exact integer forms (`floor(score·k/100)` with k in {5, 10, 15, 12}, `isqrt(10000·L³)`, `floor((200a + b) / 2b)`, integer comparisons of `100·remaining` with `25·total`). Double rounding could differ from these only at exact boundaries, and the model does not capture that.
- Dates and time zones: ISO timestamps, `new Date()`, local versus UTC `setDate`, and `Date.now()` become parameters. These are integer day numbers, the weekday, the day of the month, the start of the month, and milliseconds for a quiz's `timeSpent`. Calendar arithmetic is not modelled.
- Randomness: `Math.random` in the Fisher–Yates loop, in the duel's comparator shuffle and in the hint's comparator shuffle is an argument. It is either the drawn indices or an arbitrary reordering. Only permutation and prefix facts are proved; uniformity is not.
- Supabase, authentication and HTTP: tables are sequences or maps held by small store classes, and the signed-in user is an optional id. A response is a status code with a payload. A query or insert error is a parameter of the operation. Row-level atomicity, row-level security and the database's own row order are not modelled, except where a route asks for an order.
- Exceptions escaping a handler become the 500 response the route's `catch` returns; the error messages' text is kept only where a status depends on it.
- React and the browser: effects, `setInterval`/`setTimeout` scheduling, Strict Mode double runs, re-renders, toasts, the share sheet, the clipboard and image export are left out. One timer tick is one method call, and the 3-second delay before `onAnswer` is not modelled.
- Rendering: SVG geometry of the timer ring, CSS classes other than the mode badges' colours, `formatDate`, the favourite-team list and the period labels of the ranking page are display only.
- Ranking page: the demo data the page shows when a request fails is not modelled. Avatar URLs and the other joined profile columns are carried only as far as an operation reads them.
- Duel join and score submission have no code among the modelled files; only creation and lookup are modelled.
- Result screen: after the session insert, the save also calls the streak route, refreshes the profile, records an analytics event, upserts each unlocked achievement, and posts to the feed. None of these is modelled, except that the data of the quiz_completed post is `ActivitiesPage.CompletionData`. The newly unlocked achievements reach `Save` as a parameter, computed by `CheckNewAchievements`. The achievement catalogue enters `SessionSaver` as a constructor parameter.
- Seed script: console output, the environment checks with `process.exit`, the deletion of the old rows, the final count query and the conflict rules of `upsert` are left out. JSON numbers are integers.
- Push notifications: only the key conversion is modelled. Subscription, permission and the service worker are left out.
- Text.ParseInt: JavaScript's `parseInt` is modelled for base 10 only; a `0x` prefix is not recognised.
- Text.Lower: `toLowerCase` folds only ASCII letters. Accented capitals are kept as they are.
- Ranking.SortByScore: a selection sort that is not stable, while `Array.prototype.sort` is. Rows with equal scores may come out in a different order than in the source. The contract states sortedness, permutation and the top-k property, not the order among ties.
- DuelsRoute.FetchIds: a negative `questionCount` is treated as a failed query. PostgREST's handling of a negative limit is not modelled.
- QuestionsRoute.LimitOf and Ranking.LimitOf: the default limit is the value `parseInt` gives the default text ("10", "50"), not the text itself.
- FeedRoute.Json: fractional numbers in activity data are left out, and so are nested objects and arrays.
- ActivitiesPage.QuizLabel, ActivitiesPage.QuizEmoji, ProfilePage.GetModeInfo, Seed.NormalizeCategory and Seed.NormalizeDifficulty: a key that names a property every JavaScript object inherits (such as "constructor" or "toString") finds that inherited property rather than the fallback; the model treats every such key as unlisted and returns the fallback.
- PushKey.Atob: `atob` is modelled as forgiving-base64 decoding. This keeps white-space removal and the rejection of a length that is 1 modulo 4 or of a character outside the alphabet. The DOMException becomes None.

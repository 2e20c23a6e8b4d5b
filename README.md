# Ten-nights challenge tracker: progress engine

This project models the progress engine of the ten-nights challenge page, the
single React component in `src/App.tsx`. The engine covers these operations:

- Completing a challenge, or undoing a completion, moves the point total by
  that challenge's value, clamped at zero.
- Custom challenges can be added and deleted. Deleting a completed custom
  challenge takes its points back.
- After every change, an achievement pass unlocks the three milestone
  achievements (1, 5 and 10 completions), and each unlock credits bonus points.
- A recompute effect rebuilds the total from scratch: the points of every
  completed challenge plus the points of every unlocked achievement.
- At mount, progress is reset once per calendar day. Otherwise the saved
  progress is loaded from key-value storage.
- A countdown splits the time left before or within the ten-night window
  into days, hours, minutes and seconds.
- Numbers are shown with Arabic-Indic digits.
- A statistics panel summarises progress.

Modules:

- `Catalogue` (`catalogue.dfy`) holds the built-in challenges and the
  achievements. It also defines the two `find` lookups, which return the
  first match, and the two `filter`s.
- `Points` (`points.dfy`) defines the `reduce` folds of
  `calculateInitialPoints` and the facts about sums that the incremental
  updates rely on.
- `Progress` (`progress.dfy`) describes each handler as a function from the
  old state to the new one. It also defines the achievement pass, the
  recompute step, the persistence write and the load-time daily reset. Its
  lemmas state what these operations preserve.
- `Store` (`store.dfy`) is the component as an object. The four pieces of
  state and the storage snapshot are fields, and every handler is a method
  that updates them in place. Each method is proved against the matching
  `Progress` function. `checkAchievements` is a loop over the catalogue.
- `Countdown` (`countdown.dfy`) models `calculateTimeLeft`.
- `Numerals` (`numerals.dfy`) models `convertToArabicNumbers`.
- `Stats` (`stats.dfy`) models `getStats`.

React runs its effects as a cascade: the persistence write, the recompute
and the achievement check re-run whenever their inputs change. The model
replaces the cascade with one explicit step, `Settle`: recompute, then the
achievement pass, then write every key back. The recompute effect sets the
total to a plain value, and that value overrides the functional increments
of an achievement pass made in the same batch. The next recompute already
sees the new unlock list. So the state the cascade comes to rest in is the
recomputed total plus the pass, and that is what `Settle` yields.

Three behaviours of the code are easy to misread, and the model keeps them
as written:

- The achievement conditions test `completed.length`
  (src/App.tsx:365), so they count every completed id, custom ones
  included, not only the built-in completions.
- Once `now` is past the end of the window, `calculateTimeLeft` returns
  before computing any duration (src/App.tsx:707-711). The model returns
  `Ended` there, not a zero duration.
- The daily reset clears the completed list and the points but does not
  touch `unlockedAchievements` (src/App.tsx:565-571). On a new day,
  however, the saved unlock list is not read either (src/App.tsx:581 runs
  only on the same day), so the in-memory list keeps its empty default
  (src/App.tsx:469). The first persistence write (src/App.tsx:594) then
  stores the empty list. Unlocks and their bonuses are therefore cleared
  every day and earned again, as `Progress.NewDayClearsUnlocks` states.

## Model

| member | source | states |
|---|---|---|
| Catalogue.FindChallenge | src/App.tsx:675 | `find` returns nothing exactly when no challenge has the id; otherwise it returns the first challenge with that id. |
| Catalogue.FindAchievement | src/App.tsx:610 | The achievement lookup returns nothing exactly when no achievement has the id. Otherwise it returns the first catalogue entry with that id. |
| Catalogue.ChallengePoints | src/App.tsx:604-605 | A completed id is worth the points of the first challenge with that id, and 0 when no challenge has it. |
| Catalogue.AchievementPoints | src/App.tsx:610-611 | An unlocked id is worth the points of the achievement with that id, and 0 when no achievement has it. |
| Catalogue.Count | src/App.tsx:669-672 | The number of occurrences of an id is at most the list length, and it is zero exactly when the id is absent. |
| Catalogue.RemoveId | src/App.tsx:672 | After `filter((id) => id !== challengeId)`, the id no longer occurs and the list is no longer than before. |
| Catalogue.RemoveIdMembers | src/App.tsx:672 | The filter keeps exactly the other ids and drops one entry per occurrence of the removed id. |
| Catalogue.RemoveIdAbsent | src/App.tsx:672 | Filtering out an id that is not listed returns the list unchanged. |
| Catalogue.RemoveIdAppend | src/App.tsx:672 | Filtering distributes over concatenation. |
| Catalogue.RemoveChallenge | src/App.tsx:532 | After the custom-challenge filter, no remaining challenge has the id, and the list is no longer than before. |
| Catalogue.RemoveChallengeMembers | src/App.tsx:532 | The filter keeps exactly the challenges with another id. |
| Catalogue.RemoveChallengeAppend | src/App.tsx:532 | The custom-challenge filter distributes over concatenation. |
| Catalogue.FindAfterRemove | src/App.tsx:532 | Removing one id's challenges leaves the lookup of every other id unchanged. |
| Catalogue.FindConcat | src/App.tsx:602-604 | A lookup in built-in followed by custom finds a built-in match first, and otherwise falls through to the custom list. |
| Catalogue.FindAppendOne | src/App.tsx:505 | Appending a challenge changes only the lookup of an id that was not yet present. |
| Catalogue.BuiltinPointsNonNegative | src/App.tsx:275-357 | All ten built-in challenges are worth a non-negative number of points. |
| Catalogue.ChallengePointsNonNegative | src/App.tsx:604-605 | With non-negative challenge points, the value a completed id contributes (0 when nothing matches) is non-negative. |
| Points.SumOver | src/App.tsx:603-612 | The `reduce` from 0 over no ids gives 0, and over one id gives that id's value. |
| Points.CalculateInitialPoints | src/App.tsx:600-616 | With nothing completed and nothing unlocked the total is 0. Otherwise each fold alone gives the total when the other list is empty. |
| Points.SumOverAppend | src/App.tsx:603-606 | The left fold over a concatenation is the sum of the two folds. |
| Points.SumOverRemoveUnique | src/App.tsx:603-606 | For an id listed at most once, filtering it out lowers the fold by exactly its value if it was listed, and by nothing otherwise. |
| Points.SumOverCongruent | src/App.tsx:603-606 | Two folds agree when their point functions agree on every listed id. |
| Points.SumOverAtLeastMember | src/App.tsx:603-606 | With non-negative values, a listed id contributes its whole value to the fold. |
| Points.CalculateInitialPointsNonNegative | src/App.tsx:600-616 | With non-negative challenge points, the total recomputed from the two folds is never negative. |
| Points.SumAchievementPointsNonNegative | src/App.tsx:609-612 | The achievement fold is never negative. |
| Points.AllChallengesNonNegative | src/App.tsx:602 | Built-in followed by custom challenges has non-negative points whenever the custom ones do. |
| Progress.Max0 | src/App.tsx:678 | `Math.max(0, x)` is non-negative and at least x, and it is either x or 0. |
| Progress.Initial | src/App.tsx:463-483 | At mount, progress is empty and the custom challenges are read from storage, or empty when none are saved. |
| Progress.NewCustomChallenge | src/App.tsx:500-504 | The new challenge carries the form's title, description, category, difficulty and points, the new id, and the custom flag. |
| Progress.ToggleCompletion | src/App.tsx:669-678 | The toggle flips the id's membership and leaves every other id alone. A completion appends the id. An undo is the `filter` that drops every occurrence. For an unknown id the points stay as they are. For a known id the new total is `max(0, total - p)` on undo and `max(0, total + p)` on completion, where p is the first matching challenge's value. |
| Progress.AddCustomChallenge | src/App.tsx:498-505 | When the title or the description is empty, nothing changes. Otherwise exactly the challenge `NewCustomChallenge` builds from the form and the new id is appended, and nothing else changes. |
| Progress.DeleteCustomChallenge | src/App.tsx:517-533 | Ids that are not custom are ignored. Otherwise the completed list becomes its `filter` without the id, and the custom list its `filter` without the id's challenges. The unlocks are kept. The points become `max(0, total - p)` when the id was completed, where p is the custom challenge's value, and stay as they are otherwise. |
| Progress.AchievementPass | src/App.tsx:637-650 | The pass keeps completions and custom challenges and only appends to the unlock list. The total grows by exactly the points of the appended achievements, so it never drops. |
| Progress.AchievementPassUnlocks | src/App.tsx:359-384 | After the pass, a catalogue achievement is unlocked exactly when it was unlocked before or its completion threshold is met. |
| Progress.NewUnlocks | src/App.tsx:638-640 | No id the pass appends was unlocked before. |
| Progress.NewUnlocksMembers | src/App.tsx:638-640 | The pass appends exactly the ids of locked achievements whose condition holds. |
| Progress.NewUnlocksOfCatalogue | src/App.tsx:359-384 | Over the catalogue, whose ids are distinct, an achievement is newly unlocked exactly when it was locked and its condition holds. |
| Progress.Recompute | src/App.tsx:600-616 | After the recompute the cached total is reconciled, and the lists are untouched. |
| Progress.Settle | src/App.tsx:591-650 | Once the cascade settles, the total equals the recomputed challenge and achievement points. Completions and custom challenges are kept, and the unlock list is only extended. |
| Progress.SettleUnlocks | src/App.tsx:591-650 | Once the cascade settles, a catalogue achievement is unlocked exactly when it was unlocked before or its completion threshold is met. |
| Progress.Persist | src/App.tsx:591-594 | The persistence effects write the completed list, the total and the unlock list to their keys, and the custom list to its own key (src/App.tsx:493-495). The date stamp is kept. |
| Progress.LoadState | src/App.tsx:557-583 | On a new day, or with no date stamp, completions and points are cleared. On the same day, every saved key is loaded, and a missing key keeps the default. |
| Progress.LoadStored | src/App.tsx:564-571 | The reset writes empty progress, zero points and today's date; on the same day the storage is untouched. |
| Progress.ToggleTwiceRestores | src/App.tsx:669-678 | Two toggles of a not-yet-completed id with no cascade in between restore the list and the points, as long as no clamp applied. |
| Progress.UndoRedoRestores | src/App.tsx:669-678 | Two toggles of a completed id with no cascade in between, undo then redo, keep the same ids completed, move the id to the end of the list, and restore the points when the undo was not clamped. |
| Progress.ToggleKeepsNoDuplicates | src/App.tsx:669-672 | Toggling never creates a duplicate completion. |
| Progress.ToggleKeepsReconciled | src/App.tsx:669-678 | The incremental toggle agrees with the full recompute: a reconciled state stays reconciled. |
| Progress.UncompleteReconciled | src/App.tsx:669-678 | Undoing a completion that is listed once keeps the total reconciled. |
| Progress.CompleteReconciled | src/App.tsx:669-678 | A new completion keeps the total reconciled. |
| Progress.AddKeepsReconciled | src/App.tsx:498-505 | Adding a challenge with a fresh id leaves a reconciled total reconciled. |
| Progress.DeleteKeepsReconciled | src/App.tsx:517-533 | Deleting a custom challenge keeps the total reconciled. A completed one takes exactly its points off. |
| Progress.DeleteKeepsOtherLookups | src/App.tsx:532 | Once the id has left the completed list, removing its custom entries does not change the worth of any remaining completion. |
| Progress.DeleteKeepsNoDuplicates | src/App.tsx:529 | Deleting never creates a duplicate completion. |
| Progress.NewUnlocksEmpty | src/App.tsx:639 | When every achievement whose condition holds is already unlocked, the pass unlocks nothing. |
| Progress.PassStep | src/App.tsx:638-648 | Each step credits exactly the points of the achievement it unlocks. |
| Progress.PassProgressStep | src/App.tsx:638-648 | One iteration of the loop keeps the unlock list and the total equal to those of the pass over the achievements visited so far. |
| Progress.AchievementPassIdempotent | src/App.tsx:637-650 | A second pass over the result of the first changes nothing, so no achievement is unlocked or credited twice. |
| Progress.NewUnlocksNoDuplicates | src/App.tsx:637-641 | A pass never appends the same id twice. |
| Progress.AchievementPassKeepsNoDuplicates | src/App.tsx:637-641 | The unlock list stays free of duplicates. |
| Progress.SettleIdempotent | src/App.tsx:591-650 | Settling a settled state changes nothing. |
| Progress.ToggleThenSettle | src/App.tsx:669-678 | After a toggle from a reconciled state, the recompute step of the cascade finds nothing to repair. |
| Progress.SameDayReloadRestores | src/App.tsx:557-583 | Reloading on the day the progress was saved restores the saved state exactly. |
| Progress.ResetOncePerDay | src/App.tsx:564-571 | The reset stamps today's date, so a second load on the same day keeps what was saved after the reset. |
| Progress.NewDayClearsUnlocks | src/App.tsx:557-594 | On a new day the mount state has no completions, no points and no unlocks, because the saved unlock list is read only on the same day. Settling it unlocks nothing, and the first write stores an empty unlock list. |
| Progress.FirstCompletionExample | src/App.tsx:275-384 | From empty progress, completing challenge 1 settles at 150 points with achievement 1 unlocked. |
| Progress.FirstToggleStep | src/App.tsx:669-678 | Toggling challenge 1 from empty progress gives `[1]` and 50 points. |
| Progress.FirstSettleStep | src/App.tsx:591-650 | Settling `[1]` at 50 points unlocks achievement 1 and reaches 150. |
| Progress.CompleteUndoKeepsBonus | src/App.tsx:591-678 | Completing challenge 1, letting the cascade settle, and undoing it leaves achievement 1 unlocked and 100 points: an undo never revokes an unlock. |
| Progress.NegativeCustomPointsExample | src/App.tsx:600-678 | A completed custom challenge worth -200 points: the toggle clamps the total at 0, but the settled total is -100. |
| Store.ProgressStore.constructor | src/App.tsx:463-483 | The fields start at the mount state, and the storage is as given. |
| Store.ProgressStore.LoadOnMount | src/App.tsx:557-583 | The fields and the storage become the load functions of their old values. |
| Store.ProgressStore.ToggleCompletion | src/App.tsx:669-678 | The fields become `Progress.ToggleCompletion` of the old state; storage is untouched. |
| Store.ProgressStore.AddCustomChallenge | src/App.tsx:498-505 | The fields become `Progress.AddCustomChallenge` of the old state. |
| Store.ProgressStore.DeleteCustomChallenge | src/App.tsx:517-533 | The fields become `Progress.DeleteCustomChallenge` of the old state. |
| Store.ProgressStore.RecomputePoints | src/App.tsx:600-616 | The total becomes the recomputed one and is written to storage. |
| Store.ProgressStore.CheckAchievements | src/App.tsx:637-650 | The loop leaves the fields equal to `AchievementPass` of the old state. The stored total is rewritten exactly when something was unlocked. |
| Store.ProgressStore.Settle | src/App.tsx:591-650 | The fields become `Progress.Settle` of the old state, and every key is written back. Afterwards the store is reconciled and in agreement with storage. |
| Countdown.Split | src/App.tsx:715-718 | The four floor divisions yield a duration with days non-negative, hours below 24, and minutes and seconds below 60. |
| Countdown.SplitBrackets | src/App.tsx:715-718 | The split loses exactly the sub-second remainder of the difference. |
| Countdown.SplitToMs | src/App.tsx:715-718 | Splitting is the inverse of converting a duration to milliseconds, whatever the sub-second part. |
| Countdown.CalculateTimeLeft | src/App.tsx:702-728 | The window has ended exactly when `now` is after the end. Otherwise the phase is "before" exactly when `now` is before the start, and the duration is normal. |
| Countdown.TimeLeftMeasuresDiff | src/App.tsx:712-725 | In both open phases the measured difference is non-negative, and the duration is that difference rounded down to the second. |
| Countdown.EndInstantIsZero | src/App.tsx:707-711 | At the end instant the window is still open, with nothing left. |
| Countdown.SecondAfterEndIsEnded | src/App.tsx:707-711 | One second after the end, the window is over. |
| Countdown.WindowIsTenDays | src/App.tsx:704-705 | At a fixed UTC offset, the two window literals are ten days apart. A daylight-saving change inside the window would shift this by an hour. |
| Numerals.DecimalString | src/App.tsx:740-741 | For an integer below 10^21, `toString` is a non-empty run of ASCII digits without a leading zero. |
| Numerals.NumberToString | src/App.tsx:740-741 | A negative integer's text is a minus sign followed by digits. A non-negative one's is digits only. Neither has a leading zero unless the number is 0. |
| Numerals.MapDigits | src/App.tsx:742-744 | The map and join yield only Arabic-Indic digits, and the result is never longer than its input. |
| Numerals.ConvertToArabicNumbers | src/App.tsx:738-745 | The result consists of Arabic-Indic digits only. |
| Numerals.DecimalRoundTrip | src/App.tsx:740-741 | Reading the decimal text back gives the number. |
| Numerals.MapDigitsPerPosition | src/App.tsx:742-744 | On a digit string, the map replaces each character in place by the Arabic-Indic digit of the same value. |
| Numerals.MapDigitsParse | src/App.tsx:739-744 | Reading the converted digits as Arabic-Indic numerals gives back the number that the ASCII digits denote. |
| Numerals.ConvertNonNegative | src/App.tsx:738-745 | For a non-negative number there is one Arabic-Indic digit per decimal digit, and reading the result back gives the number. |
| Numerals.ConvertInjective | src/App.tsx:738-745 | Distinct non-negative integers below 10^21 are shown as distinct strings. |
| Numerals.ConvertDropsSign | src/App.tsx:743-744 | The minus sign is not a digit; it maps to `undefined`, which joins as nothing, so `-n` is shown as `n`. |
| Numerals.ConvertNaNText | src/App.tsx:743-744 | The text `NaN` becomes the empty string. |
| Numerals.MapDigitsAppend | src/App.tsx:742-744 | The character map distributes over concatenation. |
| Stats.RoundDiv | src/App.tsx:750-751 | `Math.round` of a quotient is the nearest integer, and a tie goes up. |
| Stats.RoundTenthsExact | src/App.tsx:750 | Rounding an exact quotient returns it. |
| Stats.CategoryCount | src/App.tsx:752-757 | A category tally is at most the number of challenges, and 0 when nothing is completed. |
| Stats.CategoriesPartition | src/App.tsx:752-757 | The four category tallies add up to the number of completed built-in challenges, which is at most the number of challenges. |
| Stats.CompletionRateAsWritten | src/App.tsx:750 | As written, every completed id, custom ones included, adds ten percent. |
| Stats.CompletionRateAsWrittenExceedsHundred | src/App.tsx:750 | As written, ten built-in completions plus one custom completion report 110 percent. |
| Stats.CompletionRate | src/App.tsx:748-750 | The corrected rate lies in 0..100 and is ten per completed built-in challenge. |
| Stats.GetStats | src/App.tsx:747-766 | The panel shows ten challenges and the number of completed ids. The percentage lies in 0..100, and the category tallies sum to a tenth of it. The total is passed through. Points per day are the total over ten, rounded to the nearest integer, and non-negative when the total is. |

## Findings

| source | as written | input that shows it | evidently intended | confidence | as-written member | corrected member |
|---|---|---|---|---|---|---|
| src/App.tsx:748-750 | `completedCount` counts every completed id, custom ones included, but `totalChallenges` counts only the ten built-in challenges. | Complete all ten built-in challenges and one custom challenge: the rate is 110 percent. | A percentage in 0..100, counting only completed built-in challenges, as the category tallies beside it do. | medium, not executed | Stats.CompletionRateAsWrittenExceedsHundred | Stats.CompletionRate |

The progress bar at src/App.tsx:658 uses the same ratio. It is not part of
this model.

## Left out

- Rendering, confetti, the celebration animation, scrolling, the navigation
  bar, the star field, random prayer and tip picks, timers and
  notification pop-ups are presentation only and are not modelled.
- `Math.random` and `Date.now()` are outside the model. `Date.now()` becomes
  the `newId` parameter of `AddCustomChallenge`.
- The current date becomes the `today` parameter. Only its equality with
  the stored `toDateString()` text matters.
- JSON encoding and `localStorage` are modelled as the `Stored` value, one
  optional entry per key. A missing key is `None`. An empty saved string,
  which JavaScript also treats as absent, is not distinguished from a
  missing key. Malformed JSON is not modelled.
- React's batching and effect ordering are replaced by the explicit
  `Settle` step described above. The intermediate renders between a
  handler and the settled state are not modelled.
- The midnight boundary during an open session is not modelled: the reset
  runs only at mount, as in the source.
- Countdown.CalculateTimeLeft: the window bounds are parameters. The source
  literals are local times, and `WindowStartUtc` and `WindowEndUtc` give
  their values for a UTC offset of zero. The formatted countdown string and
  its `split(' ')` are not modelled.
- Numerals.ConvertToArabicNumbers: only integers are modelled. Fractions,
  exponents and `Infinity` are not; `NaN` is covered through its text
  `NaN`.
- Stats.GetStats: floating-point division is modelled as exact
  rational division followed by rounding. Double-precision rounding errors
  are not modelled.
- Stats.GetStats: uses the corrected completion rate from "Findings". The
  source's formula is `Stats.CompletionRateAsWritten`.
- Progress.AddCustomChallenge: the form reset and the closing of the modal
  are not modelled. A missing title or description is an empty string. The
  new challenge's `isQadrNight` is `false` where the source leaves it
  undefined.
- Progress.ToggleTwiceRestores and Progress.UndoRedoRestores: state the
  round trip of two bare handler calls. Between two clicks the cascade
  runs, and an undo never revokes an unlock. So when the first toggle
  crosses an achievement threshold, the user-level round trip keeps the
  achievement and its bonus. `Progress.CompleteUndoKeepsBonus` shows this
  for the first completion.
- Progress.AchievementPass: the iff between unlocking and the threshold
  is stated by `Progress.AchievementPassUnlocks` rather than in the
  function's own contract.
- Progress.ToggleKeepsReconciled and Progress.DeleteKeepsReconciled:
  require non-negative custom points and an id listed at most once. The
  source does not enforce either, and with a negative value the clamp can
  break reconciliation until the next recompute.
- Points.CalculateInitialPointsNonNegative: requires non-negative custom
  points. The form's number field (src/App.tsx:1040) has no minimum, and
  with a negative custom challenge the settled total can go below zero,
  even though the toggle clamps at zero. `Progress.NegativeCustomPointsExample`
  shows a settled total of -100.
- Progress.DeleteKeepsReconciled: also requires that no built-in
  challenge has the id. A custom challenge whose id equals a built-in id
  is shadowed by the built-in one in the recompute, so deleting it does
  not take the value the handler subtracts.
- Progress.AddCustomChallenge: a draft's points are an integer. The form
  reads them with `parseInt` (src/App.tsx:1040), which gives `NaN` for an
  empty or non-numeric field. `NaN` then passes through `Math.max` in the
  toggle (src/App.tsx:678) and the recompute (src/App.tsx:605), and JSON
  stores it as `null`. None of that is modelled.
- Numerals.DecimalString and Numerals.ConvertInjective: JavaScript's
  `toString` switches to exponent form from 10^21, so `1e+21` is shown as
  `١٢١`, the same as 121. The model writes every integer in plain
  decimal, so these rows hold only below 10^21.
- Challenge titles and descriptions are English paraphrases of the Arabic
  originals. Icons are not modelled.

# Combination lock, modelled in Dafny

This project models the H5P Combination Lock content type. A learner turns the segments of a lock until they spell the solution, and the widget checks the combination and scores the attempt. The model follows the source component by component:

- `button.dfy` models `Button` (button.js): an `isDisabled` flag that gates the click callback.
- `wheel.dfy` models `Wheel` (wheel.js). The wheel displays the alphabet with a sentinel copy at each end. Each move has a scroll target, and a deferred snap moves back off a sentinel.
- `lock_segment.dfy` models `LockSegment` (lock-segment.js):
  - a position that rotates modulo the alphabet's length;
  - its two buttons (▲ is "next" and decrements, ▼ is "previous" and increments);
  - its wheel;
  - the cooldown that disables both buttons for a while after every accepted click (not after the moves made by `reset` or `showSolutions`).
- `lock.dfy` models `Lock` (lock.js): one segment per solution symbol. It joins the segments' symbols into the response and snapshots their positions. It fans `enable`, `disable`, `reset` and `showSolutions` out to every segment.
- `sanitization.dfy` models the widget constructor's parameter sanitisation:
  - an empty solution becomes "H5P";
  - the alphabet is de-duplicated by first occurrence;
  - it is then doubled until it has at least three symbols.
- `combination_lock.dfy` models the widget itself (h5p-combination-lock.js). Its state machine covers `viewState`, `attemptsLeft`, `maxAttempts`, `score` and `wasAnswerGiven`. It is driven by `checkAnswer`, `resetTask`, `showSolutions`, `handleLockChanged`, `setViewState` and a segment click that runs end to end.
- `symbols.dfy` holds what the others share: symbols (graphemes, as strings), `Option`, and `Array.prototype.indexOf`.

`Wheel`, `LockSegment` and `Lock` each have a ghost value of their state (`State()`, or `States()` for the lock's segments). `CombinationLock`'s is `CurrentStatus()`, and `Button`'s state is its single `isDisabled` field. Each method's postcondition gives the new state as a function of the old one: `EnabledState`, `ClickState`, `CooldownState`, `CheckAnswerStep`, and so on. The properties the source promises are proved as lemmas about those functions.

Timers are explicit steps that the environment may take later:
- a wheel's pending snaps, fired oldest first by `FireSnap` (reached from a segment and from the lock by `LockSegment.FireSnap` and `Lock.FireSnapSegment`);
- a segment's cooldown, ended by `CooldownElapsed`;
- the widget's delayed switch to the solutions view, fired by `SolutionsViewTimerElapsed`.

`Math.random` draws are parameters (`randoms`).

JavaScript details are written out:
- `%` truncates toward zero (`JsRemainder`).
- `Infinity` is the `Infinite` case of `Limit`, with `Math.max(0, Infinity - 1) == Infinity`.
- Saved positions are falsy-checked (`||`), so a saved 0 falls back to the draw. The other saved fields (`viewState`, `attemptsLeft`, `wasAnswerGiven`) fall back only when absent (`??`), so a saved 0 is kept.
- `join('')` drops an `undefined` symbol.

Quirks of the source are modelled as they are and stated as lemmas:
- a saved position 0 is discarded (`SavedZeroIsDiscarded`);
- saved positions are never range-checked: ▲ brings a negative one back within one alphabet length of 0 (`NegativeLandsWithinOneLength`), but not always into the alphabet (`NegativePositionStaysOutside`);
- the wheel's first index is one less than it should be (`InitialIndexShowsPreviousSymbol`, `FirstMoveFromInitialIndexWrapsWrongWay`);
- snap timers are never cancelled (`StaleSnapOverridesNewerPosition`);
- `disable` does not cancel a cooldown (`DisableDoesNotCancelCooldown`);
- a restored `attemptsLeft` is not clamped (`UnclampedRestoreExceedsMaxScore`);
- doubling the alphabet brings duplicates back (`PadAlphabet`).

The widget calls `setMessage` and `getMessage` on the lock, but lock.js does not define them. Here the message is a plain field of the lock. It holds a tag (`Message`), not localised text.

## Model

| member | source | states |
|---|---|---|
| Symbols.IndexOf | src/scripts/components/lock-segment.js:124-126 | `indexOf`: -1 exactly when the symbol is absent; otherwise an index holding it, with no earlier occurrence |
| Sanitization.Dedup | src/scripts/h5p-combination-lock.js:68-75 | the `reduce` result has no repeated symbol and holds exactly the symbols of its input |
| Sanitization.DedupKeepsFirstOccurrenceOrder | src/scripts/h5p-combination-lock.js:68-75 | de-duplicated symbols appear in the order of their first occurrence in the input |
| Sanitization.PadAlphabet | src/scripts/h5p-combination-lock.js:78-80 | the doubling loop returns Padded of its input: itself, doubled for 2 symbols, quadrupled for 1; at least 3 symbols and keeps the same set of symbols; it doubles once for 2 symbols and twice for 1; a duplicate-free input stays duplicate-free exactly when no doubling was needed |
| Sanitization.SanitizedLength | src/scripts/h5p-combination-lock.js:68-80 | the sanitised alphabet has at least 3 symbols, and no fewer than the de-duplicated text |
| Sanitization.Sanitize | src/scripts/h5p-combination-lock.js:61-80 | an empty solution becomes "H5P"; the alphabet has SanitizedLength symbols (at least 3) and holds exactly the symbols of alphabet and solution, so every solution symbol; it is duplicate-free exactly when the de-duplicated text already had 3 symbols. Its value and order are Padded of the de-duplicated text, so it is that text whenever it had 3 symbols |
| Wheels.AlphabetPlus | src/scripts/components/wheel.js:27-31 | the list has n+2 items: the last symbol, the alphabet in order, the first symbol |
| Wheels.Target | src/scripts/components/wheel.js:66-87 | a snap is scheduled exactly on the two boundary crossings; upward it scrolls to 0 and snaps to n, downward it scrolls to n+1 and snaps to 1; otherwise it scrolls to position+1; either way it settles on position+1 |
| Wheels.DisplayAgreement | src/scripts/components/wheel.js:61-90 | the scroll target and the snap target are inside the list and both show `alphabet[position]` |
| Wheels.Settle | src/scripts/components/wheel.js:72-83 | once all snaps have fired none is pending, and the wheel rests on the last snap's index |
| Wheels.SettlesOnPosition | src/scripts/components/wheel.js:61-90 | with no stale snap pending, the settled wheel rests on position+1, the item showing the position's symbol |
| Wheels.SetPositionTwice | src/scripts/components/wheel.js:61-90 | repeating setPosition(p) is an ordinary move and settles where a single call settles |
| Wheels.StaleSnapOverridesNewerPosition | src/scripts/components/wheel.js:72-75 | a snap queued by an earlier wrap fires after a newer move and leaves the wheel showing a symbol other than the position's |
| Wheels.InitialIndexShowsPreviousSymbol | src/scripts/components/wheel.js:16 | the initial `oldIndex = position` is the item of the previous symbol |
| Wheels.FirstMoveFromInitialIndexWrapsWrongWay | src/scripts/components/wheel.js:66-76 | with 3 symbols, a first move from 1 to 2 is taken for an upward overflow, unlike the same move from index 2 |
| Wheels.Wheel.constructor | src/scripts/components/wheel.js:12-16 | the wheel starts at `oldIndex = position`, with no snap pending |
| Wheels.Wheel.SetPosition | src/scripts/components/wheel.js:61-90 | the new wheel state is `SetPositionState` of the old one: new `oldIndex`, snap appended, scroll target |
| Wheels.Wheel.FireSnap | src/scripts/components/wheel.js:72-83 | the oldest pending snap sets `oldIndex` and is scrolled to |
| LockSegments.SnapFiredState | src/scripts/components/wheel.js:72-83 | a segment's snap timer takes one snap off its wheel's queue and leaves position, buttons and cooldown alone |
| LockSegments.LockSegment.FireSnap | src/scripts/components/wheel.js:72-83 | the oldest snap of the segment's wheel fires: the new state is SnapFiredState of the old one |
| Wheels.Wheel.ScrollTo | src/scripts/components/wheel.js:99-116 | only the target index is recorded; `oldIndex` and the pending snaps are untouched |
| Buttons.Button.constructor | src/scripts/components/button.js:24 | a new button is enabled |
| Buttons.Button.HandleClicked | src/scripts/components/button.js:51-57 | the callback fires exactly when the button is not disabled; nothing changes |
| Buttons.Button.Enable | src/scripts/components/button.js:62-66 | afterwards the button is enabled, whatever it was |
| Buttons.Button.Disable | src/scripts/components/button.js:71-75 | afterwards the button is disabled, whatever it was |
| Buttons.LastCallWins | src/scripts/components/button.js:51-75 | the last of enable and disable decides whether the next click fires |
| LockSegments.JsRemainder | src/scripts/components/lock-segment.js:31-32 | JavaScript `%`: the ordinary remainder for a non-negative dividend, a remainder in (-n, 0] for a negative one |
| LockSegments.NextPosition | src/scripts/components/lock-segment.js:29-33 | ▲ keeps a non-negative position inside [0, n) and lands on `(p - 1) mod n` (Euclidean), i.e. one step down from p, wrapping 0 to n-1; ModAddDivisor and ModUnique are its arithmetic helpers |
| LockSegments.PreviousPosition | src/scripts/components/lock-segment.js:48-51 | ▼ keeps a position of at least -1 inside [0, n) and lands on `(p + 1) mod n` (Euclidean), i.e. one step up from p, wrapping n-1 to 0 |
| LockSegments.NextPreviousInverse | src/scripts/components/lock-segment.js:29-51 | ▲ then ▼, and ▼ then ▲, give back the starting position |
| LockSegments.NextTimesLanding | src/scripts/components/lock-segment.js:29-33 | k ▲ clicks from p land on p-k, wrapping once below 0 |
| LockSegments.NextCycle | src/scripts/components/lock-segment.js:29-33 | n ▲ clicks return to the start |
| LockSegments.NegativeLandsWithinOneLength | src/scripts/components/lock-segment.js:29-33 | ▲ on an unchecked negative position lands strictly within one alphabet length of 0, and on 0 or below when the position was -n or less |
| LockSegments.NegativePositionStaysOutside | src/scripts/components/lock-segment.js:29-33 | a witness that ▲ can leave a position outside the alphabet: with three symbols, -7 lands on -2 |
| LockSegments.InitialPosition | src/scripts/components/lock-segment.js:20-21 | a saved position is used unchecked unless it is absent or 0; then the random draw is used |
| LockSegments.SavedZeroIsDiscarded | src/scripts/components/lock-segment.js:20-21 | a saved 0 is not restored |
| LockSegments.ClickState | src/scripts/components/lock-segment.js:26-54 | a click fires exactly when its button is enabled; a swallowed click changes nothing; a fired one moves by NextPosition or PreviousPosition and leaves the buttons and the cooldown alone |
| LockSegments.CooldownAcceptsOneClick | src/scripts/components/lock-segment.js:143-167 | after an accepted click and its cooldown, no further click fires until the timer does; after that clicks fire again |
| LockSegments.CooldownIdempotent | src/scripts/components/lock-segment.js:152-155 | a second cooldown while cooling down changes nothing |
| LockSegments.DisableDoesNotCancelCooldown | src/scripts/components/lock-segment.js:162-166 | a segment disabled before or during its cooldown has both buttons enabled again once the timer fires |
| LockSegments.LockSegment.constructor | src/scripts/components/lock-segment.js:14-55 | the segment starts on InitialPosition, with both buttons enabled, not cooling down, and its wheel at that position |
| LockSegments.LockSegment.GetResponse | src/scripts/components/lock-segment.js:84-86 | `alphabet[position]`, and undefined exactly when the position is outside the alphabet |
| LockSegments.LockSegment.GetPosition | src/scripts/components/lock-segment.js:93-95 | the position as stored, which Locks.PositionsOf collects |
| LockSegments.LockSegment.Enable | src/scripts/components/lock-segment.js:100-103 | both buttons enabled, nothing else changed |
| LockSegments.LockSegment.Disable | src/scripts/components/lock-segment.js:108-111 | both buttons disabled; the position and a running cooldown are unchanged |
| LockSegments.LockSegment.SetPosition | src/scripts/components/lock-segment.js:133-136 | the position is set without a range check, and the wheel moves to it |
| LockSegments.LockSegment.Reset | src/scripts/components/lock-segment.js:116-119 | both buttons are enabled and the segment moves to its random draw in [0, n) |
| LockSegments.LockSegment.ShowSolutions | src/scripts/components/lock-segment.js:124-126 | the segment moves to the first index of its symbol, whatever its buttons and cooldown |
| LockSegments.LockSegment.Click | src/scripts/components/lock-segment.js:26-54 | the segment's new state is ClickState of the old one |
| LockSegments.LockSegment.Cooldown | src/scripts/components/lock-segment.js:152-167 | the new state is CooldownState: a no-op while cooling down, otherwise the flag is set and both buttons are disabled |
| LockSegments.LockSegment.CooldownElapsed | src/scripts/components/lock-segment.js:162-166 | the timer re-enables both buttons and clears the flag |
| Locks.ResponseOf | src/scripts/components/lock.js:65-67 | the response is no longer than the lock |
| Locks.ResponseLength | src/scripts/components/lock.js:65-67 | the response is as long as the lock exactly when every position is inside the alphabet |
| Locks.ResponseInRange | src/scripts/components/lock.js:65-67 | with every position in range, symbol i of the response is `alphabet[positions[i]]` |
| Locks.OpensIffEverySymbolMatches | src/scripts/h5p-combination-lock.js:433-434 | the response equals the solution exactly when every segment is in range and shows its solution symbol |
| Locks.SolutionPositionsOpen | src/scripts/components/lock.js:92-96 | the first indices of the solution symbols spell the solution when the alphabet holds them all |
| Locks.SavedAt | src/scripts/components/lock.js:27-29 | segment i receives `positions[i]` when a position list was saved and is long enough, nothing otherwise |
| Locks.RestoreFromSnapshot | src/scripts/components/lock.js:27-29 | restoring from a snapshot puts segment i back on its saved position unless it was 0 |
| Locks.InitialPositions | src/scripts/components/lock.js:20-37 | segment i of a new lock starts on its saved `positions[i]`, or on its draw when that is absent or 0 |
| Locks.InitialStates | src/scripts/components/lock.js:20-37 | segment i of a new lock starts as InitialState of its saved position and its draw |
| Locks.InitialStatesPositions | src/scripts/components/lock.js:20-37 | the segments of a new lock sit on InitialPositions, so its response is ResponseOf those positions |
| Locks.NewSegments | src/scripts/components/lock.js:20-37 | one valid segment per solution symbol, in order, over the given alphabet, each starting as InitialStates says and owning fresh objects disjoint from the others' |
| Locks.PositionsOf | src/scripts/components/lock.js:74-76 | one position per segment, in segment order |
| Locks.JoinResponses | src/scripts/components/lock.js:65-67 | joining the segments' responses is ResponseOf of their positions |
| Locks.EnabledAll | src/scripts/components/lock.js:101-105 | every segment enabled, in order |
| Locks.DisabledAll | src/scripts/components/lock.js:110-114 | every segment disabled, in order |
| Locks.MovedAll | src/scripts/components/lock.js:119-124 | every segment moved to its own position, in order |
| Locks.SolutionPositions | src/scripts/components/lock.js:92-96 | segment i's target is the first index of solution symbol i |
| Locks.PositionsOfStates | src/scripts/components/lock.js:74-76 | the positions recorded in the segments' states, in order |
| Locks.SnapKeepsResponse | src/scripts/components/wheel.js:72-83 | a snap timer changes no segment's position, so the lock's response (and whether it opens) stays the same |
| Locks.ResetLeavesEveryoneEnabledInRange | src/scripts/components/lock.js:119-124 | after reset every segment is enabled and on its draw in [0, n) |
| Locks.SolutionStatesOpen | src/scripts/components/lock.js:92-96 | after showSolutions the response is the solution, from any prior state |
| Locks.Lock.constructor | src/scripts/components/lock.js:20-37 | one segment per solution symbol, in order, all over the lock's alphabet; the segments start in InitialStates and on InitialPositions; no message |
| Locks.Lock.GetPositions | src/scripts/components/lock.js:74-76 | one position per segment, in order |
| Locks.Lock.GetResponse | src/scripts/components/lock.js:65-67 | the response is ResponseOf of the positions |
| Locks.Lock.ResponseOfStates | src/scripts/components/lock.js:65-67 | the response depends only on the segments' states |
| Locks.Lock.GetCurrentState | src/scripts/components/lock.js:83-87 | `{ positions }`: the snapshot's positions are the segments' positions in order, and a new lock restores every non-zero one |
| Locks.Lock.SetMessage | src/scripts/h5p-combination-lock.js:536-543 | the announced message is stored |
| Locks.Lock.Enable | src/scripts/components/lock.js:101-105 | every segment is enabled; no position changes |
| Locks.Lock.Disable | src/scripts/components/lock.js:110-114 | every segment is disabled; no position changes and no cooldown is cancelled |
| Locks.Lock.Reset | src/scripts/components/lock.js:119-124 | enable, then every segment moves to its draw |
| Locks.Lock.ShowSolutions | src/scripts/components/lock.js:92-96 | every segment moves to the first index of its solution symbol |
| Locks.Lock.ClickSegment | src/scripts/components/lock-segment.js:143-145 | a click changes segment i as ClickState says, and no other segment |
| Locks.Lock.CooldownSegment | src/scripts/components/lock-segment.js:146 | segment i cools down; the others are unchanged |
| Locks.Lock.FireSnapSegment | src/scripts/components/wheel.js:72-83 | the oldest snap of segment i's wheel fires; the other segments are unchanged |
| Locks.Lock.CooldownSegmentElapsed | src/scripts/components/lock-segment.js:162-166 | segment i's cooldown timer fires; the others are unchanged |
| CombinationLocks.ViewStateOf | src/scripts/h5p-combination-lock.js:550-556 | exactly the keys "task", "results" and "solutions" select a view state, 0, 1 and 2 |
| CombinationLocks.MaxAttempts | src/scripts/h5p-combination-lock.js:92-94 | Infinite under auto-check; otherwise the configured value, or Infinite when there is none |
| CombinationLocks.Decremented | src/scripts/h5p-combination-lock.js:477 | `Math.max(0, attemptsLeft - 1)`, with Infinity staying Infinity |
| CombinationLocks.CheckAnswerStep | src/scripts/h5p-combination-lock.js:430-528 | the answer counts as given. The right combination disables the lock, shows results, scores 1 or `attemptsLeft`, and keeps the attempts. A wrong one in manual mode with unlimited attempts changes nothing else. Under auto-check with unlimited attempts it changes nothing at all. With limited attempts one is used up: the last one disables the lock, shows results and scores 0, otherwise view and score stay |
| CombinationLocks.CheckAnswerStepAfterAnswerGiven | src/scripts/h5p-combination-lock.js:430-431 | checking does not depend on whether an answer had been given before |
| CombinationLocks.LockChangedStep | src/scripts/h5p-combination-lock.js:572-578 | the answer counts as given; the check runs exactly under auto-check |
| CombinationLocks.CheckAnswerKeepsLimits | src/scripts/h5p-combination-lock.js:430-528 | attempts stay within the limit and the score within [0, getMaxScore()] |
| CombinationLocks.CheckAnswerOnlyMovesToResults | src/scripts/h5p-combination-lock.js:430-528 | the view stays or becomes results; the lock is disabled, then in results, exactly on the right combination or the last attempt |
| CombinationLocks.UnclampedRestoreExceedsMaxScore | src/scripts/h5p-combination-lock.js:96 | a restored `attemptsLeft` above the limit yields a score above getMaxScore() |
| CombinationLocks.ThreeAttemptsScenario | src/scripts/h5p-combination-lock.js:477-488 | three wrong answers count 3, 2, 1, 0 and end in results with score 0; a right answer with two left scores 2 |
| CombinationLocks.AutoCheckOpensAtOnce | src/scripts/h5p-combination-lock.js:572-578 | under auto-check a change to the right combination opens the lock at once with score 1 |
| CombinationLocks.TaskMessage | src/scripts/h5p-combination-lock.js:118-131 | the task view announces the attempts left exactly in manual mode with limited attempts, otherwise the no-message placeholder (`l10n.noMessage`) |
| CombinationLocks.Restored | src/scripts/h5p-combination-lock.js:82-96 | score 0 and no message; view, attempts left and answer-given come from the saved state when present (`??`, so a saved 0 is kept), else task, `maxAttempts` and false; limited attempts restore a finite count |
| CombinationLocks.EnterViewStep | src/scripts/h5p-combination-lock.js:118-142 | the task view only sets TaskMessage, the solutions view only sets the correct-combination message, an unknown view changes nothing; the results view is CheckAnswerStep (see EnterViewKeepsView) |
| CombinationLocks.EnterViewStates | src/scripts/h5p-combination-lock.js:118-142 | entering a view keeps every cooldown; only the solutions view moves segments, each to its solution position with both buttons disabled; task and unknown views leave the segments as they are |
| CombinationLocks.EnterViewKeepsView | src/scripts/h5p-combination-lock.js:118-142 | entering a restored view stays in that view; a restored results view counts the answer as given; attempts and score change only in the results view |
| CombinationLocks.CombinationLock.constructor | src/scripts/h5p-combination-lock.js:14-142 | sanitised parameters: the alphabet is Padded of the de-duplicated alphabet-plus-solution text, in that order, and the solution is defaulted; `maxAttempts` from the behaviour. The status is EnterViewStep of the restored status: view, attempts and answer-given restored or defaulted, score 0, checked against the new lock's initial response. The lock's segments are EnterViewStates of InitialStates: left as built in the task view (and an unknown view); disabled exactly when the restored check disables the lock in the results view; disabled and moved to the solution positions in the solutions view, where one timer is pending and the response is the solution |
| CombinationLocks.CombinationLock.EnterView | src/scripts/h5p-combination-lock.js:118-142 | the new status is EnterViewStep of the old one, and the lock's segments are EnterViewStates of the old ones. Results disable the lock exactly when the check does; solutions disable the lock, move it to the solution, and leave one timer pending; otherwise the lock is untouched |
| CombinationLocks.CombinationLock.GetScore | src/scripts/h5p-combination-lock.js:304-306 | the score field |
| CombinationLocks.CombinationLock.GetMaxScore | src/scripts/h5p-combination-lock.js:313-315 | 1 for unlimited attempts, `maxAttempts` otherwise |
| CombinationLocks.CombinationLock.GetAnswerGiven | src/scripts/h5p-combination-lock.js:322-324 | the answer-given flag |
| CombinationLocks.CombinationLock.GetCurrentState | src/scripts/h5p-combination-lock.js:331-339 | answer-given, attempts left, view, message and the lock's positions |
| CombinationLocks.CombinationLock.SetViewState | src/scripts/h5p-combination-lock.js:550-556 | a known key sets its view state, an unknown key is ignored; nothing else changes |
| CombinationLocks.CombinationLock.HandleAnswerGiven | src/scripts/h5p-combination-lock.js:583-585 | the answer-given flag is set, nothing else |
| CombinationLocks.CombinationLock.CheckAnswer | src/scripts/h5p-combination-lock.js:430-528 | the new status is CheckAnswerStep on whether the response equals the solution; every segment is disabled exactly when the step says so and otherwise untouched |
| CombinationLocks.CombinationLock.OpenLock | src/scripts/h5p-combination-lock.js:433-465 | the right-combination branch: CheckAnswerStep with a correct answer, every segment disabled |
| CombinationLocks.CombinationLock.RejectCombination | src/scripts/h5p-combination-lock.js:467-527 | the wrong-combination branches: CheckAnswerStep with a wrong answer, every segment disabled exactly on the last attempt |
| CombinationLocks.CombinationLock.ShowSolutions | src/scripts/h5p-combination-lock.js:347-378 | every segment is disabled and moved to its solution symbol, so the response equals the solution; the message is the correct combination; the switch to the solutions view is pending |
| CombinationLocks.CombinationLock.SolutionsViewTimerElapsed | src/scripts/h5p-combination-lock.js:362-363 | the pending timer sets the solutions view, even after a reset in between |
| CombinationLocks.CombinationLock.ResetTask | src/scripts/h5p-combination-lock.js:383-422 | task view, all attempts, score 0, no answer given, the task message; every segment enabled on its draw |
| CombinationLocks.CombinationLock.HandleLockChanged | src/scripts/h5p-combination-lock.js:572-578 | the new status is LockChangedStep: answer given, checked exactly under auto-check |
| CombinationLocks.CombinationLock.HandleSegmentClicked | src/scripts/components/lock-segment.js:143-147 | a click on a disabled button changes nothing. Otherwise the segment moves, and exactly one change notification runs LockChangedStep on the moved lock's response. Then the clicked segment cools down, after any disabling the check did |

## Left out

- DOM, styling and accessibility text are not modelled: element creation, classes, aria attributes, `uncloak`, and the wheel's pixel translation and animation frames. `ScrollTo` keeps only the target index.
- The segment's `IntersectionObserver` is not modelled. It calls `setPosition(position)` when the segment becomes fully visible, and that depends on layout.
- H5P.Question host calls are not modelled: adding, showing, hiding and focusing buttons, `read`, `resize`, xAPI statements, and `lock.focus`. The `enableRetry` and `enableSolutionsButton` options only drive those buttons. The timeouts that only move buttons or focus are not modelled either.
- `showAnimationWrongCombination` is called but not defined by lock.js, so it is not modelled; it changes no state.
- Localisation is not modelled: messages are tags (`Message`). With real texts, an empty localised text would skip the announcement, because `announceMessage` ignores empty text.
- The aria text that spells out the combination is not modelled.
- Grapheme splitting (`char-regex`) is not modelled: symbols are given already split. Comparing the response with the solution compares symbol sequences, not joined strings.
- Sanitization.Dedup tests membership of whole symbols. The source searches for the symbol as a substring of the text built so far, which differs when one symbol is a substring of a concatenation of others (for instance "e" inside "é" written with a combining accent). For such inputs the source drops the solution symbol from the alphabet, so `showSolutions` moves that segment to -1 and the lock can never open. The model's `Sanitize` guarantee that every solution symbol is in the alphabet, and everything built on it, does not hold of the source for those inputs.
- `Math.random` is not modelled: draws are parameters in [0, n).
- Timers are steps, not durations: snap timers fire oldest first, and the cooldown timer is pending exactly while the segment cools down.
- The numeric branch of `setViewState` is not modelled: no caller passes a number.
- Keys inherited by the `VIEW_STATES` object, such as `"toString"`, are not modelled: ViewStateOf accepts only the three own keys.
- Saved values that are not integers are not modelled (fractional or non-numeric positions, a `null` attempts count). `SavedState` holds integers and booleans.
- Serialising `Infinity` as `null` in the saved state is not modelled.

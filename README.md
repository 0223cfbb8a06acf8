# Valentine book: navigation and memory game

A Dafny model of the rule logic in `script.js`. It covers four parts.

- **`utils`** (utils.dfy, module `Utils`):
  - `formatTime`, which renders seconds as `m:ss`. It is proved to read back to its input.
  - `shuffle`, the in-place Fisher–Yates loop. The random index is chosen nondeterministically, and the loop is proved to permute the array.
- **Memory-matching rules** (memory.dfy, module `Memory`). The whole rule state of class `MemoryGame` is one value, `Turn`:
  - the rendered deck of `(id, flipped, matched)` cards;
  - the flip buffer, as indices into the deck;
  - `matchedPairs`, `moves` and `isLocked`.

  A click is a function from a `Turn` to the next `Turn` plus the `setTimeout` callbacks it schedules. The callbacks are the 200 ms `matched` marking, the 1000 ms un-flip and the completion. Lemmas state the click rules, the invariant every event keeps, the deck's composition and the two findings below.
- **Class `MemoryGame`** (game.dfy, module `Game`):
  - The cards are an `array<Card>`.
  - The fields are updated in place by the handlers.
  - Every method is proved to move the state exactly as module `Memory` prescribes.
  - Callbacks that have not yet run are `pending` entries. Each entry carries the card array it closes over. The methods `ApplyMatchMarks`, `ResolveMismatch` and `HandleGameComplete` run the queued entries in any order the environment chooses.
- **Class `ValentineApp`'s page book** (book.dfy, module `Book`):
  - `navigatePage` / `showPage` are split at their `await` points into `NavigatePage`/`ShowPage`, `EnterPage` and `Settle`. This makes the `isTransitioning` guard visible. `Navigate` runs one navigation to completion.
  - The landing page, the `n/total` label, the arrow visibility and the hand-off to the memory game on page index 5 are stated as functions and lemmas.
  - The escaping button's phrase counter is also in this module.

A reset button would be expected to start a new game, as `initialize()` does. In the code (script.js:739-745), `reset()` only clears the counters, the buffer and the lock, and the reset button calls `reset()` alone (script.js:801-804). The model follows the code, and the consequence is recorded as a finding.

The JavaScript `reset()` also empties `this.cards`. That array is only the list used to attach listeners. The rendered card elements stay in the container with their classes and their click listeners, so the model's `cards` (the rendered deck) is left as it is.

## Model

| member | source | states |
|---|---|---|
| Utils.NatToString | script.js:147 | `toString()` of a non-negative integer: a non-empty digit string, one digit exactly below 10, no leading zero |
| Utils.NatToStringRoundTrip | script.js:147 | the decimal rendering reads back to the number it came from |
| Utils.PadStart2 | script.js:147 | `padStart(2, '0')`: length is max(2, \|s\|), the original string is the suffix, and everything before it is '0' |
| Utils.SecondsField | script.js:146-147 | the seconds field of a remainder below 60 is exactly two characters and reads back as the remainder |
| Utils.FormatTime | script.js:144-148 | the result is minutes, then ':', then the two-character seconds field of `seconds % 60`; the minutes field is the decimal of `seconds / 60` |
| Utils.FormatTimeFields | script.js:144-148 | the minutes field reads back as `seconds / 60`, and the seconds field as `seconds % 60` |
| Utils.FormatTimeRoundTrip | script.js:144-148 | reading `m:ss` back as `m * 60 + ss` gives the original number of seconds, so `formatTime` loses nothing |
| Utils.Shuffle | script.js:150-156 | the in-place swap loop leaves a permutation of the array (same multiset of elements) |
| Memory.Press | script.js:807-822 | a click keeps the buffer within the deck and the deck size unchanged |
| Memory.PressKeepsInv | script.js:807-869 | a click keeps the invariant: buffer of at most 2, locked exactly when 2 are buffered, buffered cards face up, a full buffer holds two distinct cards with different ids, pairs never exceed moves |
| Memory.MismatchKeepsInv | script.js:858-869 | the un-flip callback keeps the invariant |
| Memory.MarkKeepsInv | script.js:839-845 | the `matched`-marking callback keeps the invariant |
| Memory.ClickNoOpIff | script.js:807-812 | a click changes nothing and schedules nothing if and only if the engine is locked, the card is already buffered, or it is matched |
| Memory.ClickFirstCard | script.js:814-817 | the first accepted card of a turn is turned face up and buffered; no move is counted, no callback is scheduled, and every other card is unchanged |
| Memory.ClickSecondCard | script.js:817-856 | the second card costs exactly one move. Equal ids: one more pair, empty buffer, unlocked at once, the marking callback scheduled, and the completion scheduled if and only if the count reaches 3. The callbacks are exactly the marking, followed by the completion when the count reaches 3. Different ids: both cards stay buffered, the engine stays locked, and only the un-flip is scheduled. In both cases every other card is unchanged |
| Memory.ClickLeavesMarks | script.js:807-856 | a click never changes any card's `matched` class; marks come only from the delayed callback |
| Memory.MismatchRound | script.js:858-869 | after a mismatch and its un-flip: both cards face down, empty buffer, unlocked, one move spent, no pair gained, and every other card untouched |
| Memory.ShuffledDeckPairs | script.js:753-766 | the shuffled deck has 6 cards, and ids 1, 2 and 3 each occur exactly twice |
| Memory.PartnerExists | script.js:760-766 | every card of the shuffled deck has another card with the same id |
| Memory.MatchWindowDoubleCount | script.js:836-856 | as written: clicking a just-matched pair again within the 200 ms window counts it a second time. One more real pair then reaches 3 and schedules completion at a moment when only 4 of the 6 cards are, or are about to be, `matched` |
| Memory.ClickFixedKeepsSound | script.js:836-856 | corrected click (marks applied when the match is found): keeps pairs exactly half the number of `matched` cards, and no buffered card matched |
| Memory.MismatchKeepsSound | script.js:858-869 | the un-flip callback keeps that tally |
| Memory.RestartSound | script.js:732-737 | a freshly built deck starts with the tally exact, every card face down and unmatched, counters at zero, unlocked |
| Memory.SoundWonIff | script.js:849-853 | under the tally, a six-card game never passes 3 pairs, and reaches 3 exactly when every card is matched |
| Memory.ResetKeepsMarks | script.js:739-745 | as written, `reset()` zeroes the pair count but leaves 2 × pairs `matched` cards on the board, so the tally no longer holds |
| Game.MemoryGame.constructor | script.js:724-730 | empty deck, empty buffer, counters at zero, unlocked, nothing pending |
| Game.MemoryGame.Reset | script.js:739-745 | counters, buffer and lock cleared; the rendered cards and pending callbacks are kept; the invariant holds |
| Game.MemoryGame.CreateCards | script.js:747-773 | a fresh card array whose ids are a permutation of `[1,2,3,1,2,3]`, every card face down and unmatched |
| Game.MemoryGame.Initialize | script.js:732-737 | the state becomes the freshly built game over the new shuffled deck, with the tally exact |
| Game.MemoryGame.HandleCardClick | script.js:807-822 | the new state is exactly `Memory.Click` of the old one; the callbacks it schedules are appended to the pending queue, bound to the current cards; the invariant is kept |
| Game.MemoryGame.HandleCardClickFixed | script.js:836-845 | the corrected handler follows `Memory.ClickFixed` and keeps the tally |
| Game.MemoryGame.Press | script.js:807-822 | the shared body of both handlers follows `Memory.Press` step for step |
| Game.MemoryGame.CheckMatch | script.js:824-834 | locks, compares the two `cardId`s and follows `Memory.Evaluate`; a locked result always has its un-flip queued |
| Game.MemoryGame.HandleMatch | script.js:836-856 | one more pair, the marking queued (or applied at once in the corrected form), completion queued exactly at 3 pairs, buffer emptied, unlocked, moves unchanged |
| Game.MemoryGame.HandleMismatch | script.js:858-864 | queues the un-flip of the two cards and changes nothing else |
| Game.MemoryGame.ResetTurn | script.js:866-869 | empties the buffer and unlocks, changing nothing else |
| Game.MemoryGame.ApplyMatchMarks | script.js:839-845 | the queued marking sets `matched` on exactly its two cards, in the array it closes over, and leaves the queue; the invariant is kept |
| Game.MemoryGame.ResolveMismatch | script.js:859-863 | the queued un-flip takes `flipped` off exactly its two cards and then empties the buffer and unlocks; counters unchanged |
| Game.MemoryGame.HandleGameComplete | script.js:920-937 | the completion leaves the queue and reports the current move count; the game state is unchanged |
| Book.Landing | script.js:492-502 | a navigation either stays put or moves to the neighbouring index, and never leaves the book or the rendered pages |
| Book.LandingMovesIff | script.js:492-513 | a navigation moves if and only if the neighbouring index is within `[0, totalPages)` and has a page element |
| Book.NextPrevRoundTrip | script.js:492-502 | "next" then "previous" returns to the starting page whenever "next" could move |
| Book.PrevNextRoundTrip | script.js:492-502 | "previous" then "next" returns to the starting page whenever "previous" could move |
| Book.WalkForward | script.js:492-502 | k presses of "next" from page c land on min(c + k, totalPages - 1) |
| Book.WalkBackward | script.js:492-502 | k presses of "previous" from page c land on max(c - k, 0) |
| Book.Navigation | script.js:545-556 | the label is `(page+1)/total`; "previous" is hidden exactly on the first page and "next" exactly on the last |
| Book.NavigationLabelRoundTrip | script.js:546-548 | the label reads back as (current page + 1, total pages) |
| Book.Hover | script.js:579 | the phrase index stays below 10, advances by one, and wraps from 9 to 0 |
| Book.HoversCycle | script.js:572-580 | after k hovers the button shows phrase k mod 10 |
| Book.ValentineApp.constructor | script.js:237-240 | page 0 of 8, no transition running, a fresh memory game |
| Book.ValentineApp.UpdateNavigation | script.js:545-556 | the controls show `Navigation(currentPage, totalPages)`; nothing else changes |
| Book.ValentineApp.NavigatePage | script.js:492-502 | ignored while a transition runs; otherwise starts the transition to the neighbour if it is in range and rendered, and releases the lock at once if not; the current page does not change yet |
| Book.ValentineApp.ShowPage | script.js:504-513 | the guard drops out-of-range or concurrent requests unchanged; a missing page element ends with the lock released; otherwise the entry step is pending |
| Book.ValentineApp.EnterPage | script.js:522-537 | commits the target page, refreshes the controls, starts a fresh memory game exactly on page index 5, and leaves the game untouched otherwise |
| Book.ValentineApp.Settle | script.js:539-542 | the `finally` releases the transition lock without changing the page |
| Book.ValentineApp.Navigate | script.js:492-543 | a whole navigation ends on `Landing(old page, direction)` with the lock released; the controls are refreshed if the page changed; arriving on page index 5 leaves a fresh deck holding each id twice, with the tally exact; landing anywhere else leaves the game untouched |

## Left out

- Visual effects: `animationUtils`, particles (`createParticles`), stars, hearts, loader, cover and ending fades, card styles (`updateCardStyles`) and the escaping button's random position. These are DOM styling and floating point only.
- Audio, the modal, the gallery, the `Swal.fire` dialogs and image preloading. These are browser and foreign-library I/O. The game-complete dialog is reduced to the move count it shows. Its "continue" button clicks the next-page arrow, which is the same as `NavigatePage(Next)`.
- `updateMovesDisplay` / `updatePairsDisplay`: they only write the counters into the page.
- `debounce`, `throttle` and `updateFinalCountdown`: their behaviour depends on timers and the wall clock.
- Absent DOM elements: every `if (element)` check other than the page lookup in `showPage` is left out. The model assumes the controls, the card container and the buttons exist.
- Event-listener registration: `setupEventListeners` adds one more reset-button listener on every `initialize()`. Repeated `reset()` calls have the same effect as one, so the duplication is not modelled.
- The escaping button's `isMoving` 300 ms guard: it only drops hovers.
- Timing: how long each `setTimeout` waits is not modelled. Pending callbacks may fire in any order the caller picks. Nothing forces the 200 ms marking to run before the 1000 ms completion.
- `startStory`'s first `updateNavigation` is covered by `UpdateNavigation`. Before that call, the model's `view` is `None` (the page's own markup).
- Book.ValentineApp.EnterPage: the fade-out and slide-in styles set before the page is committed are not modelled, only the state they lead to.
- Game.MemoryGame.HandleGameComplete: does not model the extra 500 ms before the dialog; the model reads `moves` when the completion callback runs.
- Utils.Shuffle: states that the result is a permutation. It does not state that every permutation is equally likely, because randomness is modelled as a nondeterministic choice.

## Findings

| source | as written | input that shows it | evidently intended | confidence | as-written member | corrected member |
|---|---|---|---|---|---|---|
| script.js:836-845 | the two matched cards get the `matched` class only 200 ms after `matchedPairs++` and `resetTurn()`, so during that window they are neither buffered nor matched and can be clicked again | on a fresh deck, click a, b (same id), then a, b again before 200 ms, then c, d (another pair): `matchedPairs` is 3 and completion is scheduled while only 4 of 6 cards are matched | each pair is counted once: the cards are marked matched when the match is found | not executed | Memory.MatchWindowDoubleCount | Memory.ClickFixedKeepsSound |
| script.js:801-804 | the reset button calls `reset()`, which zeroes `matchedPairs` and `moves` but keeps the rendered cards with their `matched` and `flipped` classes | after one found pair, press reset: `matchedPairs` is 0 while 2 cards are still `matched`, and the unmatched cards hold only 2 pairs | reset starts a new game (rebuild and reshuffle the deck, as `initialize()` does) | not executed | Memory.ResetKeepsMarks | Memory.RestartSound |

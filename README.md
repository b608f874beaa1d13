# Memora flashcards: a Dafny model of the card store, the review streak, the review session and deck import

Memora is a spaced-repetition flashcard application. This project models its core in Dafny and proves properties of the model:

- **The card store** (`useFlashcards`):
  - the SM-2 review step;
  - adding a card;
  - the due-card query;
  - the per-deck due summary;
  - deleting a card or a deck;
  - the defaulting applied to stored records when the collection is loaded.
- **The review streak** (`useReviewStreak`):
  - the load-time reset;
  - `recordReviewSession`;
  - the consistency effect.
- **The review-session driver** of the review page:
  - choosing and sorting a session's cards;
  - rating the current card;
  - classifying the deck's next review time after the session.
- **Deck import** on the preloaded-decks page: adding a built-in deck, skipping the cards the collection already has.

Modules, in dependency order:

| module | file | content |
|---|---|---|
| `Optional` | optional.dfy | `Option`, the optional fields of records |
| `Dates` | dates.dfy | timestamps (integer milliseconds of local time), day numbers, midnights |
| `Seqs` | seqs.dfy | `Array.prototype.filter` as `Filter`, and its laws |
| `Scheduler` | scheduler.dfy | the SM-2 step on (repetitions, interval, ease factor) |
| `Cards` | cards.dfy | the `Flashcard` record, card creation, one review, load normalisation |
| `Ordering` | ordering.dfy | the stable sort by next review time, and the sort of deck summaries by name |
| `Flashcards` | flashcards.dfy | the store: class `FlashcardStore` and the functions that specify it |
| `Streaks` | streaks.dfy | class `ReviewStreak` and its transition functions |
| `Review` | review.dfy | class `ReviewSession` and the next-review message |
| `Decks` | decks.dfy | `HandleAddDeck` and the import it performs |

How values are represented:

- **Ease factor.** It is kept in integer hundredths: 2.5 is 250 and the floor 1.3 is 130. Every rating changes it by a whole number of hundredths. `Math.round(interval * EF)` becomes `(interval * EF + 50) / 100`.
- **Time.** A timestamp is an integer number of milliseconds of local time. `Dates.Day(t)` is the day it falls on. This is what `setHours(0, 0, 0, 0)` computes.
- **Mutable state.** The state that React keeps in `useState` is a class field. Each handler is a method with a `modifies` clause. Each method is proved against a function of the old state, and the properties are proved about those functions.

## Model

| member | source | states |
|---|---|---|
| Scheduler.Schedule | src/hooks/useFlashcards.ts:72-92 | after any rating, the interval is at least one day and the ease factor at least 1.3 |
| Scheduler.RoundHundredths | src/hooks/useFlashcards.ts:87 | the result is the integer nearest to x/100, halves rounded up, as `Math.round` does |
| Scheduler.EaseDelta | src/hooks/useFlashcards.ts:92 | the SM-2 ease change in hundredths: on the 0-5 scale it is at most +0.10 and positive only for quality 5; the full table is `EaseDeltaTable` |
| Scheduler.EaseDeltaTable | src/hooks/useFlashcards.ts:92 | the ease change for qualities 5..0 is +0.10, 0, -0.14, -0.32, -0.54, -0.80 |
| Scheduler.EaseDeltaMonotonic | src/hooks/useFlashcards.ts:92 | on the 0-5 scale, a better quality never lowers the ease more than a worse one |
| Scheduler.FailureResets | src/hooks/useFlashcards.ts:76-78 | a quality below 3 resets repetitions to 0 and the interval to 1 |
| Scheduler.SuccessLadder | src/hooks/useFlashcards.ts:79-89 | a quality of 3 or more adds one repetition; the interval becomes 1, then 6, then max(1, round(old interval × old EF)) |
| Scheduler.EaseUpdate | src/hooks/useFlashcards.ts:92 | the ease is updated on failure and on success alike, from its old value, floored at 1.3 |
| Scheduler.EaseExamples | src/hooks/useFlashcards.ts:92 | quality 5 raises the ease by 0.1; quality 4 keeps it; quality 2 lowers it by 0.32, down to the floor |
| Scheduler.GrowthNeverShrinks | src/hooks/useFlashcards.ts:85-88 | from the third successful review on, the interval never shrinks |
| Scheduler.RepetitionsCountPasses | src/hooks/useFlashcards.ts:76-80 | after a run of ratings, repetitions counts the successes since the last failure |
| Scheduler.RunInvariants | src/hooks/useFlashcards.ts:76-92 | any run of ratings keeps the ease at least 1.3 and the interval at least 1 |
| Scheduler.PerfectRunEase | src/hooks/useFlashcards.ts:92 | n perfect ratings raise the ease by 0.1 each |
| Scheduler.SixteenPerfectReviews | src/hooks/useFlashcards.ts:76-92 | fifteen perfect ratings of a new card give interval 30,216,170 days and ease 4.0; sixteen give 120,864,680 days and ease 4.1 |
| Scheduler.ThreePerfectReviews | src/hooks/useFlashcards.ts:76-92 | three perfect ratings of a new card give intervals 1, 6, 16 and ease 2.6, 2.7, 2.8 |
| Scheduler.PassThenFail | src/hooks/useFlashcards.ts:76-92 | a pass and then a quality-2 failure leave repetitions 0, interval 1 and ease 2.28 |
| Cards.NewCard | src/hooks/useFlashcards.ts:44-66 | a new card has the given fields, interval 0, repetitions 0, ease 2.5 and no last review; it is due now and satisfies the card invariants |
| Cards.Review | src/hooks/useFlashcards.ts:71-97 | the scheduling fields become the SM-2 step; the card is reviewed at today's midnight and due at the midnight `interval` days later; every other field is kept |
| Cards.ReviewKeepsValid | src/hooks/useFlashcards.ts:71-97 | a review keeps a valid card valid, whatever the quality |
| Cards.SixteenthPerfectReviewLeavesDateRange | src/hooks/useFlashcards.ts:94-95 | on any day from the epoch on, the sixteenth perfect review of a new card sets a next review time beyond the largest `Date` value, 8.64e15 ms |
| Cards.ReviewedNotDueToday | src/hooks/useFlashcards.ts:94-97 | a card just reviewed is not due again today; it is due `interval` days later |
| Cards.Normalize | src/hooks/useFlashcards.ts:20-27 | a missing or empty deck id or deck name gets its default, and a missing or zero ease gets 2.5; the other fields are kept |
| Cards.SaveLoadRoundTrip | src/hooks/useFlashcards.ts:20-27 | saving and loading gives back every card whose deck fields are non-empty and whose ease is non-zero |
| Cards.NormalizeIdempotent | src/hooks/useFlashcards.ts:20-27 | loading a loaded card again changes nothing |
| Ordering.InsertByNext | src/hooks/useFlashcards.ts:120 | one insertion step of the sort adds exactly the inserted card to the multiset |
| Ordering.InsertByNextSorted | src/hooks/useFlashcards.ts:120 | insertion keeps the cards sorted by next review time |
| Ordering.SortByNext | src/hooks/useFlashcards.ts:120 | the sort result is ascending by next review time and is a permutation of its input |
| Ordering.InsertByNextStable | src/hooks/useFlashcards.ts:120 | insertion keeps the relative order of the cards due at any one time |
| Ordering.SortByNextStable | src/hooks/useFlashcards.ts:120 | the sort is stable: for every time t, the cards due at t keep their input order |
| Ordering.SortSortedIdentity | src/app/review/page.tsx:69-73 | sorting cards that are already in order changes nothing |
| Ordering.SortIdempotent | src/app/review/page.tsx:69-73 | sorting twice is sorting once |
| Ordering.InsertByName | src/hooks/useFlashcards.ts:152 | one insertion step of the name sort adds exactly the inserted entry to the multiset |
| Ordering.InsertByNameSorted | src/hooks/useFlashcards.ts:152 | insertion keeps the deck list sorted by name |
| Ordering.SortByName | src/hooks/useFlashcards.ts:152 | the deck list comes out sorted by name, as a permutation of the entries |
| Flashcards.DueSelection | src/hooks/useFlashcards.ts:109-118 | the cards kept before sorting are exactly the due ones, restricted to the deck when a non-empty deck id is given |
| Flashcards.DueCards | src/hooks/useFlashcards.ts:109-120 | the result holds exactly the due cards (of the deck, when a non-empty deck id is given); it is sorted by next review time, is a permutation of the filtered cards and keeps their order for equal times |
| Flashcards.DueCountIsDueCards | src/hooks/useFlashcards.ts:109-139 | a deck's due count in the summary equals the length of that deck's due list |
| Flashcards.NewCardIsDue | src/hooks/useFlashcards.ts:44-66 | a card added now is in today's due list of its deck |
| Flashcards.InDeckIds | src/hooks/useFlashcards.ts:141-145 | a deck id occurs in the collection exactly when the deck has a card |
| Flashcards.ApplyReview | src/hooks/useFlashcards.ts:69-101 | the review `map` keeps the length and the id at every position; the rest is specified by `ApplyReviewFrame` |
| Flashcards.ApplyReviewFrame | src/hooks/useFlashcards.ts:69-101 | reviewing keeps the length, the order and the ids; it rewrites exactly the cards with the given id and leaves the others unchanged |
| Flashcards.ApplyReviewUnknownId | src/hooks/useFlashcards.ts:69-101 | reviewing an id that no card has changes nothing |
| Flashcards.ApplyReviewLeavesDue | src/hooks/useFlashcards.ts:69-101 | the reviewed card leaves today's due list |
| Flashcards.ReviewShrinksDueCount | src/hooks/useFlashcards.ts:69-117 | reviewing never raises a deck's due count, and lowers it when a card with the reviewed id was due in the deck |
| Flashcards.ApplyReviewKeepsValid | src/hooks/useFlashcards.ts:69-101 | reviewing keeps every card valid |
| Flashcards.RemoveCard | src/hooks/useFlashcards.ts:156 | a card is kept exactly when its id differs from the deleted one; idempotence is `RemoveCardIdempotent` |
| Flashcards.RemoveDeck | src/hooks/useFlashcards.ts:160 | a card is kept exactly when it belongs to another deck; the cascade is `RemoveDeckCascade` |
| Flashcards.RemoveCardIdempotent | src/hooks/useFlashcards.ts:155-157 | deleting a card keeps exactly the cards with other ids; doing it twice is doing it once; deleting a missing id is a no-op |
| Flashcards.RemoveDeckIdempotent | src/hooks/useFlashcards.ts:159-161 | deleting a deck twice is deleting it once; deleting a missing deck is a no-op |
| Flashcards.RemoveDeckCascade | src/hooks/useFlashcards.ts:159-161 | deleting a deck removes it, and only it, from the deck ids, together with all its cards |
| Flashcards.RemoveKeepsValid | src/hooks/useFlashcards.ts:155-161 | deleting keeps the remaining cards valid |
| Flashcards.TallyEntriesCorrect | src/hooks/useFlashcards.ts:148-151 | each summary entry names a deck of the collection, with its due count and its name |
| Flashcards.TallyEntriesCover | src/hooks/useFlashcards.ts:141-151 | every deck of the collection has exactly one summary entry |
| Flashcards.EntriesSorted | src/hooks/useFlashcards.ts:148-152 | after sorting, the summary still holds one correct entry per deck |
| Flashcards.FlashcardStore.constructor | src/hooks/useFlashcards.ts:12-13 | the store starts empty and not loaded |
| Flashcards.FlashcardStore.Load | src/hooks/useFlashcards.ts:15-36 | without stored data the cards are kept; otherwise each stored record is normalised in order; either way the store is then loaded |
| Flashcards.FlashcardStore.AddFlashcard | src/hooks/useFlashcards.ts:44-66 | the new card is appended at the end, and the existing cards are unchanged |
| Flashcards.FlashcardStore.UpdateFlashcardReview | src/hooks/useFlashcards.ts:68-102 | the new collection is the old one with the cards of that id reviewed today, and validity is kept |
| Flashcards.FlashcardStore.GetDueFlashcards | src/hooks/useFlashcards.ts:104-121 | before the load the result is empty; after it, it is exactly the due cards (of the deck), sorted |
| Flashcards.FlashcardStore.TallyDueCards | src/hooks/useFlashcards.ts:128-139 | the first pass tallies exactly the decks with due cards, each with its count and the name of its first due card |
| Flashcards.FlashcardStore.TallyRemainingDecks | src/hooks/useFlashcards.ts:141-145 | after the second pass every deck of the collection, and only those, is tallied; a deck without due cards gets count 0 and the name of its first card |
| Flashcards.FlashcardStore.GetDecksWithDueCards | src/hooks/useFlashcards.ts:123-153 | before the load the result is empty; after it, there is one entry per distinct deck id, including decks with no due card, each with its due count and name, sorted by name |
| Flashcards.FlashcardStore.DeleteFlashcard | src/hooks/useFlashcards.ts:155-157 | the new collection is the old one without the cards of that id |
| Flashcards.FlashcardStore.DeleteDeck | src/hooks/useFlashcards.ts:159-161 | the new collection is the old one without the cards of that deck |
| Streaks.NextStreak | src/hooks/useReviewStreak.ts:70-92 | with no last review the streak is 1. A same-day session turns 0 into 1 and otherwise keeps the streak. The next day adds 1, and any other gap restarts at 1. From a non-negative streak the result is between 1 and the old streak + 1 |
| Streaks.LoadedStreak | src/hooks/useReviewStreak.ts:19-42 | the loaded streak is the stored one, 0 when absent, and 0 when the last review is more than one day old |
| Streaks.ConsistentStreak | src/hooks/useReviewStreak.ts:104-118 | the result is always consistent. It equals the old streak exactly when that was consistent, and otherwise it is 0 |
| Streaks.ConsistentStreakIdempotent | src/hooks/useReviewStreak.ts:98-119 | the consistency effect changes nothing on its second run |
| Streaks.LoadThenCheck | src/hooks/useReviewStreak.ts:30-42 | when a last date was stored, the consistency effect keeps the loaded streak. Without one, it forces the streak to 0 |
| Streaks.RecordedIsConsistent | src/hooks/useReviewStreak.ts:93 | a streak just recorded is consistent that day and the next, and is forced to 0 later |
| Streaks.SameDayTwice | src/hooks/useReviewStreak.ts:77-83 | a second session on the same day changes nothing |
| Streaks.ConsecutiveDaysCount | src/hooks/useReviewStreak.ts:84-92 | sessions on n consecutive days, starting from no streak, give a streak of n |
| Streaks.MissedDayRestarts | src/hooks/useReviewStreak.ts:86-88 | a session after a missed day restarts the streak at 1 |
| Streaks.ReviewStreak.constructor | src/hooks/useReviewStreak.ts:10-12 | the hook starts with streak 0, no last review and not loaded |
| Streaks.ReviewStreak.Load | src/hooks/useReviewStreak.ts:14-48 | after the load the streak is the loaded streak, the last review is the stored one, and the hook is loaded |
| Streaks.ReviewStreak.RecordReviewSession | src/hooks/useReviewStreak.ts:64-94 | before the load nothing changes. After it, the streak follows `NextStreak`, the last review becomes today's midnight, and a non-negative streak becomes at least 1 |
| Streaks.ReviewStreak.CheckConsistency | src/hooks/useReviewStreak.ts:98-119 | once loaded, the streak follows `ConsistentStreak` and is consistent; the last review date is unchanged |
| Review.Rate | src/app/review/page.tsx:104-110 | one rating adds one reviewed card. The cursor advances while it is not on the last card, and on the last card the session completes. The cursor stays valid |
| Review.SessionRunsThrough | src/app/review/page.tsx:100-110 | for the rating handler on its own, without the restart effect: after k of n ratings the session is on card k and not over; the n-th rating completes it with n cards reviewed |
| Review.SessionSelection | src/app/review/page.tsx:61-66 | with "review all", exactly the cards of the deck; otherwise exactly the due cards of the deck once the store is loaded (all due cards for an empty deck id) |
| Review.ReviewAllSelection | src/app/review/page.tsx:62-63 | a "review all" session holds exactly the cards of the deck |
| Review.Earliest | src/app/review/page.tsx:123-128 | the result is the minimum next review time of the cards |
| Review.NextReviewMessage | src/app/review/page.tsx:118-164 | "No cards remaining" exactly when the deck has no cards. Otherwise the earliest next review is classified as today, overdue, tomorrow or later, in that order |
| Review.MessageDueIff | src/app/review/page.tsx:149-158 | the message says today or overdue exactly when some card of the deck is due. When none is due, it says tomorrow or later |
| Review.ReviewSession.constructor | src/app/review/page.tsx:37-42 | the page starts with no cards and the cursor at the start |
| Review.ReviewSession.StartReviewSession | src/app/review/page.tsx:59-82 | the session gets the sorted selection and a reset cursor. Without "review all" this is the deck's due list; with it, exactly the deck's cards |
| Review.ReviewSession.HandleRateCard | src/app/review/page.tsx:100-115 | with no current card nothing changes. Otherwise the current card is reviewed in the store and the cursor takes one rating step. The streak is recorded only when the last card is rated, and only once the streak is loaded |
| Review.ReviewSession.RateAndRestart | src/app/review/page.tsx:85-115 | a rating as the page performs it: the handler, then the restart effect, which runs because the rating changes the collection. The store and the streak change as in `HandleRateCard`. The session then holds the deck's new due list, with the cursor, the completion flag and the rating count reset. The rated card is no longer in it. When the deck id is non-empty, the store is loaded and the rated card was due in the deck, the list is shorter than before |
| Review.ReviewSession.Message | src/app/review/page.tsx:118-121 | a message exists only once the session is completed, and it is the classification for the deck |
| Decks.FromPreloaded | src/app/decks/page.tsx:25 | an imported card carries the deck's id and name, the entry's front, back and image URLs, and is a valid new card |
| Decks.Imported | src/app/decks/page.tsx:18-28 | the import appends at most one card per entry; which cards, in which order and under which ids is `ImportedMatchesMissing` |
| Decks.ImportedMatchesMissing | src/app/decks/page.tsx:18-28 | the import appends one card per missing entry, in deck order, the k-th carrying fresh id k |
| Decks.ImportCoversDeck | src/app/decks/page.tsx:18-28 | after an import, every entry of the deck is present in the collection |
| Decks.ReimportAddsNothing | src/app/decks/page.tsx:18-41 | importing a deck right after importing it adds nothing |
| Decks.NothingMissingIff | src/app/decks/page.tsx:19-41 | an import adds nothing exactly when every entry is already present |
| Decks.DuplicateEntryAddedTwice | src/app/decks/page.tsx:19 | the existence check reads the collection from before the call, so a missing entry listed twice is added twice |
| Decks.Notice | src/app/decks/page.tsx:30-41 | the "already added" notice appears exactly when no card was added; otherwise the notice carries the count |
| Decks.HandleAddDeck | src/app/decks/page.tsx:16-42 | the new collection is the old one followed by the imported cards. `addedCount` is the number of missing entries, the notice comes from that count, and validity is kept |

## Left out

- Persistence: the `localStorage` reads and writes and the JSON (de)serialisation are left out; `Load` methods receive the parsed records, with `None` for missing or unparsable data.
- The save effects (src/hooks/useFlashcards.ts:38-42, src/hooks/useReviewStreak.ts:50-62) are not modelled, since they only write storage.
- Flashcards.FlashcardStore.Load: `new Date(...)` of stored date strings is taken to give valid timestamps. Invalid dates (NaN) are not modelled.
- Streaks.ReviewStreak.Load: an unparsable stored last date is not modelled. The code turns it into an Invalid Date, which skips the reset at load and makes the next session restart the streak at 1.
- Streaks.LoadedStreak: a stored streak that `parseInt` turns into NaN is not modelled. The stored streak is an integer or absent.
- Streaks.NextStreak: `streak >= 1` after a session is proved only from a non-negative streak, because the code keeps a negative stored streak on a same-day session.
- Time zones and daylight saving time are left out. A day is 86,400,000 ms of local time, and `Math.round` of a difference of midnights is the difference of day numbers. `new Date()` becomes the `now` parameter.
- Floating point is left out. The ease factor is exact in hundredths, which can differ from JavaScript at an exact .5 tie after float error has accumulated.
- Random card ids are left out. `Date.now()` plus `Math.random()` becomes a supplied id: a parameter of `AddFlashcard`, and `freshId(k)` for the k-th card of an import.
- Decks.HandleAddDeck: every card of one import gets the same `now`, whereas the code reads the clock once per card.
- Ordering.SortByName: `localeCompare` is replaced by code-point (Unicode scalar value) lexicographic order. This is neither the locale's collation nor JavaScript's UTF-16 code-unit order, which differs from it when a character above U+FFFF meets one in U+E000-U+FFFF.
- Flashcards.FlashcardStore.GetDecksWithDueCards, Flashcards.FlashcardStore.TallyDueCards, Flashcards.FlashcardStore.TallyRemainingDecks: the tally object `dueCardsByDeck` (src/hooks/useFlashcards.ts:128) is modelled as a plain map. In the code it is an object literal. A deck whose id names an inherited `Object.prototype` property (`constructor`, `__proto__`, ...) passes the `!dueCardsByDeck[...]` checks at lines 134 and 142 without getting an own entry, so `Object.entries` never lists it. The model lists it like any other deck.
- Flashcards.FlashcardStore.GetDecksWithDueCards: the order of entries with equal names is not stated. It follows `Object.entries` order, which lists integer-like keys first.
- Cards.Review, Cards.ReviewedNotDueToday, Cards.SaveLoadRoundTrip, Review.Earliest, Review.NextReviewMessage, Review.MessageDueIff: the range limit of an ECMAScript `Date` (±8.64e15 ms, `Dates.MaxTimeMs`) is not modelled. Timestamps here are unbounded integers. In the code, `setDate` at src/hooks/useFlashcards.ts:94-95 gives an Invalid Date once the next review passes that limit, and `Cards.SixteenthPerfectReviewLeavesDateRange` proves that the sixteenth perfect review of a new card does so. On such a card the code diverges from the model in three places:
  - the due filter (line 113) never selects it;
  - the save (line 40) writes `null`, which the load (line 23) turns into the epoch, so after a reload the card is due at once;
  - the message effect drops it before taking the minimum (src/app/review/page.tsx:124-127), and shows "could not determine" (lines 130-133) when no valid date is left.
- Cards.SaveLoadRoundTrip: holds only for next review times within the `Date` range; an out-of-range one comes back as the epoch (see the line above).
- Review.Earliest: the minimum is over all cards of the deck; the code first drops cards whose next review is an Invalid Date (see above).
- Review.MessageDueIff: a deck whose cards all have an Invalid Date next review gets "could not determine" in the code, not "tomorrow or later" (see above).
- Review.NextReviewMessage: the second "could not determine" branch (src/app/review/page.tsx:137-141) tests the minimum of valid timestamps for validity again and is not modelled; the first (lines 130-133) is the out-of-range case above.
- Review.NextReviewMessage: the message text and date formatting (`format`, `formatDistanceToNowStrict`) are left out. The model returns the classification and the earliest timestamp.
- React scheduling is left out. Effects and handlers are sequential method calls, and `CheckConsistency` is a method to call after each state change.
- Review.ReviewSession.RateAndRestart: the restart effect (src/app/review/page.tsx:85-93) is modelled as running right after the handler. The model does not capture how React orders it against the message effect (lines 118-164) within one commit, or how it batches their state updates. So whether the completion screen and its message survive the restart after the last card is not modelled.
- The review page's UI state (`isFlipped`, `isLoading`, `selectedDeck`, `availableDecks`, the delete dialog, toasts) is left out. So are its glue handlers `loadAvailableDecks`, `handleSelectDeck`, `handleReviewThisDeckAgain` (a "review all" `StartReviewSession`) and `confirmDeleteDeck`, which only call modelled operations besides setting UI state.
- `handleReviewAnotherDeck` (src/app/review/page.tsx:171-175) is left out. It clears the deck selection, the completion flag and the message without resetting the cursor, so after a completed session the page's state falls outside `ReviewSession.Valid()`. No rating can follow before the next deck selection, which re-runs the restart effect (lines 85-93) and so `StartReviewSession`.
- Rendering components, the AI image flow and AI generator page, the create page, the analytics page and the heatmap are not part of this model. The built-in deck data is not part of this model either.

## Unchecked review inputs

`updateFlashcardReview` (src/hooks/useFlashcards.ts:68-102) checks neither of its arguments. It maps over the cards, so an unknown card id leaves the collection unchanged (`Flashcards.ApplyReviewUnknownId`). It also applies any quality, including one outside 0..5. The model does the same: `UpdateFlashcardReview` takes any integer quality, and `Scheduler.Schedule` is defined for every one.

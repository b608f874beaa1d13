/**
 * The `Flashcard` record of the card store, how a card is created, how one
 * review rewrites its scheduling fields, and how a stored record is
 * normalised when the collection is loaded.
 */
module Cards {
  import opened Optional
  import opened Dates
  import opened Scheduler

  /** Deck given to a loaded card that has none. */
  const DefaultDeckId: string := "user-created"
  const DefaultDeckName: string := "My Custom Cards"

  /**
   * One flashcard. `easeFactor` is in hundredths; `nextReviewDate` and
   * `lastReviewDate` are timestamps in milliseconds.
   */
  datatype Card = Card(
    id: string,
    front: string,
    back: string,
    frontImageUrl: Option<string>,
    backImageUrl: Option<string>,
    deckId: string,
    deckName: string,
    interval: int,
    repetitions: int,
    easeFactor: int,
    nextReviewDate: int,
    lastReviewDate: Option<int>)

  /** The scheduling part of a card. */
  function StateOf(c: Card): SchedState {
    SchedState(c.repetitions, c.interval, c.easeFactor)
  }

  /** The card is due on day `today`: its next review falls on that day or earlier. */
  predicate IsDue(c: Card, today: int) {
    Day(c.nextReviewDate) <= today
  }

  /**
   * The data-model invariants of a card the store created and reviewed:
   * ease at least 1.3; a card never reviewed has the new-card state; a
   * reviewed one was reviewed at a midnight and is due `interval` (at
   * least one) days after it.
   */
  predicate ValidCard(c: Card) {
    && c.easeFactor >= MinEase
    && c.interval >= 0
    && c.repetitions >= 0
    && (c.lastReviewDate.None? ==> c.interval == 0 && c.repetitions == 0)
    && (c.lastReviewDate.Some? ==>
          && c.interval >= 1
          && c.lastReviewDate.value == Midnight(Day(c.lastReviewDate.value))
          && c.nextReviewDate == Midnight(Day(c.lastReviewDate.value) + c.interval))
  }

  /** The card `addFlashcard` creates at time `now` under the supplied fresh id. */
  function NewCard(id: string, front: string, back: string, deckId: string, deckName: string,
                   frontImageUrl: Option<string>, backImageUrl: Option<string>, now: int): (c: Card)
    ensures ValidCard(c) && IsDue(c, Day(now))
    ensures c.id == id && c.front == front && c.back == back
    ensures c.deckId == deckId && c.deckName == deckName
    ensures c.frontImageUrl == frontImageUrl && c.backImageUrl == backImageUrl
    ensures StateOf(c) == Fresh && c.nextReviewDate == now && c.lastReviewDate == None
  {
    Card(id, front, back, frontImageUrl, backImageUrl, deckId, deckName,
         0, 0, InitialEase, now, None)
  }

  /**
   * The card after one review with `quality` on day `today`: the SM-2 step
   * on its scheduling fields, reviewed at today's midnight and next due
   * `interval` days later. Everything else is kept.
   */
  function Review(c: Card, quality: int, today: int): (r: Card)
    ensures StateOf(r) == Schedule(StateOf(c), quality)
    ensures r.lastReviewDate == Some(Midnight(today))
    ensures r.nextReviewDate == Midnight(today + r.interval)
    ensures Day(r.nextReviewDate) == today + r.interval
    ensures r.interval >= 1 && r.easeFactor >= MinEase
    ensures r.id == c.id && r.front == c.front && r.back == c.back
    ensures r.frontImageUrl == c.frontImageUrl && r.backImageUrl == c.backImageUrl
    ensures r.deckId == c.deckId && r.deckName == c.deckName
  {
    var next := Schedule(StateOf(c), quality);
    c.(repetitions := next.repetitions, interval := next.interval, easeFactor := next.easeFactor,
       nextReviewDate := Midnight(today + next.interval), lastReviewDate := Some(Midnight(today)))
  }

  /** A review keeps a valid card valid, whatever the quality. */
  lemma ReviewKeepsValid(c: Card, quality: int, today: int)
    requires ValidCard(c)
    ensures ValidCard(Review(c, quality, today))
  {
  }

  /**
   * The timestamps of this model are unbounded, an ECMAScript `Date` is not:
   * the sixteenth perfect review of a new card, on any day from the epoch
   * on, sets a next review time beyond the largest `Date` value.
   */
  lemma SixteenthPerfectReviewLeavesDateRange(c: Card, today: int)
    requires StateOf(c) == Run(Fresh, seq(15, _ => 5)) && today >= 0
    ensures Review(c, 5, today).nextReviewDate > MaxTimeMs
  {
    SixteenPerfectReviews();
    assert seq(16, _ => 5)[..15] == seq(15, _ => 5);
    assert Review(c, 5, today).interval == 120864680;
  }

  /** A card just reviewed is not due again until at least the next day. */
  lemma ReviewedNotDueToday(c: Card, quality: int, today: int)
    ensures !IsDue(Review(c, quality, today), today)
    ensures IsDue(Review(c, quality, today), today + Review(c, quality, today).interval)
  {
  }

  // ---------------------------------------------------------------------
  // Loading

  /**
   * A record as it comes back from storage: the deck fields and the ease
   * factor may be missing (`None`) on records written by older versions.
   */
  datatype StoredCard = StoredCard(
    id: string,
    front: string,
    back: string,
    frontImageUrl: Option<string>,
    backImageUrl: Option<string>,
    deckId: Option<string>,
    deckName: Option<string>,
    interval: int,
    repetitions: int,
    easeFactor: Option<int>,
    nextReviewDate: int,
    lastReviewDate: Option<int>)

  /** A JavaScript `||` default for a string field: missing or empty gives `default`. */
  function StringOr(field: Option<string>, default: string): string {
    if field.None? || field.value == "" then default else field.value
  }

  /** The load-time normalisation of one stored record. */
  function Normalize(raw: StoredCard): (c: Card)
    ensures c.deckId != "" && c.deckName != "" && c.easeFactor != 0
    ensures raw.deckId.Some? && raw.deckId.value != "" ==> c.deckId == raw.deckId.value
    ensures raw.deckId.None? || raw.deckId.value == "" ==> c.deckId == DefaultDeckId
    ensures raw.deckName.Some? && raw.deckName.value != "" ==> c.deckName == raw.deckName.value
    ensures raw.deckName.None? || raw.deckName.value == "" ==> c.deckName == DefaultDeckName
    ensures raw.easeFactor.Some? && raw.easeFactor.value != 0 ==> c.easeFactor == raw.easeFactor.value
    ensures raw.easeFactor.None? || raw.easeFactor.value == 0 ==> c.easeFactor == InitialEase
    ensures c.id == raw.id && c.front == raw.front && c.back == raw.back
    ensures c.frontImageUrl == raw.frontImageUrl && c.backImageUrl == raw.backImageUrl
    ensures c.interval == raw.interval && c.repetitions == raw.repetitions
    ensures c.nextReviewDate == raw.nextReviewDate && c.lastReviewDate == raw.lastReviewDate
  {
    var ease := if raw.easeFactor.None? || raw.easeFactor.value == 0 then InitialEase
                else raw.easeFactor.value;
    Card(raw.id, raw.front, raw.back, raw.frontImageUrl, raw.backImageUrl,
         StringOr(raw.deckId, DefaultDeckId), StringOr(raw.deckName, DefaultDeckName),
         raw.interval, raw.repetitions, ease, raw.nextReviewDate, raw.lastReviewDate)
  }

  /** The record a card is saved as: every field present. */
  function ToStored(c: Card): StoredCard {
    StoredCard(c.id, c.front, c.back, c.frontImageUrl, c.backImageUrl,
               Some(c.deckId), Some(c.deckName), c.interval, c.repetitions,
               Some(c.easeFactor), c.nextReviewDate, c.lastReviewDate)
  }

  /** Saving and loading gives back every card the store can hold. */
  lemma SaveLoadRoundTrip(c: Card)
    requires c.deckId != "" && c.deckName != "" && c.easeFactor != 0
    ensures Normalize(ToStored(c)) == c
  {
  }

  /** Loading is stable: a loaded card saved and loaded again is unchanged. */
  lemma NormalizeIdempotent(raw: StoredCard)
    ensures Normalize(ToStored(Normalize(raw))) == Normalize(raw)
  {
    SaveLoadRoundTrip(Normalize(raw));
  }
}

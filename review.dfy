/**
 * The review page's session driver: choosing and ordering the cards of a
 * session, rating the current card, and the message about the deck's next
 * review once the session is over.
 */
module Review {
  import opened Optional
  import opened Dates
  import opened Seqs
  import opened Cards
  import opened Ordering
  import opened Flashcards
  import opened Streaks

  // ---------------------------------------------------------------------
  // The cursor of a session

  /** Where a session stands: the current card, whether it is over, how many ratings so far. */
  datatype Cursor = Cursor(index: int, completed: bool, reviewed: int)

  /** The cursor of a session that has just started. */
  const Start: Cursor := Cursor(0, false, 0)

  /**
   * A cursor over `n` cards that has a current card: its index is in range,
   * it counts one rating per card passed, and a finished session stays on
   * the last card.
   */
  predicate CursorValid(c: Cursor, n: int) {
    && 0 <= c.index
    && (n > 0 ==> c.index < n)
    && (n <= 0 ==> c.index == 0)
    && (!c.completed ==> c.reviewed == c.index)
    && (c.completed ==> n > 0 && c.index == n - 1 && c.reviewed >= n)
  }

  /**
   * One rating in a session of `n` cards: one more card reviewed, and the
   * cursor moves to the next card, or the session completes on the last one.
   */
  function Rate(c: Cursor, n: int): (r: Cursor)
    requires CursorValid(c, n) && n > 0
    ensures CursorValid(r, n)
    ensures r.reviewed == c.reviewed + 1
    ensures r.completed <==> c.completed || c.index == n - 1
    ensures c.index < n - 1 ==> r.index == c.index + 1
  {
    if c.index < n - 1 then Cursor(c.index + 1, c.completed, c.reviewed + 1)
    else Cursor(c.index, true, c.reviewed + 1)
  }

  /** The cursor after `k` ratings in a session of `n` cards. */
  function RateTimes(n: int, k: nat): (r: Cursor)
    requires n > 0
    ensures CursorValid(r, n)
  {
    if k == 0 then Start else Rate(RateTimes(n, k - 1), n)
  }

  /**
   * A session over `n` cards rates them in order, one per rating: after
   * `k < n` ratings it is on card `k` and not over; the `n`-th rating
   * completes it with `n` cards reviewed.
   */
  lemma {:induction false} SessionRunsThrough(n: int, k: nat)
    requires 0 < n && k <= n
    ensures k < n ==> RateTimes(n, k) == Cursor(k, false, k)
    ensures k == n ==> RateTimes(n, k) == Cursor(n - 1, true, n)
  {
    if k > 0 {
      SessionRunsThrough(n, k - 1);
    }
  }

  // ---------------------------------------------------------------------
  // Choosing the cards

  /**
   * The cards of a session on deck `deckId`, before sorting: every card of
   * the deck with `reviewAll`, otherwise the deck's due cards.
   */
  function SessionSelection(store: FlashcardStore, deckId: string, reviewAll: bool, now: int): (r: seq<Card>)
    reads store
    ensures reviewAll ==> forall c :: c in r <==> c in store.cards && c.deckId == deckId
    ensures !reviewAll ==> forall c :: c in r <==>
      store.loaded && c in store.cards && IsDue(c, Day(now)) && (deckId != "" ==> c.deckId == deckId)
  {
    if reviewAll then Filter(store.cards, OfDeck(deckId)) else store.GetDueFlashcards(Some(deckId), now)
  }

  /** A "review all" session holds every card of the deck, and only those. */
  lemma ReviewAllSelection(s: seq<Card>, deckId: string)
    ensures forall c :: c in SortByNext(Filter(s, OfDeck(deckId))) <==> c in s && c.deckId == deckId
  {
    SameMultiset(SortByNext(Filter(s, OfDeck(deckId))), Filter(s, OfDeck(deckId)));
  }

  // ---------------------------------------------------------------------
  // The next-review message

  /** How the message after a session describes the deck's earliest next review. */
  datatype NextReview =
    | NoCardsRemaining
    | LaterToday(earliest: int)
    | Overdue(earliest: int)
    | Tomorrow(earliest: int)
    | Later(earliest: int)

  /** The earliest next review time among `s`. */
  function Earliest(s: seq<Card>): (m: int)
    requires |s| > 0
    ensures exists c :: c in s && c.nextReviewDate == m
    ensures forall c :: c in s ==> m <= c.nextReviewDate
  {
    if |s| == 1 then s[0].nextReviewDate
    else
      var rest := Earliest(s[1..]);
      assert forall c :: c in s ==> c == s[0] || c in s[1..];
      if s[0].nextReviewDate <= rest then s[0].nextReviewDate else rest
  }

  /**
   * The message for deck `deckId` on day `today`: none left when the deck
   * has no cards; otherwise its earliest next review, classified in this
   * order as later today, overdue, tomorrow or later.
   */
  function NextReviewMessage(cards: seq<Card>, deckId: string, today: int): (r: NextReview)
    ensures r.NoCardsRemaining? <==> forall c :: c in cards ==> c.deckId != deckId
    ensures !r.NoCardsRemaining? ==>
      (exists c :: c in cards && c.deckId == deckId && c.nextReviewDate == r.earliest)
      && (forall c :: c in cards && c.deckId == deckId ==> r.earliest <= c.nextReviewDate)
    ensures r.LaterToday? ==> Day(r.earliest) == today
    ensures r.Overdue? ==> Day(r.earliest) < today
    ensures r.Tomorrow? ==> Day(r.earliest) == today + 1
    ensures r.Later? ==> Day(r.earliest) > today + 1
  {
    var inDeck := Filter(cards, OfDeck(deckId));
    if |inDeck| == 0 then
      NoCardsRemaining
    else
      var e := Earliest(inDeck);
      var d := Day(e);
      if d == today then LaterToday(e)
      else if d < today then Overdue(e)
      else if d == today + 1 then Tomorrow(e)
      else Later(e)
  }

  /**
   * The message points at today or the past exactly when some card of the
   * deck is due: after a session that left no card of the deck due, it
   * says tomorrow or later.
   */
  lemma MessageDueIff(cards: seq<Card>, deckId: string, today: int)
    ensures (NextReviewMessage(cards, deckId, today).LaterToday? || NextReviewMessage(cards, deckId, today).Overdue?)
      <==> exists c :: c in cards && c.deckId == deckId && IsDue(c, today)
    ensures (exists c :: c in cards && c.deckId == deckId) && (forall c :: c in cards && c.deckId == deckId ==> !IsDue(c, today))
      ==> NextReviewMessage(cards, deckId, today).Tomorrow? || NextReviewMessage(cards, deckId, today).Later?
  {
    var r := NextReviewMessage(cards, deckId, today);
    if exists c :: c in cards && c.deckId == deckId && IsDue(c, today) {
      var c :| c in cards && c.deckId == deckId && IsDue(c, today);
      DayMonotonic(r.earliest, c.nextReviewDate);
    }
    if r.LaterToday? || r.Overdue? {
      var c :| c in cards && c.deckId == deckId && c.nextReviewDate == r.earliest;
      assert IsDue(c, today);
    }
  }

  // ---------------------------------------------------------------------
  // The session

  class ReviewSession {
    var dueCards: seq<Card>
    var currentCardIndex: int
    var sessionCompleted: bool
    var cardsReviewedThisSession: int

    /** The session's cursor. */
    function CursorOf(): Cursor
      reads this
    {
      Cursor(currentCardIndex, sessionCompleted, cardsReviewedThisSession)
    }

    /** The cursor is valid for the session's cards. */
    predicate Valid()
      reads this
    {
      CursorValid(CursorOf(), |dueCards|)
    }

    /** The page before any session: no cards, cursor at the start. */
    constructor ()
      ensures dueCards == [] && CursorOf() == Start && Valid()
    {
      dueCards := [];
      currentCardIndex := 0;
      sessionCompleted := false;
      cardsReviewedThisSession := 0;
    }

    /**
     * `startReviewSession` on deck `deckId` at time `now`: the chosen cards
     * sorted ascending by next review time (stable), cursor at the start.
     */
    method StartReviewSession(store: FlashcardStore, deckId: string, reviewAll: bool, now: int)
      modifies this
      ensures dueCards == SortByNext(SessionSelection(store, deckId, reviewAll, now))
      ensures CursorOf() == Start && Valid()
      ensures !reviewAll ==> dueCards == store.GetDueFlashcards(Some(deckId), now)
      ensures reviewAll ==> forall c :: c in dueCards <==> c in store.cards && c.deckId == deckId
      ensures SortedByNext(dueCards)
    {
      var cardsToReview: seq<Card>;
      if reviewAll {
        cardsToReview := Filter(store.cards, OfDeck(deckId));
        ReviewAllSelection(store.cards, deckId);
      } else {
        cardsToReview := store.GetDueFlashcards(Some(deckId), now);
        SortSortedIdentity(cardsToReview);
      }
      dueCards := SortByNext(cardsToReview);
      currentCardIndex := 0;
      sessionCompleted := false;
      cardsReviewedThisSession := 0;
    }

    /**
     * `handleRateCard` with `quality` at time `now`: with a current card,
     * review it in the store, then rate the cursor; the streak is recorded
     * when this rating is on the last card. Without a current card nothing
     * happens.
     */
    method HandleRateCard(store: FlashcardStore, streak: ReviewStreak, quality: int, now: int)
      requires Valid()
      modifies this, store, streak
      ensures Valid() && dueCards == old(dueCards)
      ensures store.loaded == old(store.loaded) && streak.loaded == old(streak.loaded)
      ensures |dueCards| == 0 ==>
        CursorOf() == old(CursorOf()) && store.cards == old(store.cards)
        && streak.streak == old(streak.streak) && streak.lastReviewDate == old(streak.lastReviewDate)
      ensures |dueCards| > 0 ==> CursorOf() == Rate(old(CursorOf()), |dueCards|)
      ensures |dueCards| > 0 ==>
        store.cards == ApplyReview(old(store.cards), dueCards[old(currentCardIndex)].id, quality, Day(now))
      ensures |dueCards| > 0 && old(currentCardIndex) == |dueCards| - 1 && old(streak.loaded) ==>
        streak.streak == NextStreak(old(streak.streak), old(streak.lastReviewDate), Day(now))
        && streak.lastReviewDate == Some(Midnight(Day(now)))
      ensures !(|dueCards| > 0 && old(currentCardIndex) == |dueCards| - 1 && old(streak.loaded)) ==>
        streak.streak == old(streak.streak) && streak.lastReviewDate == old(streak.lastReviewDate)
    {
      if !(0 <= currentCardIndex < |dueCards|) {
        return;
      }
      var currentCard := dueCards[currentCardIndex];
      store.UpdateFlashcardReview(currentCard.id, quality, now);
      cardsReviewedThisSession := cardsReviewedThisSession + 1;
      if currentCardIndex < |dueCards| - 1 {
        currentCardIndex := currentCardIndex + 1;
      } else {
        sessionCompleted := true;
        if |dueCards| > 0 && streak.loaded {
          streak.RecordReviewSession(now);
        }
      }
    }

    /**
     * A rating as the page performs it on the session of deck `deckId`:
     * `handleRateCard`, then the effect that restarts the session whenever
     * the collection changes. The restart always chooses the due cards, so
     * the cursor, the completion flag and the rating count go back to the
     * start, and the new due list no longer holds the rated card; when that
     * card was due in the deck, the due list is shorter than before.
     */
    method RateAndRestart(store: FlashcardStore, streak: ReviewStreak, deckId: string, quality: int, now: int)
      requires Valid()
      modifies this, store, streak
      ensures Valid() && CursorOf() == Start
      ensures dueCards == store.GetDueFlashcards(Some(deckId), now)
      ensures store.loaded == old(store.loaded) && streak.loaded == old(streak.loaded)
      ensures old(|dueCards|) == 0 ==> store.cards == old(store.cards)
      ensures old(|dueCards|) > 0 ==>
        store.cards == ApplyReview(old(store.cards), old(dueCards)[old(currentCardIndex)].id, quality, Day(now))
      ensures old(|dueCards|) > 0 ==> forall c :: c in dueCards ==> c.id != old(dueCards)[old(currentCardIndex)].id
      ensures old(|dueCards|) > 0 && deckId != "" && store.loaded
        && (exists c :: c in old(store.cards) && c.id == old(dueCards)[old(currentCardIndex)].id
                        && IsDue(c, Day(now)) && c.deckId == deckId)
        ==> |dueCards| < |old(store.GetDueFlashcards(Some(deckId), now))|
      ensures old(|dueCards|) > 0 && old(currentCardIndex) == old(|dueCards|) - 1 && old(streak.loaded) ==>
        streak.streak == NextStreak(old(streak.streak), old(streak.lastReviewDate), Day(now))
        && streak.lastReviewDate == Some(Midnight(Day(now)))
      ensures !(old(|dueCards|) > 0 && old(currentCardIndex) == old(|dueCards|) - 1 && old(streak.loaded)) ==>
        streak.streak == old(streak.streak) && streak.lastReviewDate == old(streak.lastReviewDate)
    {
      ghost var before := store.cards;
      ghost var n := |dueCards|;
      ghost var rated := if n > 0 then dueCards[currentCardIndex].id else "";
      HandleRateCard(store, streak, quality, now);
      StartReviewSession(store, deckId, false, now);
      if n > 0 {
        ApplyReviewLeavesDue(before, rated, quality, Day(now), Some(deckId));
        if deckId != "" {
          ReviewShrinksDueCount(before, rated, quality, Day(now), deckId);
          DueCountIsDueCards(before, deckId, Day(now));
          DueCountIsDueCards(store.cards, deckId, Day(now));
        }
      }
    }

    /**
     * The next-review message for deck `deckId` at time `now`: present only
     * once the session is completed.
     */
    function Message(store: FlashcardStore, deckId: string, now: int): (r: Option<NextReview>)
      reads this, store
      ensures r.Some? <==> sessionCompleted
      ensures r.Some? ==> r.value == NextReviewMessage(store.cards, deckId, Day(now))
    {
      if sessionCompleted then Some(NextReviewMessage(store.cards, deckId, Day(now))) else None
    }
  }
}

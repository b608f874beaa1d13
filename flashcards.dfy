/**
 * The card store of `useFlashcards`: the collection of cards, whether it
 * has been loaded, and the operations on it (add, review, due cards, deck
 * summary, delete a card, delete a deck).
 */
module Flashcards {
  import opened Optional
  import opened Dates
  import opened Seqs
  import opened Scheduler
  import opened Cards
  import opened Ordering

  // ---------------------------------------------------------------------
  // Selections of cards

  /** Selects the cards of deck `deckId`. */
  function OfDeck(deckId: string): Card -> bool {
    (c: Card) => c.deckId == deckId
  }

  /** Selects the cards due on day `today`. */
  function DueOn(today: int): Card -> bool {
    (c: Card) => IsDue(c, today)
  }

  /** Selects the cards of deck `deckId` that are due on day `today`. */
  function DueInDeck(today: int, deckId: string): Card -> bool {
    (c: Card) => IsDue(c, today) && c.deckId == deckId
  }

  /** Selects the cards whose id is not `cardId`. */
  function NotId(cardId: string): Card -> bool {
    (c: Card) => c.id != cardId
  }

  /** Selects the cards outside deck `deckId`. */
  function NotDeck(deckId: string): Card -> bool {
    (c: Card) => c.deckId != deckId
  }

  /** The optional deck argument of `getDueFlashcards` restricts only when it is a non-empty id. */
  predicate Restricts(deckId: Option<string>) {
    deckId.Some? && deckId.value != ""
  }

  /** The cards `getDueFlashcards` selects, before sorting: due today, then in the deck if one is given. */
  function DueSelection(s: seq<Card>, deckId: Option<string>, today: int): (r: seq<Card>)
    ensures forall c :: c in r <==> c in s && IsDue(c, today) && (Restricts(deckId) ==> c.deckId == deckId.value)
  {
    var due := Filter(s, DueOn(today));
    if Restricts(deckId) then Filter(due, OfDeck(deckId.value)) else due
  }

  /**
   * `getDueFlashcards` on a loaded collection: exactly the due cards (of the
   * deck, if one is given), ascending by next review time, cards due at the
   * same time in collection order.
   */
  function DueCards(s: seq<Card>, deckId: Option<string>, today: int): (r: seq<Card>)
    ensures SortedByNext(r)
    ensures forall c :: c in r <==>
      c in s && IsDue(c, today) && (Restricts(deckId) ==> c.deckId == deckId.value)
    ensures multiset(r) == multiset(DueSelection(s, deckId, today))
    ensures forall t :: Filter(r, NextIs(t)) == Filter(DueSelection(s, deckId, today), NextIs(t))
  {
    var chosen := DueSelection(s, deckId, today);
    SortByNextStableAll(chosen);
    SameMultiset(SortByNext(chosen), chosen);
    SortByNext(chosen)
  }

  /** `SortByNextStable` for every time at once. */
  lemma SortByNextStableAll(s: seq<Card>)
    ensures forall t :: Filter(SortByNext(s), NextIs(t)) == Filter(s, NextIs(t))
  {
    forall t ensures Filter(SortByNext(s), NextIs(t)) == Filter(s, NextIs(t)) {
      SortByNextStable(s, t);
    }
  }

  /** The distinct deck ids of a collection. */
  function DeckIds(s: seq<Card>): set<string> {
    set c | c in s :: c.deckId
  }

  /** The number of due cards in deck `deckId`. */
  function DueCount(s: seq<Card>, deckId: string, today: int): nat {
    |Filter(s, DueInDeck(today, deckId))|
  }

  /**
   * The name under which a deck is listed: that of its first due card, or
   * of its first card when none is due.
   */
  function DeckName(s: seq<Card>, deckId: string, today: int): string {
    var due := Filter(s, DueInDeck(today, deckId));
    if |due| > 0 then due[0].deckName
    else
      var all := Filter(s, OfDeck(deckId));
      if |all| > 0 then all[0].deckName else ""
  }

  /** A deck id occurs in the collection exactly when the deck has a card. */
  lemma InDeckIds(s: seq<Card>, deckId: string)
    ensures deckId in DeckIds(s) <==> |Filter(s, OfDeck(deckId))| > 0
  {
    FilterNonEmpty(s, OfDeck(deckId));
    if deckId in DeckIds(s) {
      var c :| c in s && c.deckId == deckId;
      assert OfDeck(deckId)(c);
    }
  }

  /** A deck with a due card has a card. */
  lemma DueDeckHasCards(s: seq<Card>, deckId: string, today: int)
    requires DueCount(s, deckId, today) > 0
    ensures |Filter(s, OfDeck(deckId))| > 0
  {
    var c := Filter(s, DueInDeck(today, deckId))[0];
    assert c in Filter(s, DueInDeck(today, deckId));
    assert c in Filter(s, OfDeck(deckId));
  }

  /**
   * The per-deck due count is the length of that deck's due list: the
   * summary and the review session agree.
   */
  lemma DueCountIsDueCards(s: seq<Card>, deckId: string, today: int)
    requires deckId != ""
    ensures |DueCards(s, Some(deckId), today)| == DueCount(s, deckId, today)
  {
    var r := DueCards(s, Some(deckId), today);
    assert |r| == |multiset(r)|;
    FilterFilter(s, DueOn(today), OfDeck(deckId), DueInDeck(today, deckId));
  }

  /** A card created now is in today's due list of its deck. */
  lemma NewCardIsDue(s: seq<Card>, c: Card, now: int)
    requires c.nextReviewDate == now && c.deckId != ""
    ensures c in DueCards(s + [c], Some(c.deckId), Day(now))
  {
  }

  // ---------------------------------------------------------------------
  // Review, delete

  /**
   * `updateFlashcardReview` on the collection: every card with id `cardId`
   * reviewed, the rest and the order untouched.
   */
  function ApplyReview(s: seq<Card>, cardId: string, quality: int, today: int): (r: seq<Card>)
    ensures |r| == |s|
    ensures forall i :: 0 <= i < |s| ==> r[i].id == s[i].id
  {
    seq(|s|, i requires 0 <= i < |s| => if s[i].id == cardId then Review(s[i], quality, today) else s[i])
  }

  /** Reviewing keeps the length, the ids and every other card, in place. */
  lemma ApplyReviewFrame(s: seq<Card>, cardId: string, quality: int, today: int)
    ensures |ApplyReview(s, cardId, quality, today)| == |s|
    ensures forall i :: 0 <= i < |s| ==> ApplyReview(s, cardId, quality, today)[i].id == s[i].id
    ensures forall i :: 0 <= i < |s| && s[i].id != cardId ==> ApplyReview(s, cardId, quality, today)[i] == s[i]
    ensures forall i :: 0 <= i < |s| && s[i].id == cardId ==>
      ApplyReview(s, cardId, quality, today)[i] == Review(s[i], quality, today)
  {
  }

  /** Reviewing an id no card has changes nothing. */
  lemma ApplyReviewUnknownId(s: seq<Card>, cardId: string, quality: int, today: int)
    requires forall c :: c in s ==> c.id != cardId
    ensures ApplyReview(s, cardId, quality, today) == s
  {
    var r := ApplyReview(s, cardId, quality, today);
    forall i | 0 <= i < |s| ensures r[i] == s[i] {
      assert s[i] in s;
    }
  }

  /** The reviewed card leaves today's due list. */
  lemma ApplyReviewLeavesDue(s: seq<Card>, cardId: string, quality: int, today: int, deckId: Option<string>)
    ensures forall c :: c in DueCards(ApplyReview(s, cardId, quality, today), deckId, today) ==> c.id != cardId
  {
    var r := ApplyReview(s, cardId, quality, today);
    forall c | c in DueCards(r, deckId, today) ensures c.id != cardId {
      var i :| 0 <= i < |r| && r[i] == c;
      if s[i].id == cardId {
        ReviewedNotDueToday(s[i], quality, today);
      }
    }
  }

  /**
   * Reviewing never adds to a deck's due count, and removes at least one
   * when a card with the reviewed id was due in the deck.
   */
  lemma {:induction false} ReviewShrinksDueCount(s: seq<Card>, cardId: string, quality: int, today: int, deckId: string)
    ensures DueCount(ApplyReview(s, cardId, quality, today), deckId, today) <= DueCount(s, deckId, today)
    ensures (exists c :: c in s && c.id == cardId && IsDue(c, today) && c.deckId == deckId) ==>
      DueCount(ApplyReview(s, cardId, quality, today), deckId, today) < DueCount(s, deckId, today)
    decreases |s|
  {
    if |s| > 0 {
      var init := s[..|s| - 1];
      var x := s[|s| - 1];
      assert s == init + [x];
      var r := ApplyReview(s, cardId, quality, today);
      var y := r[|s| - 1];
      assert r == ApplyReview(init, cardId, quality, today) + [y];
      FilterSnoc(init, x, DueInDeck(today, deckId));
      FilterSnoc(ApplyReview(init, cardId, quality, today), y, DueInDeck(today, deckId));
      ReviewShrinksDueCount(init, cardId, quality, today, deckId);
      if x.id == cardId {
        ReviewedNotDueToday(x, quality, today);
      }
    }
  }

  /** All cards valid: the data-model invariants hold for the whole collection. */
  predicate AllValid(s: seq<Card>) {
    forall c :: c in s ==> ValidCard(c)
  }

  /** Reviewing keeps every card valid. */
  lemma ApplyReviewKeepsValid(s: seq<Card>, cardId: string, quality: int, today: int)
    requires AllValid(s)
    ensures AllValid(ApplyReview(s, cardId, quality, today))
  {
    var r := ApplyReview(s, cardId, quality, today);
    forall c | c in r ensures ValidCard(c) {
      var i :| 0 <= i < |r| && r[i] == c;
      assert s[i] in s;
      if s[i].id == cardId {
        ReviewKeepsValid(s[i], quality, today);
      }
    }
  }

  /** `deleteFlashcard`: keep the cards with another id, in order. */
  function RemoveCard(s: seq<Card>, cardId: string): (r: seq<Card>)
    ensures forall c :: c in r <==> c in s && c.id != cardId
  {
    Filter(s, NotId(cardId))
  }

  /** `deleteDeck`: keep the cards of other decks, in order. */
  function RemoveDeck(s: seq<Card>, deckId: string): (r: seq<Card>)
    ensures forall c :: c in r <==> c in s && c.deckId != deckId
  {
    Filter(s, NotDeck(deckId))
  }

  /** Deleting a card twice is deleting it once; deleting a missing id is a no-op. */
  lemma RemoveCardIdempotent(s: seq<Card>, cardId: string)
    ensures RemoveCard(RemoveCard(s, cardId), cardId) == RemoveCard(s, cardId)
    ensures (forall c :: c in s ==> c.id != cardId) ==> RemoveCard(s, cardId) == s
    ensures forall c :: c in RemoveCard(s, cardId) <==> c in s && c.id != cardId
  {
    FilterIdempotent(s, NotId(cardId));
    if forall c :: c in s ==> c.id != cardId {
      FilterAllKept(s, NotId(cardId));
    }
  }

  /** Deleting a deck twice is deleting it once; deleting a missing deck is a no-op. */
  lemma RemoveDeckIdempotent(s: seq<Card>, deckId: string)
    ensures RemoveDeck(RemoveDeck(s, deckId), deckId) == RemoveDeck(s, deckId)
    ensures deckId !in DeckIds(s) ==> RemoveDeck(s, deckId) == s
  {
    FilterIdempotent(s, NotDeck(deckId));
    if deckId !in DeckIds(s) {
      FilterAllKept(s, NotDeck(deckId));
    }
  }

  /** Deleting a deck removes it, and only it, from the deck list, with all its cards. */
  lemma RemoveDeckCascade(s: seq<Card>, deckId: string)
    ensures DeckIds(RemoveDeck(s, deckId)) == DeckIds(s) - {deckId}
    ensures forall c :: c in RemoveDeck(s, deckId) <==> c in s && c.deckId != deckId
  {
    var r := RemoveDeck(s, deckId);
    forall k ensures k in DeckIds(r) <==> k in DeckIds(s) - {deckId} {
      if k in DeckIds(s) - {deckId} {
        var c :| c in s && c.deckId == k;
        assert c in r;
      }
    }
  }

  /** Deleting keeps every remaining card valid. */
  lemma RemoveKeepsValid(s: seq<Card>, cardId: string, deckId: string)
    requires AllValid(s)
    ensures AllValid(RemoveCard(s, cardId)) && AllValid(RemoveDeck(s, deckId))
  {
  }

  /**
   * What the first pass knows of deck `k` after the cards `seen`: the deck
   * is tallied exactly when one of them is due, with their number and the
   * name of the first due one.
   */
  ghost predicate DueEntry(today: int, byDeck: map<string, Tally>, seen: seq<Card>, k: string) {
    && (k in byDeck <==> DueCount(seen, k, today) > 0)
    && (k in byDeck ==> byDeck[k].count == DueCount(seen, k, today) && byDeck[k].name == DeckName(seen, k, today))
  }

  /** The state of the first pass after the cards `seen`. */
  ghost predicate DueTally(today: int, byDeck: map<string, Tally>, order: seq<string>, seen: seq<Card>) {
    && Distinct(order) && Elements(order) == byDeck.Keys
    && (forall k :: DueEntry(today, byDeck, seen, k))
  }

  /** A step of the first pass over a card that is not due. */
  lemma DueTallySkip(today: int, byDeck: map<string, Tally>, order: seq<string>, seen: seq<Card>, c: Card)
    requires DueTally(today, byDeck, order, seen) && !IsDue(c, today)
    ensures DueTally(today, byDeck, order, seen + [c])
  {
    forall k ensures DueEntry(today, byDeck, seen + [c], k) {
      FilterSnoc(seen, c, DueInDeck(today, k));
      assert DueEntry(today, byDeck, seen, k);
    }
  }

  /** A step of the first pass over a due card of a deck already tallied. */
  lemma DueTallyKnown(today: int, byDeck: map<string, Tally>, order: seq<string>, seen: seq<Card>, c: Card)
    requires DueTally(today, byDeck, order, seen) && IsDue(c, today) && c.deckId in byDeck
    ensures DueTally(today, byDeck[c.deckId := byDeck[c.deckId].(count := byDeck[c.deckId].count + 1)],
                     order, seen + [c])
  {
    var byDeck' := byDeck[c.deckId := byDeck[c.deckId].(count := byDeck[c.deckId].count + 1)];
    forall k ensures DueEntry(today, byDeck', seen + [c], k) {
      FilterSnoc(seen, c, DueInDeck(today, k));
      assert DueEntry(today, byDeck, seen, k);
    }
  }

  /** A step of the first pass over the first due card of a deck. */
  lemma DueTallyNew(today: int, byDeck: map<string, Tally>, order: seq<string>, seen: seq<Card>, c: Card)
    requires DueTally(today, byDeck, order, seen) && IsDue(c, today) && c.deckId !in byDeck
    ensures DueTally(today, byDeck[c.deckId := Tally(c.deckName, 1)], order + [c.deckId], seen + [c])
  {
    var byDeck' := byDeck[c.deckId := Tally(c.deckName, 1)];
    forall k ensures DueEntry(today, byDeck', seen + [c], k) {
      FilterSnoc(seen, c, DueInDeck(today, k));
      assert DueEntry(today, byDeck, seen, k);
    }
    assert c.deckId !in Elements(order);
    assert Elements(order + [c.deckId]) == Elements(order) + {c.deckId};
  }

  /**
   * What the second pass knows of deck `k` after the cards `seen`: the deck
   * is tallied when it has a due card or a card among `seen`; with due cards
   * under the name of its first due card, otherwise under that of its first
   * card.
   */
  ghost predicate RestEntry(s: seq<Card>, today: int, byDeck: map<string, Tally>, seen: seq<Card>, k: string) {
    && (k in byDeck <==> DueCount(s, k, today) > 0 || |Filter(seen, OfDeck(k))| > 0)
    && (k in byDeck ==> byDeck[k].count == DueCount(s, k, today))
    && (k in byDeck && DueCount(s, k, today) > 0 ==> byDeck[k].name == DeckName(s, k, today))
    && (k in byDeck && DueCount(s, k, today) == 0 ==>
          |Filter(seen, OfDeck(k))| > 0 && byDeck[k].name == Filter(seen, OfDeck(k))[0].deckName)
  }

  /** The state of the second pass after the cards `seen`. */
  ghost predicate RestTally(s: seq<Card>, today: int, byDeck: map<string, Tally>, order: seq<string>,
                            seen: seq<Card>)
  {
    && Distinct(order) && Elements(order) == byDeck.Keys
    && (forall k :: RestEntry(s, today, byDeck, seen, k))
  }

  /** A step of the second pass over a card whose deck is already tallied. */
  lemma RestTallyKnown(s: seq<Card>, today: int, byDeck: map<string, Tally>, order: seq<string>,
                       seen: seq<Card>, c: Card)
    requires RestTally(s, today, byDeck, order, seen) && c.deckId in byDeck
    ensures RestTally(s, today, byDeck, order, seen + [c])
  {
    forall k ensures RestEntry(s, today, byDeck, seen + [c], k) {
      FilterSnoc(seen, c, OfDeck(k));
      assert RestEntry(s, today, byDeck, seen, k);
    }
  }

  /** A step of the second pass over the first card of a deck not yet tallied. */
  lemma RestTallyNew(s: seq<Card>, today: int, byDeck: map<string, Tally>, order: seq<string>,
                     seen: seq<Card>, c: Card)
    requires RestTally(s, today, byDeck, order, seen) && c.deckId !in byDeck
    ensures RestTally(s, today, byDeck[c.deckId := Tally(c.deckName, 0)], order + [c.deckId], seen + [c])
  {
    var byDeck' := byDeck[c.deckId := Tally(c.deckName, 0)];
    forall k ensures RestEntry(s, today, byDeck', seen + [c], k) {
      FilterSnoc(seen, c, OfDeck(k));
      assert RestEntry(s, today, byDeck, seen, k);
    }
    assert c.deckId !in Elements(order);
    assert Elements(order + [c.deckId]) == Elements(order) + {c.deckId};
  }

  /** At the end of the second pass every deck of `s`, and only those, is tallied correctly. */
  lemma RestTallyDone(s: seq<Card>, today: int, byDeck: map<string, Tally>, order: seq<string>)
    requires RestTally(s, today, byDeck, order, s)
    ensures Distinct(order) && Elements(order) == byDeck.Keys
    ensures byDeck.Keys == DeckIds(s)
    ensures forall k :: k in byDeck ==>
      byDeck[k].count == DueCount(s, k, today) && byDeck[k].name == DeckName(s, k, today)
  {
    forall k ensures k in byDeck <==> k in DeckIds(s) {
      assert RestEntry(s, today, byDeck, s, k);
      InDeckIds(s, k);
      if DueCount(s, k, today) > 0 {
        DueDeckHasCards(s, k, today);
      }
    }
    forall k | k in byDeck
      ensures byDeck[k].count == DueCount(s, k, today) && byDeck[k].name == DeckName(s, k, today)
    {
      assert RestEntry(s, today, byDeck, s, k);
    }
  }

  /** The finished tally: one entry per deck of `s`, in `order`, with its name and due count. */
  ghost predicate FinishedTally(s: seq<Card>, today: int, byDeck: map<string, Tally>, order: seq<string>,
                                entries: seq<DeckInfo>)
  {
    && Distinct(order) && Elements(order) == byDeck.Keys && byDeck.Keys == DeckIds(s)
    && (forall k :: k in byDeck ==>
         byDeck[k].count == DueCount(s, k, today) && byDeck[k].name == DeckName(s, k, today))
    && |entries| == |order|
    && (forall m :: 0 <= m < |order| ==>
         entries[m] == DeckInfo(order[m], byDeck[order[m]].name, byDeck[order[m]].count))
  }

  /** Each entry of the finished tally describes a deck of `s` correctly. */
  lemma TallyEntriesCorrect(s: seq<Card>, today: int, byDeck: map<string, Tally>, order: seq<string>,
                            entries: seq<DeckInfo>)
    requires FinishedTally(s, today, byDeck, order, entries)
    ensures forall e :: e in entries ==>
      e.id in DeckIds(s) && e.dueCardCount == DueCount(s, e.id, today) && e.name == DeckName(s, e.id, today)
  {
    forall e | e in entries
      ensures e.id in DeckIds(s) && e.dueCardCount == DueCount(s, e.id, today) && e.name == DeckName(s, e.id, today)
    {
      var m :| 0 <= m < |entries| && entries[m] == e;
      assert order[m] in Elements(order);
    }
  }

  /** Every deck of `s` has an entry in the finished tally, and only one. */
  lemma TallyEntriesCover(s: seq<Card>, today: int, byDeck: map<string, Tally>, order: seq<string>,
                          entries: seq<DeckInfo>)
    requires FinishedTally(s, today, byDeck, order, entries)
    ensures DeckIds(s) <= (set e | e in entries :: e.id)
    ensures |entries| == |DeckIds(s)|
  {
    DistinctCard(order);
    forall k | k in DeckIds(s)
      ensures k in (set e | e in entries :: e.id)
    {
      assert k in Elements(order);
      var m :| 0 <= m < |order| && order[m] == k;
      assert entries[m] in entries;
    }
  }

  /**
   * The finished tally sorted by name gives one correct entry per deck of
   * the collection.
   */
  lemma EntriesSorted(s: seq<Card>, today: int, byDeck: map<string, Tally>, order: seq<string>,
                      entries: seq<DeckInfo>, decks: seq<DeckInfo>)
    requires FinishedTally(s, today, byDeck, order, entries)
    requires multiset(decks) == multiset(entries)
    ensures (set e | e in decks :: e.id) == DeckIds(s)
    ensures |decks| == |DeckIds(s)|
    ensures forall e :: e in decks ==>
      e.dueCardCount == DueCount(s, e.id, today) && e.name == DeckName(s, e.id, today)
  {
    TallyEntriesCorrect(s, today, byDeck, order, entries);
    TallyEntriesCover(s, today, byDeck, order, entries);
    SameMultiset(decks, entries);
  }

  // ---------------------------------------------------------------------
  // The store

  /** Running tally of one deck while the deck list is built. */
  datatype Tally = Tally(name: string, count: nat)

  class FlashcardStore {
    var cards: seq<Card>
    var loaded: bool

    /** Every card satisfies the data-model invariants. */
    predicate Valid()
      reads this
    {
      AllValid(cards)
    }

    /** The store before its first load: empty. */
    constructor ()
      ensures cards == [] && !loaded
    {
      cards := [];
      loaded := false;
    }

    /**
     * The load at start-up: `stored` is the saved collection, or `None` when
     * there is none or it cannot be parsed, in which case the cards stay as
     * they were.
     */
    method Load(stored: Option<seq<StoredCard>>)
      modifies this
      ensures loaded
      ensures stored.None? ==> cards == old(cards)
      ensures stored.Some? ==> |cards| == |stored.value|
      ensures stored.Some? ==> forall i :: 0 <= i < |cards| ==> cards[i] == Normalize(stored.value[i])
    {
      if stored.Some? {
        var raw := stored.value;
        cards := seq(|raw|, i requires 0 <= i < |raw| => Normalize(raw[i]));
      }
      loaded := true;
    }

    /** `addFlashcard`: a new card, under the supplied fresh id, appended at the end. */
    method AddFlashcard(id: string, front: string, back: string, deckId: string, deckName: string,
                        frontImageUrl: Option<string>, backImageUrl: Option<string>, now: int)
      modifies this
      ensures cards == old(cards) + [NewCard(id, front, back, deckId, deckName, frontImageUrl, backImageUrl, now)]
      ensures loaded == old(loaded)
      ensures old(Valid()) ==> Valid()
    {
      cards := cards + [NewCard(id, front, back, deckId, deckName, frontImageUrl, backImageUrl, now)];
    }

    /** `updateFlashcardReview`: the SM-2 step on the card(s) with id `cardId`, reviewed at `now`. */
    method UpdateFlashcardReview(cardId: string, quality: int, now: int)
      modifies this
      ensures cards == ApplyReview(old(cards), cardId, quality, Day(now))
      ensures loaded == old(loaded)
      ensures old(Valid()) ==> Valid()
    {
      if Valid() {
        ApplyReviewKeepsValid(cards, cardId, quality, Day(now));
      }
      cards := ApplyReview(cards, cardId, quality, Day(now));
    }

    /** `getDueFlashcards(deckId?)` at time `now`; empty before the load. */
    function GetDueFlashcards(deckId: Option<string>, now: int): (r: seq<Card>)
      reads this
      ensures !loaded ==> r == []
      ensures loaded ==> r == DueCards(cards, deckId, Day(now))
      ensures loaded ==> SortedByNext(r)
      ensures forall c :: c in r <==>
        loaded && c in cards && IsDue(c, Day(now)) && (Restricts(deckId) ==> c.deckId == deckId.value)
    {
      if !loaded then [] else DueCards(cards, deckId, Day(now))
    }

    /**
     * `getDecksWithDueCards` at time `now`: one entry per deck of the
     * collection, with its number of due cards, sorted by name; empty
     * before the load.
     */
    method GetDecksWithDueCards(now: int) returns (decks: seq<DeckInfo>)
      ensures !loaded ==> decks == []
      ensures loaded ==> SortedByName(decks)
      ensures loaded ==> (set e | e in decks :: e.id) == DeckIds(cards)
      ensures loaded ==> |decks| == |DeckIds(cards)|
      ensures loaded ==> forall e :: e in decks ==>
        e.dueCardCount == DueCount(cards, e.id, Day(now)) && e.name == DeckName(cards, e.id, Day(now))
    {
      if !loaded {
        return [];
      }
      var today := Day(now);
      var byDeck, order := TallyDueCards(today);
      byDeck, order := TallyRemainingDecks(today, byDeck, order);
      var entries := seq(|order|, m requires 0 <= m < |order| =>
        assert order[m] in Elements(order);
        DeckInfo(order[m], byDeck[order[m]].name, byDeck[order[m]].count));
      decks := SortByName(entries);
      assert FinishedTally(cards, today, byDeck, order, entries);
      EntriesSorted(cards, today, byDeck, order, entries, decks);
    }

    /**
     * The first `forEach` of `getDecksWithDueCards`: a tally, per deck with
     * due cards, of their number and the name of the first one; `order`
     * lists the decks in the order they were first met.
     */
    method TallyDueCards(today: int) returns (byDeck: map<string, Tally>, order: seq<string>)
      ensures Distinct(order) && Elements(order) == byDeck.Keys
      ensures forall k :: k in byDeck <==> DueCount(cards, k, today) > 0
      ensures forall k :: k in byDeck ==>
        byDeck[k].count == DueCount(cards, k, today) && byDeck[k].name == DeckName(cards, k, today)
    {
      byDeck, order := map[], [];
      assert cards[..0] == [];
      var i := 0;
      while i < |cards|
        invariant 0 <= i <= |cards|
        invariant DueTally(today, byDeck, order, cards[..i])
      {
        var c := cards[i];
        assert cards[..i + 1] == cards[..i] + [c];
        if IsDue(c, today) {
          ghost var next: map<string, Tally>;
          if c.deckId !in byDeck {
            DueTallyNew(today, byDeck, order, cards[..i], c);
            next := byDeck[c.deckId := Tally(c.deckName, 1)];
            byDeck := byDeck[c.deckId := Tally(c.deckName, 0)];
            order := order + [c.deckId];
          } else {
            DueTallyKnown(today, byDeck, order, cards[..i], c);
            next := byDeck[c.deckId := byDeck[c.deckId].(count := byDeck[c.deckId].count + 1)];
          }
          byDeck := byDeck[c.deckId := byDeck[c.deckId].(count := byDeck[c.deckId].count + 1)];
          assert byDeck == next;
        } else {
          DueTallySkip(today, byDeck, order, cards[..i], c);
        }
        i := i + 1;
      }
      assert cards[..|cards|] == cards;
      forall k ensures k in byDeck ==>
        byDeck[k].count == DueCount(cards, k, today) && byDeck[k].name == DeckName(cards, k, today)
      {
        assert DueEntry(today, byDeck, cards, k);
      }
      forall k ensures k in byDeck <==> DueCount(cards, k, today) > 0 {
        assert DueEntry(today, byDeck, cards, k);
      }
    }

    /**
     * The second `forEach` of `getDecksWithDueCards`: every deck not yet
     * tallied enters with count 0 under the name of its first card.
     */
    method TallyRemainingDecks(today: int, byDeck0: map<string, Tally>, order0: seq<string>)
      returns (byDeck: map<string, Tally>, order: seq<string>)
      requires Distinct(order0) && Elements(order0) == byDeck0.Keys
      requires forall k :: k in byDeck0 <==> DueCount(cards, k, today) > 0
      requires forall k :: k in byDeck0 ==>
        byDeck0[k].count == DueCount(cards, k, today) && byDeck0[k].name == DeckName(cards, k, today)
      ensures Distinct(order) && Elements(order) == byDeck.Keys
      ensures byDeck.Keys == DeckIds(cards)
      ensures forall k :: k in byDeck ==>
        byDeck[k].count == DueCount(cards, k, today) && byDeck[k].name == DeckName(cards, k, today)
    {
      byDeck, order := byDeck0, order0;
      assert cards[..0] == [];
      var j := 0;
      while j < |cards|
        invariant 0 <= j <= |cards|
        invariant RestTally(cards, today, byDeck, order, cards[..j])
      {
        var c := cards[j];
        assert cards[..j + 1] == cards[..j] + [c];
        if c.deckId in byDeck {
          RestTallyKnown(cards, today, byDeck, order, cards[..j], c);
        } else {
          RestTallyNew(cards, today, byDeck, order, cards[..j], c);
          byDeck := byDeck[c.deckId := Tally(c.deckName, 0)];
          order := order + [c.deckId];
        }
        j := j + 1;
      }
      assert cards[..|cards|] == cards;
      RestTallyDone(cards, today, byDeck, order);
    }

    /** `deleteFlashcard`: drop every card with id `cardId`. */
    method DeleteFlashcard(cardId: string)
      modifies this
      ensures cards == RemoveCard(old(cards), cardId)
      ensures loaded == old(loaded)
      ensures old(Valid()) ==> Valid()
    {
      cards := RemoveCard(cards, cardId);
    }

    /** `deleteDeck`: drop every card of deck `deckId`. */
    method DeleteDeck(deckId: string)
      modifies this
      ensures cards == RemoveDeck(old(cards), deckId)
      ensures loaded == old(loaded)
      ensures old(Valid()) ==> Valid()
    {
      cards := RemoveDeck(cards, deckId);
    }
  }
}

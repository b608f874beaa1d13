/**
 * The preloaded-decks page: adding a built-in deck to the collection,
 * card by card, skipping the cards the collection already has.
 */
module Decks {
  import opened Optional
  import opened Dates
  import opened Seqs
  import opened Cards
  import opened Flashcards

  /** One card of a built-in deck. */
  datatype PreloadedCard = PreloadedCard(
    front: string,
    back: string,
    frontImageUrl: Option<string>,
    backImageUrl: Option<string>)

  /** A built-in deck. */
  datatype PreloadedDeck = PreloadedDeck(
    id: string,
    name: string,
    description: string,
    category: string,
    cards: seq<PreloadedCard>)

  /** The notice shown after an import: how many cards were added, or that there was nothing to add. */
  datatype ImportNotice = DeckAdded(count: nat) | DeckAlreadyAdded

  /** The collection already has a card of deck `deckId` with the front and back of `p`. */
  predicate AlreadyPresent(existing: seq<Card>, deckId: string, p: PreloadedCard) {
    exists c :: c in existing && c.deckId == deckId && c.front == p.front && c.back == p.back
  }

  /** Selects the built-in cards of deck `deckId` that `existing` lacks. */
  function NotPresent(existing: seq<Card>, deckId: string): PreloadedCard -> bool {
    (p: PreloadedCard) => !AlreadyPresent(existing, deckId, p)
  }

  /** The entries of a deck that an import adds, in deck order. */
  function Missing(existing: seq<Card>, deckId: string, entries: seq<PreloadedCard>): seq<PreloadedCard> {
    Filter(entries, NotPresent(existing, deckId))
  }

  /** The card an import creates for entry `p`, under deck `deckId` named `deckName`. */
  function FromPreloaded(p: PreloadedCard, deckId: string, deckName: string, id: string, now: int): (c: Card)
    ensures c.deckId == deckId && c.deckName == deckName
    ensures c.front == p.front && c.back == p.back
    ensures c.frontImageUrl == p.frontImageUrl && c.backImageUrl == p.backImageUrl
    ensures ValidCard(c) && IsDue(c, Day(now))
  {
    NewCard(id, p.front, p.back, deckId, deckName, p.frontImageUrl, p.backImageUrl, now)
  }

  /**
   * The cards an import of `entries` appends to `existing`: one new card per
   * entry not present in `existing`, in deck order, the `k`-th under the
   * fresh id `freshId(k)`.
   */
  function Imported(existing: seq<Card>, deckId: string, deckName: string, entries: seq<PreloadedCard>,
                    freshId: nat -> string, now: int): (r: seq<Card>)
    ensures |r| <= |entries|
  {
    if |entries| == 0 then []
    else
      var init := entries[..|entries| - 1];
      var p := entries[|entries| - 1];
      var prev := Imported(existing, deckId, deckName, init, freshId, now);
      if AlreadyPresent(existing, deckId, p) then prev
      else prev + [FromPreloaded(p, deckId, deckName, freshId(|prev|), now)]
  }

  /** Importing the entries up to `i` appends at most the card of entry `i` to the import up to `i - 1`. */
  lemma ImportStep(existing: seq<Card>, deck: PreloadedDeck, i: nat, freshId: nat -> string, now: int)
    requires i < |deck.cards|
    ensures Imported(existing, deck.id, deck.name, deck.cards[..i + 1], freshId, now)
      == Imported(existing, deck.id, deck.name, deck.cards[..i], freshId, now) +
         (if AlreadyPresent(existing, deck.id, deck.cards[i]) then []
          else [FromPreloaded(deck.cards[i], deck.id, deck.name,
                  freshId(|Imported(existing, deck.id, deck.name, deck.cards[..i], freshId, now)|), now)])
  {
    assert deck.cards[..i + 1][..i] == deck.cards[..i];
  }

  /** An import creates one card per missing entry: the `k`-th from the `k`-th missing entry. */
  lemma {:induction false} ImportedMatchesMissing(existing: seq<Card>, deckId: string, deckName: string,
                                                  entries: seq<PreloadedCard>, freshId: nat -> string, now: int)
    ensures |Imported(existing, deckId, deckName, entries, freshId, now)| == |Missing(existing, deckId, entries)|
    ensures forall k :: 0 <= k < |Imported(existing, deckId, deckName, entries, freshId, now)| ==>
      Imported(existing, deckId, deckName, entries, freshId, now)[k]
        == FromPreloaded(Missing(existing, deckId, entries)[k], deckId, deckName, freshId(k), now)
    decreases |entries|
  {
    if |entries| > 0 {
      var init := entries[..|entries| - 1];
      var p := entries[|entries| - 1];
      assert entries == init + [p];
      FilterSnoc(init, p, NotPresent(existing, deckId));
      ImportedMatchesMissing(existing, deckId, deckName, init, freshId, now);
    }
  }

  /** After an import every entry of the deck is present: importing it again adds nothing. */
  lemma {:induction false} ImportCoversDeck(existing: seq<Card>, deckId: string, deckName: string,
                                            entries: seq<PreloadedCard>, freshId: nat -> string, now: int)
    ensures forall p :: p in entries ==>
      AlreadyPresent(existing + Imported(existing, deckId, deckName, entries, freshId, now), deckId, p)
    decreases |entries|
  {
    if |entries| > 0 {
      var init := entries[..|entries| - 1];
      var p := entries[|entries| - 1];
      assert entries == init + [p];
      ImportCoversDeck(existing, deckId, deckName, init, freshId, now);
      var prev := Imported(existing, deckId, deckName, init, freshId, now);
      var all := Imported(existing, deckId, deckName, entries, freshId, now);
      assert existing + prev <= existing + all;
      forall q | q in entries ensures AlreadyPresent(existing + all, deckId, q) {
        if q in init {
          var c :| c in existing + prev && c.deckId == deckId && c.front == q.front && c.back == q.back;
          assert c in existing + all;
        } else {
          assert q == p;
          if AlreadyPresent(existing, deckId, p) {
            var c :| c in existing && c.deckId == deckId && c.front == p.front && c.back == p.back;
            assert c in existing + all;
          } else {
            var c := FromPreloaded(p, deckId, deckName, freshId(|prev|), now);
            assert all == prev + [c];
            assert c in existing + all;
          }
        }
      }
    }
  }

  /** Re-importing a deck right after importing it adds no card. */
  lemma ReimportAddsNothing(existing: seq<Card>, deck: PreloadedDeck, freshId: nat -> string,
                            freshId2: nat -> string, now: int, now2: int)
    ensures Imported(existing + Imported(existing, deck.id, deck.name, deck.cards, freshId, now),
                     deck.id, deck.name, deck.cards, freshId2, now2) == []
  {
    var after := existing + Imported(existing, deck.id, deck.name, deck.cards, freshId, now);
    ImportCoversDeck(existing, deck.id, deck.name, deck.cards, freshId, now);
    ImportedMatchesMissing(after, deck.id, deck.name, deck.cards, freshId2, now2);
    FilterNoneKept(deck.cards, NotPresent(after, deck.id));
  }

  /** An import adds nothing exactly when every entry of the deck is already present. */
  lemma NothingMissingIff(existing: seq<Card>, deck: PreloadedDeck, freshId: nat -> string, now: int)
    ensures Imported(existing, deck.id, deck.name, deck.cards, freshId, now) == []
      <==> forall p :: p in deck.cards ==> AlreadyPresent(existing, deck.id, p)
  {
    ImportedMatchesMissing(existing, deck.id, deck.name, deck.cards, freshId, now);
    FilterNonEmpty(deck.cards, NotPresent(existing, deck.id));
  }

  /**
   * The existence check reads the collection from before the import: a
   * missing entry listed twice in a deck is added twice.
   */
  lemma DuplicateEntryAddedTwice(existing: seq<Card>, deckId: string, deckName: string, p: PreloadedCard,
                                 freshId: nat -> string, now: int)
    requires !AlreadyPresent(existing, deckId, p)
    ensures |Imported(existing, deckId, deckName, [p, p], freshId, now)| == 2
  {
    ImportedMatchesMissing(existing, deckId, deckName, [p, p], freshId, now);
    FilterSnoc([p], p, NotPresent(existing, deckId));
    FilterSingleton(p, NotPresent(existing, deckId));
    assert [p] + [p] == [p, p];
  }

  /** The notice for an import that added `addedCount` cards. */
  function Notice(addedCount: nat): (n: ImportNotice)
    ensures n.DeckAlreadyAdded? <==> addedCount == 0
    ensures n.DeckAdded? ==> n.count == addedCount
  {
    if addedCount > 0 then DeckAdded(addedCount) else DeckAlreadyAdded
  }

  /**
   * `handleAddDeck` at time `now`: every entry of `deck` that the collection
   * lacked before the call is added, in deck order, under the fresh ids
   * `freshId(0)`, `freshId(1)`, ...; `addedCount` is the number added.
   */
  method HandleAddDeck(store: FlashcardStore, deck: PreloadedDeck, freshId: nat -> string, now: int)
    returns (addedCount: nat, notice: ImportNotice)
    modifies store
    ensures store.cards == old(store.cards) + Imported(old(store.cards), deck.id, deck.name, deck.cards, freshId, now)
    ensures addedCount == |Missing(old(store.cards), deck.id, deck.cards)|
    ensures notice == Notice(addedCount)
    ensures store.loaded == old(store.loaded)
    ensures old(store.Valid()) ==> store.Valid()
  {
    var flashcards := store.cards;
    addedCount := 0;
    ghost var added: seq<Card> := [];
    var i := 0;
    while i < |deck.cards|
      invariant 0 <= i <= |deck.cards|
      invariant added == Imported(flashcards, deck.id, deck.name, deck.cards[..i], freshId, now)
      invariant addedCount == |added|
      invariant store.cards == flashcards + added
      invariant store.loaded == old(store.loaded)
      invariant old(store.Valid()) ==> store.Valid()
    {
      var card := deck.cards[i];
      ImportStep(flashcards, deck, i, freshId, now);
      var cardExists := AlreadyPresent(flashcards, deck.id, card);
      if !cardExists {
        store.AddFlashcard(freshId(addedCount), card.front, card.back, deck.id, deck.name,
                           card.frontImageUrl, card.backImageUrl, now);
        added := added + [FromPreloaded(card, deck.id, deck.name, freshId(addedCount), now)];
        addedCount := addedCount + 1;
      }
      i := i + 1;
    }
    assert deck.cards[..|deck.cards|] == deck.cards;
    ImportedMatchesMissing(flashcards, deck.id, deck.name, deck.cards, freshId, now);
    notice := Notice(addedCount);
  }
}

/**
 * The two sorts of the card store: cards ascending by next review time,
 * and deck summaries by name. Both are stable, as `Array.prototype.sort`
 * is: elements that compare equal keep their relative order.
 */
module Ordering {
  import opened Seqs
  import opened Cards

  // ---------------------------------------------------------------------
  // Cards by next review time

  /** Ascending by `nextReviewDate`. */
  predicate SortedByNext(s: seq<Card>) {
    forall i, j :: 0 <= i < j < |s| ==> s[i].nextReviewDate <= s[j].nextReviewDate
  }

  /** Selects the cards due at exactly time `t`. */
  function NextIs(t: int): Card -> bool {
    (c: Card) => c.nextReviewDate == t
  }

  /** Insert `c` before the first card that is not due earlier than it. */
  function InsertByNext(c: Card, s: seq<Card>): (r: seq<Card>)
    ensures multiset(r) == multiset(s) + multiset{c}
  {
    if |s| == 0 then [c]
    else if c.nextReviewDate <= s[0].nextReviewDate then [c] + s
    else
      assert s == [s[0]] + s[1..];
      [s[0]] + InsertByNext(c, s[1..])
  }

  /** A card due no later than every card of a sorted sequence can go in front of it. */
  lemma ConsSortedByNext(h: Card, s: seq<Card>)
    requires SortedByNext(s)
    requires forall x :: x in s ==> h.nextReviewDate <= x.nextReviewDate
    ensures SortedByNext([h] + s)
  {
    forall i, j | 0 <= i < j < |s| + 1
      ensures ([h] + s)[i].nextReviewDate <= ([h] + s)[j].nextReviewDate
    {
      assert ([h] + s)[j] == s[j - 1];
      if i > 0 {
        assert ([h] + s)[i] == s[i - 1];
      } else {
        assert s[j - 1] in s;
      }
    }
  }

  /** Insertion keeps a sequence sorted. */
  lemma {:induction false} InsertByNextSorted(c: Card, s: seq<Card>)
    requires SortedByNext(s)
    ensures SortedByNext(InsertByNext(c, s))
    decreases |s|
  {
    if |s| == 0 {
    } else if c.nextReviewDate <= s[0].nextReviewDate {
      ConsSortedByNext(c, s);
    } else {
      var h, tail := s[0], s[1..];
      assert s == [h] + tail;
      assert SortedByNext(tail);
      InsertByNextSorted(c, tail);
      var rest := InsertByNext(c, tail);
      forall x | x in rest ensures h.nextReviewDate <= x.nextReviewDate {
        assert x in multiset(rest);
        if x != c {
          assert x in multiset(tail);
          var k :| 0 <= k < |tail| && tail[k] == x;
          assert s[k + 1] == x;
        }
      }
      ConsSortedByNext(h, rest);
    }
  }

  /** Stable insertion sort by `nextReviewDate`. */
  function SortByNext(s: seq<Card>): (r: seq<Card>)
    ensures SortedByNext(r)
    ensures multiset(r) == multiset(s)
  {
    if |s| == 0 then []
    else
      assert s == [s[0]] + s[1..];
      InsertByNextSorted(s[0], SortByNext(s[1..]));
      InsertByNext(s[0], SortByNext(s[1..]))
  }

  /**
   * Moving `c` behind a card `head` with another time keeps, for every
   * time, the order of the cards due then.
   */
  lemma SwapStable(c: Card, head: Card, tail: seq<Card>, rest: seq<Card>, t: int)
    requires c.nextReviewDate != head.nextReviewDate
    requires Filter(rest, NextIs(t)) == Filter([c] + tail, NextIs(t))
    ensures Filter([head] + rest, NextIs(t)) == Filter([c] + ([head] + tail), NextIs(t))
  {
    var p := NextIs(t);
    var fc, fh, ft := Filter([c], p), Filter([head], p), Filter(tail, p);
    FilterSingleton(c, p);
    FilterSingleton(head, p);
    assert fc == [] || fh == [] by {
      assert p(c) == (c.nextReviewDate == t) && p(head) == (head.nextReviewDate == t);
    }
    FilterConcat([head], rest, p);
    FilterConcat([c], tail, p);
    FilterConcat([head], tail, p);
    FilterConcat([c], [head] + tail, p);
    assert fh + (fc + ft) == fc + (fh + ft) by {
      if fc == [] {
        assert fc + ft == ft && fc + (fh + ft) == fh + ft;
      } else {
        assert fh + (fc + ft) == fc + ft && fh + ft == ft;
      }
    }
  }

  /** Inserting an element in front of the cards with a later key keeps each key's order. */
  lemma {:induction false} InsertByNextStable(c: Card, s: seq<Card>, t: int)
    ensures Filter(InsertByNext(c, s), NextIs(t)) == Filter([c] + s, NextIs(t))
    decreases |s|
  {
    if |s| > 0 && c.nextReviewDate > s[0].nextReviewDate {
      var head, tail := s[0], s[1..];
      assert s == [head] + tail;
      InsertByNextStable(c, tail, t);
      SwapStable(c, head, tail, InsertByNext(c, tail), t);
    }
  }

  /**
   * The sort is stable: for every time `t`, the cards due at `t` come out in
   * the order they went in.
   */
  lemma {:induction false} SortByNextStable(s: seq<Card>, t: int)
    ensures Filter(SortByNext(s), NextIs(t)) == Filter(s, NextIs(t))
    decreases |s|
  {
    if |s| > 0 {
      assert s == [s[0]] + s[1..];
      SortByNextStable(s[1..], t);
      InsertByNextStable(s[0], SortByNext(s[1..]), t);
      FilterConcat([s[0]], SortByNext(s[1..]), NextIs(t));
      FilterConcat([s[0]], s[1..], NextIs(t));
    }
  }

  /** Sorting cards that are already in order changes nothing. */
  lemma {:induction false} SortSortedIdentity(s: seq<Card>)
    requires SortedByNext(s)
    ensures SortByNext(s) == s
    decreases |s|
  {
    if |s| > 0 {
      var h, tail := s[0], s[1..];
      assert s == [h] + tail;
      assert SortedByNext(tail);
      SortSortedIdentity(tail);
      assert SortByNext(s) == InsertByNext(h, tail);
      if |tail| > 0 {
        assert h.nextReviewDate <= tail[0].nextReviewDate by {
          assert s[1] == tail[0];
        }
      }
    }
  }

  /** Sorting twice is sorting once. */
  lemma SortIdempotent(s: seq<Card>)
    ensures SortByNext(SortByNext(s)) == SortByNext(s)
  {
    SortSortedIdentity(SortByNext(s));
  }

  // ---------------------------------------------------------------------
  // Deck summaries by name

  /** A deck in the deck list: its id, its display name and how many of its cards are due. */
  datatype DeckInfo = DeckInfo(id: string, name: string, dueCardCount: nat)

  /** Lexicographic order on strings by code point (Unicode scalar value). */
  predicate StrLe(a: string, b: string) {
    |a| == 0 || (|b| > 0 && (a[0] < b[0] || (a[0] == b[0] && StrLe(a[1..], b[1..]))))
  }

  /** Any two names are comparable. */
  lemma {:induction false} StrLeTotal(a: string, b: string)
    ensures StrLe(a, b) || StrLe(b, a)
    decreases |a|
  {
    if |a| > 0 && |b| > 0 && a[0] == b[0] {
      StrLeTotal(a[1..], b[1..]);
    }
  }

  /** The name order is transitive. */
  lemma {:induction false} StrLeTransitive(a: string, b: string, c: string)
    requires StrLe(a, b) && StrLe(b, c)
    ensures StrLe(a, c)
    decreases |a|
  {
    if |a| > 0 && a[0] == b[0] && b[0] == c[0] {
      StrLeTransitive(a[1..], b[1..], c[1..]);
    }
  }

  /** Ascending by name. */
  predicate SortedByName(s: seq<DeckInfo>) {
    forall i, j :: 0 <= i < j < |s| ==> StrLe(s[i].name, s[j].name)
  }

  /** Insert `d` before the first deck whose name is not smaller. */
  function InsertByName(d: DeckInfo, s: seq<DeckInfo>): (r: seq<DeckInfo>)
    ensures multiset(r) == multiset(s) + multiset{d}
  {
    if |s| == 0 then [d]
    else if StrLe(d.name, s[0].name) then [d] + s
    else
      assert s == [s[0]] + s[1..];
      [s[0]] + InsertByName(d, s[1..])
  }

  /** A deck whose name is not above any name of a sorted sequence can go in front of it. */
  lemma ConsSortedByName(h: DeckInfo, s: seq<DeckInfo>)
    requires SortedByName(s)
    requires forall x :: x in s ==> StrLe(h.name, x.name)
    ensures SortedByName([h] + s)
  {
    forall i, j | 0 <= i < j < |s| + 1
      ensures StrLe(([h] + s)[i].name, ([h] + s)[j].name)
    {
      assert ([h] + s)[j] == s[j - 1];
      if i > 0 {
        assert ([h] + s)[i] == s[i - 1];
      } else {
        assert s[j - 1] in s;
      }
    }
  }

  /** Insertion keeps a deck list sorted by name. */
  lemma {:induction false} InsertByNameSorted(d: DeckInfo, s: seq<DeckInfo>)
    requires SortedByName(s)
    ensures SortedByName(InsertByName(d, s))
    decreases |s|
  {
    if |s| == 0 {
    } else if StrLe(d.name, s[0].name) {
      forall x | x in s ensures StrLe(d.name, x.name) {
        var k :| 0 <= k < |s| && s[k] == x;
        if k > 0 {
          StrLeTransitive(d.name, s[0].name, x.name);
        }
      }
      ConsSortedByName(d, s);
    } else {
      StrLeTotal(d.name, s[0].name);
      var h, tail := s[0], s[1..];
      assert s == [h] + tail;
      assert SortedByName(tail);
      InsertByNameSorted(d, tail);
      var rest := InsertByName(d, tail);
      forall x | x in rest ensures StrLe(h.name, x.name) {
        assert x in multiset(rest);
        if x != d {
          assert x in multiset(tail);
          var k :| 0 <= k < |tail| && tail[k] == x;
          assert s[k + 1] == x;
        }
      }
      ConsSortedByName(h, rest);
    }
  }

  /** Stable insertion sort by name. */
  function SortByName(s: seq<DeckInfo>): (r: seq<DeckInfo>)
    ensures SortedByName(r)
    ensures multiset(r) == multiset(s)
  {
    if |s| == 0 then []
    else
      assert s == [s[0]] + s[1..];
      InsertByNameSorted(s[0], SortByName(s[1..]));
      InsertByName(s[0], SortByName(s[1..]))
  }
}

/**
 * The SM-2 step of `updateFlashcardReview`: from a card's repetition count,
 * interval and ease factor and a recall quality, the next three values.
 *
 * The ease factor is kept in integer hundredths (2.5 is 250). Every quality
 * changes it by a whole number of hundredths, so the arithmetic is exact.
 */
module Scheduler {

  /** Ease factor of a new card, 2.5. */
  const InitialEase: int := 250
  /** Lower bound of the ease factor, 1.3. */
  const MinEase: int := 130
  /** Qualities below this are failures. */
  const PassingQuality: int := 3

  /** The scheduling part of a card. */
  datatype SchedState = SchedState(repetitions: int, interval: int, easeFactor: int)

  /** The state of a card that has never been reviewed. */
  const Fresh: SchedState := SchedState(0, 0, InitialEase)

  function Max(a: int, b: int): int {
    if a < b then b else a
  }

  /**
   * The SM-2 ease change for a quality, in hundredths:
   * 0.1 - (5 - q) * (0.08 + (5 - q) * 0.02).
   */
  function EaseDelta(quality: int): (r: int)
    ensures quality <= 5 ==> r <= 10 && (r > 0 <==> quality == 5)
  {
    var miss := 5 - quality;
    10 - miss * (8 + miss * 2)
  }

  /** `Math.round(x / 100)`: the nearest integer, halves rounded up. */
  function RoundHundredths(x: int): (r: int)
    ensures 100 * r - 50 <= x < 100 * r + 50
  {
    (x + 50) / 100
  }

  /** One review of a card in state `s` with recall quality `quality`. */
  function Schedule(s: SchedState, quality: int): (r: SchedState)
    ensures r.interval >= 1
    ensures r.easeFactor >= MinEase
  {
    var repetitions := if quality < PassingQuality then 0 else s.repetitions + 1;
    var interval :=
      if quality < PassingQuality then 1
      else if repetitions == 1 then 1
      else if repetitions == 2 then 6
      else Max(1, RoundHundredths(s.interval * s.easeFactor));
    SchedState(repetitions, interval, Max(MinEase, s.easeFactor + EaseDelta(quality)))
  }

  /** The ease changes of the six qualities of the rating scale. */
  lemma EaseDeltaTable()
    ensures EaseDelta(5) == 10 && EaseDelta(4) == 0 && EaseDelta(3) == -14
    ensures EaseDelta(2) == -32 && EaseDelta(1) == -54 && EaseDelta(0) == -80
  {
  }

  /** On the rating scale a better quality never lowers the ease more. */
  lemma EaseDeltaMonotonic(q1: int, q2: int)
    requires 0 <= q1 <= q2 <= 5
    ensures EaseDelta(q1) <= EaseDelta(q2)
  {
    EaseDeltaTable();
  }

  /** A failed review restarts the card: no repetitions, one day. */
  lemma FailureResets(s: SchedState, quality: int)
    requires quality < PassingQuality
    ensures Schedule(s, quality).repetitions == 0
    ensures Schedule(s, quality).interval == 1
  {
  }

  /** A passed review counts one more repetition and climbs the 1, 6, EF-times ladder. */
  lemma SuccessLadder(s: SchedState, quality: int)
    requires quality >= PassingQuality
    ensures Schedule(s, quality).repetitions == s.repetitions + 1
    ensures s.repetitions == 0 ==> Schedule(s, quality).interval == 1
    ensures s.repetitions == 1 ==> Schedule(s, quality).interval == 6
    ensures s.repetitions != 0 && s.repetitions != 1 ==>
      Schedule(s, quality).interval == Max(1, RoundHundredths(s.interval * s.easeFactor))
  {
  }

  /**
   * The ease factor is updated on pass and on fail alike, from its value
   * before the review, and never drops below 1.3.
   */
  lemma EaseUpdate(s: SchedState, quality: int)
    ensures Schedule(s, quality).easeFactor == Max(MinEase, s.easeFactor + EaseDelta(quality))
    ensures s.easeFactor + EaseDelta(quality) >= MinEase ==>
      Schedule(s, quality).easeFactor == s.easeFactor + EaseDelta(quality)
  {
  }

  /** A perfect review raises the ease by 0.1; a quality of 2 lowers it by 0.32 down to the floor. */
  lemma EaseExamples(s: SchedState)
    requires s.easeFactor >= MinEase
    ensures Schedule(s, 5).easeFactor == s.easeFactor + 10
    ensures Schedule(s, 4).easeFactor == s.easeFactor
    ensures Schedule(s, 2).easeFactor == Max(MinEase, s.easeFactor - 32)
  {
    EaseDeltaTable();
  }

  /** `i * e >= i * 130` for a positive interval and an ease of at least 1.3. */
  lemma ScaledAtLeast(i: int, e: int)
    requires i >= 1 && e >= MinEase
    ensures i * e >= i * MinEase
  {
    assert i * e - i * MinEase == i * (e - MinEase);
  }

  /**
   * From the third successful review on, an interval never shrinks: the
   * old interval is multiplied by an ease factor of at least 1.3.
   */
  lemma GrowthNeverShrinks(s: SchedState, quality: int)
    requires quality >= PassingQuality && s.repetitions >= 2
    requires s.interval >= 1 && s.easeFactor >= MinEase
    ensures Schedule(s, quality).interval >= s.interval
  {
    ScaledAtLeast(s.interval, s.easeFactor);
    assert RoundHundredths(s.interval * s.easeFactor) >= s.interval;
  }

  // ---------------------------------------------------------------------
  // Runs of reviews

  /** The state after reviewing `s` with the qualities `qs`, oldest first. */
  function Run(s: SchedState, qs: seq<int>): SchedState {
    if |qs| == 0 then s else Schedule(Run(s, qs[..|qs| - 1]), qs[|qs| - 1])
  }

  /** The number of passing grades at the end of `qs`. */
  function TrailingPasses(qs: seq<int>): nat {
    if |qs| == 0 then 0
    else if qs[|qs| - 1] >= PassingQuality then TrailingPasses(qs[..|qs| - 1]) + 1
    else 0
  }

  /** No grade in `qs` is a failure. */
  predicate AllPass(qs: seq<int>) {
    forall i :: 0 <= i < |qs| ==> qs[i] >= PassingQuality
  }

  /**
   * `repetitions` counts the consecutive successful reviews since the last
   * failure (from the starting count when there was none).
   */
  lemma {:induction false} RepetitionsCountPasses(s: SchedState, qs: seq<int>)
    ensures AllPass(qs) ==> Run(s, qs).repetitions == s.repetitions + |qs|
    ensures !AllPass(qs) ==> Run(s, qs).repetitions == TrailingPasses(qs)
  {
    if |qs| > 0 {
      var init := qs[..|qs| - 1];
      RepetitionsCountPasses(s, init);
      assert AllPass(qs) ==> AllPass(init);
      assert qs[|qs| - 1] >= PassingQuality && !AllPass(qs) ==> !AllPass(init) by {
        if qs[|qs| - 1] >= PassingQuality && AllPass(init) {
          assert AllPass(qs);
        }
      }
    }
  }

  /** Any number of reviews keeps the SM-2 invariants: ease at least 1.3, interval at least 1. */
  lemma RunInvariants(s: SchedState, qs: seq<int>)
    requires s.easeFactor >= MinEase
    ensures Run(s, qs).easeFactor >= MinEase
    ensures |qs| > 0 ==> Run(s, qs).interval >= 1
  {
  }

  /** `n` perfect reviews in a row raise the ease factor by 0.1 each. */
  lemma {:induction false} PerfectRunEase(s: SchedState, n: nat)
    requires s.easeFactor >= MinEase
    ensures Run(s, seq(n, _ => 5)).easeFactor == s.easeFactor + 10 * n
  {
    if n > 0 {
      var qs := seq(n, _ => 5);
      assert qs[..n - 1] == seq(n - 1, _ => 5);
      PerfectRunEase(s, n - 1);
      EaseExamples(Run(s, qs[..n - 1]));
    }
  }

  /** A run of `n` perfect reviews ending in `s`, followed by one more, ends in `Schedule(s, 5)`. */
  lemma PerfectRunStep(n: nat, s: SchedState, t: SchedState)
    requires Run(Fresh, seq(n, _ => 5)) == s && Schedule(s, 5) == t
    ensures Run(Fresh, seq(n + 1, _ => 5)) == t
  {
    assert seq(n + 1, _ => 5)[..n] == seq(n, _ => 5);
  }

  /**
   * Perfect reviews grow the interval geometrically: after fifteen of them
   * a new card waits 30,216,170 days, after sixteen 120,864,680 days.
   */
  lemma SixteenPerfectReviews()
    ensures Run(Fresh, seq(15, _ => 5)) == SchedState(15, 30216170, 400)
    ensures Run(Fresh, seq(16, _ => 5)) == SchedState(16, 120864680, 410)
  {
    assert Run(Fresh, seq(0, _ => 5)) == Fresh;
    PerfectRunStep(0, SchedState(0, 0, 250), SchedState(1, 1, 260));
    PerfectRunStep(1, SchedState(1, 1, 260), SchedState(2, 6, 270));
    PerfectRunStep(2, SchedState(2, 6, 270), SchedState(3, 16, 280));
    PerfectRunStep(3, SchedState(3, 16, 280), SchedState(4, 45, 290));
    PerfectRunStep(4, SchedState(4, 45, 290), SchedState(5, 131, 300));
    PerfectRunStep(5, SchedState(5, 131, 300), SchedState(6, 393, 310));
    PerfectRunStep(6, SchedState(6, 393, 310), SchedState(7, 1218, 320));
    PerfectRunStep(7, SchedState(7, 1218, 320), SchedState(8, 3898, 330));
    PerfectRunStep(8, SchedState(8, 3898, 330), SchedState(9, 12863, 340));
    PerfectRunStep(9, SchedState(9, 12863, 340), SchedState(10, 43734, 350));
    PerfectRunStep(10, SchedState(10, 43734, 350), SchedState(11, 153069, 360));
    PerfectRunStep(11, SchedState(11, 153069, 360), SchedState(12, 551048, 370));
    PerfectRunStep(12, SchedState(12, 551048, 370), SchedState(13, 2038878, 380));
    PerfectRunStep(13, SchedState(13, 2038878, 380), SchedState(14, 7747736, 390));
    PerfectRunStep(14, SchedState(14, 7747736, 390), SchedState(15, 30216170, 400));
    PerfectRunStep(15, SchedState(15, 30216170, 400), SchedState(16, 120864680, 410));
  }

  /** Three perfect reviews from a new card: intervals 1, 6 and 16, ease 2.6, 2.7, 2.8. */
  lemma ThreePerfectReviews()
    ensures Schedule(Fresh, 5) == SchedState(1, 1, 260)
    ensures Schedule(Schedule(Fresh, 5), 5) == SchedState(2, 6, 270)
    ensures Schedule(Schedule(Schedule(Fresh, 5), 5), 5) == SchedState(3, 16, 280)
  {
    var s1 := Schedule(Fresh, 5);
    assert s1 == SchedState(1, 1, 260);
    var s2 := Schedule(s1, 5);
    assert s2 == SchedState(2, 6, 270);
    assert RoundHundredths(6 * 270) == 16;
  }

  /** A pass then a failure: the failure restarts the card and lowers the ease from 2.6 to 2.28. */
  lemma PassThenFail()
    ensures Schedule(Schedule(Fresh, 5), 2) == SchedState(0, 1, 228)
  {
    assert Schedule(Fresh, 5) == SchedState(1, 1, 260);
  }
}

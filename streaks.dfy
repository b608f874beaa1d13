/**
 * The review streak of `useReviewStreak`: the number of consecutive days
 * with a completed review session, and the day of the last one.
 *
 * Days are the day numbers of `Dates`; the hook's `Math.round` of a
 * difference of two midnights is the difference of their day numbers.
 */
module Streaks {
  import opened Optional
  import opened Dates

  /** Whole days from the day of the last review to `today`. */
  function Gap(last: int, today: int): int {
    today - Day(last)
  }

  /**
   * The streak after a review session on day `today`, given the streak and
   * the last review time before it.
   */
  function NextStreak(streak: int, last: Option<int>, today: int): (r: int)
    ensures last.None? ==> r == 1
    ensures last.Some? && Gap(last.value, today) == 0 ==> r == (if streak == 0 then 1 else streak)
    ensures last.Some? && Gap(last.value, today) == 1 ==> r == streak + 1
    ensures last.Some? && Gap(last.value, today) != 0 && Gap(last.value, today) != 1 ==> r == 1
    ensures streak >= 0 ==> 1 <= r <= streak + 1
  {
    if last.None? then 1
    else
      var gap := Gap(last.value, today);
      if gap == 0 then (if streak == 0 then 1 else streak)
      else if gap == 1 then streak + 1
      else 1
  }

  /**
   * The streak the hook starts with: the stored one (0 when there is none),
   * reset to 0 when the last review was more than one day before `today`.
   */
  function LoadedStreak(storedStreak: Option<int>, storedLast: Option<int>, today: int): (r: int)
    ensures storedLast.Some? && Gap(storedLast.value, today) > 1 ==> r == 0
    ensures !(storedLast.Some? && Gap(storedLast.value, today) > 1) ==> r == storedStreak.GetOr(0)
  {
    var stored := storedStreak.GetOr(0);
    if storedLast.Some? && Gap(storedLast.value, today) > 1 then 0 else stored
  }

  /**
   * A streak agrees with its last review date: a streak without a last
   * review, or whose last review was more than one day ago, is 0.
   */
  predicate Consistent(streak: int, last: Option<int>, today: int) {
    && (last.None? ==> streak == 0)
    && (last.Some? && Gap(last.value, today) > 1 ==> streak == 0)
  }

  /** The streak after the consistency effect: forced to 0 when it is not consistent. */
  function ConsistentStreak(streak: int, last: Option<int>, today: int): (r: int)
    ensures Consistent(r, last, today)
    ensures r == streak <==> Consistent(streak, last, today)
    ensures r == streak || r == 0
  {
    if last.Some? then
      (if Gap(last.value, today) > 1 && streak != 0 then 0 else streak)
    else if streak != 0 then 0
    else streak
  }

  /** The consistency effect changes nothing the second time it runs. */
  lemma ConsistentStreakIdempotent(streak: int, last: Option<int>, today: int)
    ensures ConsistentStreak(ConsistentStreak(streak, last, today), last, today) == ConsistentStreak(streak, last, today)
  {
  }

  /**
   * When a last review date was stored, the consistency effect keeps the
   * loaded streak: both apply the same reset. Without one, the effect
   * forces a stored non-zero streak to 0, which the load keeps.
   */
  lemma LoadThenCheck(storedStreak: Option<int>, storedLast: Option<int>, today: int)
    ensures storedLast.Some? ==>
      ConsistentStreak(LoadedStreak(storedStreak, storedLast, today), storedLast, today)
        == LoadedStreak(storedStreak, storedLast, today)
    ensures storedLast.None? ==>
      ConsistentStreak(LoadedStreak(storedStreak, storedLast, today), storedLast, today) == 0
  {
  }

  /**
   * A streak just recorded is consistent on that day and on the next, and
   * is forced back to 0 from the day after.
   */
  lemma RecordedIsConsistent(streak: int, last: Option<int>, today: int, later: int)
    requires streak >= 0 && today <= later
    ensures Consistent(NextStreak(streak, last, today), Some(Midnight(today)), later) <==> later <= today + 1
  {
  }

  /** A second session on the same day leaves the streak as the first one left it. */
  lemma SameDayTwice(streak: int, last: Option<int>, today: int)
    requires streak >= 0
    ensures NextStreak(NextStreak(streak, last, today), Some(Midnight(today)), today) == NextStreak(streak, last, today)
  {
  }

  // ---------------------------------------------------------------------
  // Runs of sessions

  /** The streak and last review time. */
  datatype StreakState = StreakState(streak: int, last: Option<int>)

  /** One recorded session on day `today`: the new streak, and today's midnight as last review. */
  function Record(s: StreakState, today: int): StreakState {
    StreakState(NextStreak(s.streak, s.last, today), Some(Midnight(today)))
  }

  /** The state after a session on each of the days `days`, oldest first. */
  function RecordAll(s: StreakState, days: seq<int>): StreakState {
    if |days| == 0 then s else Record(RecordAll(s, days[..|days| - 1]), days[|days| - 1])
  }

  /** `n` consecutive days from day `first`. */
  function Consecutive(first: int, n: nat): seq<int> {
    seq(n, i => first + i)
  }

  /** Sessions on `n >= 1` consecutive days, from no streak, give a streak of `n`. */
  lemma {:induction false} ConsecutiveDaysCount(first: int, n: nat)
    requires n >= 1
    ensures RecordAll(StreakState(0, None), Consecutive(first, n)) == StreakState(n, Some(Midnight(first + n - 1)))
  {
    var days := Consecutive(first, n);
    if n > 1 {
      assert days[..n - 1] == Consecutive(first, n - 1);
      ConsecutiveDaysCount(first, n - 1);
    }
  }

  /** Missing a day breaks the streak: the next session starts again at 1. */
  lemma MissedDayRestarts(s: StreakState, today: int)
    requires s.last.Some? && Gap(s.last.value, today) > 1
    ensures Record(s, today).streak == 1
  {
  }

  // ---------------------------------------------------------------------
  // The hook

  class ReviewStreak {
    var streak: int
    var lastReviewDate: Option<int>
    var loaded: bool

    /** The hook's initial state: no streak, no last review, not loaded. */
    constructor ()
      ensures streak == 0 && lastReviewDate == None && !loaded
    {
      streak := 0;
      lastReviewDate := None;
      loaded := false;
    }

    /**
     * The load at start-up at time `now`, from the stored streak and last
     * review time (`None` when absent).
     */
    method Load(storedStreak: Option<int>, storedLast: Option<int>, now: int)
      modifies this
      ensures loaded
      ensures lastReviewDate == storedLast
      ensures streak == LoadedStreak(storedStreak, storedLast, Day(now))
    {
      var current := 0;
      if storedStreak.Some? {
        current := storedStreak.value;
      }
      if storedLast.Some? {
        var today := Day(now);
        var diffDays := Gap(storedLast.value, today);
        if diffDays > 1 {
          current := 0;
        }
      }
      streak := current;
      lastReviewDate := storedLast;
      loaded := true;
    }

    /** `recordReviewSession` at time `now`; nothing happens before the load. */
    method RecordReviewSession(now: int)
      modifies this
      ensures loaded == old(loaded)
      ensures !old(loaded) ==> streak == old(streak) && lastReviewDate == old(lastReviewDate)
      ensures old(loaded) ==> streak == NextStreak(old(streak), old(lastReviewDate), Day(now))
      ensures old(loaded) ==> lastReviewDate == Some(Midnight(Day(now)))
      ensures old(loaded) && old(streak) >= 0 ==> streak >= 1
    {
      if !loaded {
        return;
      }
      var today := Day(now);
      if lastReviewDate.Some? {
        var diffDays := Gap(lastReviewDate.value, today);
        if diffDays == 0 {
          if streak == 0 {
            streak := 1;
          }
        } else if diffDays == 1 {
          streak := streak + 1;
        } else {
          streak := 1;
        }
      } else {
        streak := 1;
      }
      lastReviewDate := Some(Midnight(today));
    }

    /** The consistency effect at time `now`; nothing happens before the load. */
    method CheckConsistency(now: int)
      modifies this
      ensures loaded == old(loaded) && lastReviewDate == old(lastReviewDate)
      ensures !loaded ==> streak == old(streak)
      ensures loaded ==> streak == ConsistentStreak(old(streak), lastReviewDate, Day(now))
      ensures loaded ==> Consistent(streak, lastReviewDate, Day(now))
    {
      if !loaded {
        return;
      }
      var today := Day(now);
      if lastReviewDate.Some? {
        var diffDays := Gap(lastReviewDate.value, today);
        if diffDays > 1 {
          if streak != 0 {
            streak := 0;
          }
        }
      } else if streak != 0 {
        streak := 0;
      }
    }
  }
}

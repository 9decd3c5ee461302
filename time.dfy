/** Timestamps and day buckets.
    A timestamp is an integer count of milliseconds in the dispatcher's local
    clock frame; a day bucket is the timestamp of that day's midnight. */
module Time {

  const HOUR_MS: int := 60 * 60 * 1000
  const DAY_MS: int := 24 * HOUR_MS

  /** Midnight of the day that contains `t` (what `setHours(0, 0, 0, 0)` yields). */
  function DayStart(t: int): (d: int)
    ensures d <= t < d + DAY_MS
    ensures d % DAY_MS == 0
  {
    t - t % DAY_MS
  }

  /** The half-open dedup window `[midnight, next midnight)` of the day of `now`. */
  predicate InDayOf(t: int, now: int)
  {
    DayStart(now) <= t < DayStart(now) + DAY_MS
  }

  /** A midnight is the only midnight at most one day below any time of its day. */
  lemma DayStartUnique(t: int, d: int)
    requires d % DAY_MS == 0
    requires d <= t < d + DAY_MS
    ensures DayStart(t) == d
  {
    var e := DayStart(t);
    assert (d - e) % DAY_MS == 0 by {
      assert d == (d / DAY_MS) * DAY_MS;
      assert e == (e / DAY_MS) * DAY_MS;
      assert d - e == (d / DAY_MS - e / DAY_MS) * DAY_MS;
    }
    assert -DAY_MS < d - e < DAY_MS;
  }

  /** The window of the day of `now` holds exactly the times whose day bucket
      is that of `now`; so its lower end is inside and its upper end is not. */
  lemma WindowIsDayBucket(t: int, now: int)
    ensures InDayOf(t, now) <==> DayStart(t) == DayStart(now)
    ensures InDayOf(DayStart(now), now)
    ensures !InDayOf(DayStart(now) + DAY_MS, now)
  {
    if InDayOf(t, now) {
      DayStartUnique(t, DayStart(now));
    }
  }

  /** The next day re-arms: nothing inside today's window is inside tomorrow's. */
  lemma NextDayIsDisjoint(t: int, now: int)
    requires InDayOf(t, now)
    ensures DayStart(now + DAY_MS) == DayStart(now) + DAY_MS
    ensures !InDayOf(t, now + DAY_MS)
  {
    DayStartUnique(now + DAY_MS, DayStart(now) + DAY_MS);
  }
}

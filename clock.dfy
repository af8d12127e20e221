/** JavaScript `Date` arithmetic as the attendance routes use it. An instant is
    an integer number of milliseconds since the epoch (UTC). The server's local
    zone is a fixed offset from UTC (no daylight-saving changes): local calendar
    days, `getHours` and friends, and `setHours` are taken in that zone, while
    `toISOString` gives the UTC calendar day. */
module Clock {

  const MsPerSecond: int := 1000
  const MsPerMinute: int := 60_000
  const MsPerHour: int := 3_600_000
  const MsPerDay: int := 86_400_000

  /** The local zone's offset from UTC: UTC+05:30. */
  const LocalOffset: int := 19_800_000

  /** The local calendar day of `t`, counted in days from 1970-01-01 (local). */
  function LocalDayNumber(t: int): int {
    (t + LocalOffset) / MsPerDay
  }

  /** Milliseconds since local midnight. */
  function TimeOfDay(t: int): int {
    (t + LocalOffset) % MsPerDay
  }

  /** The instant of local midnight that starts the local day of `t`. */
  function LocalMidnight(t: int): int {
    LocalDayNumber(t) * MsPerDay - LocalOffset
  }

  function GetHours(t: int): int { TimeOfDay(t) / MsPerHour }
  function GetMinutes(t: int): int { TimeOfDay(t) / MsPerMinute % 60 }
  function GetSeconds(t: int): int { TimeOfDay(t) / MsPerSecond % 60 }
  function GetMilliseconds(t: int): int { TimeOfDay(t) % MsPerSecond }

  /** `d.setHours(h, m, s, ms)`: the same local calendar day as `t`, at local time h:m:s.ms. */
  function SetHours(t: int, h: int, m: int, s: int, ms: int): int {
    LocalMidnight(t) + h * MsPerHour + m * MsPerMinute + s * MsPerSecond + ms
  }

  /** `startOfDay.setHours(0, 0, 0, 0)` */
  function StartOfDay(t: int): int { SetHours(t, 0, 0, 0, 0) }

  /** `endOfDay.setHours(23, 59, 59, 999)` */
  function EndOfDay(t: int): int { SetHours(t, 23, 59, 59, 999) }

  /** The local calendar day of `date` combined with the current local time of day of `now`,
      as `providedDate.setHours(now.getHours(), now.getMinutes(), now.getSeconds(), now.getMilliseconds())`. */
  function WithTimeOfDay(date: int, now: int): int {
    SetHours(date, GetHours(now), GetMinutes(now), GetSeconds(now), GetMilliseconds(now))
  }

  /** The UTC calendar day of `t`, in days from 1970-01-01: the date part of `toISOString()`. */
  function UtcDayKey(t: int): int {
    t / MsPerDay
  }

  // ---------------------------------------------------------------- properties

  lemma DivIs(a: int, k: int)
    requires k * MsPerDay <= a < k * MsPerDay + MsPerDay
    ensures a / MsPerDay == k
  {
  }

  /** Every instant lies in its own day window, which spans exactly one day, both ends inclusive. */
  lemma DayWindowContains(t: int)
    ensures StartOfDay(t) <= t <= EndOfDay(t)
    ensures EndOfDay(t) == StartOfDay(t) + MsPerDay - 1
  {
  }

  /** `x` lies in the day window of `d` exactly when both are on the same local calendar day. */
  lemma InDayWindowIff(d: int, x: int)
    ensures StartOfDay(d) <= x <= EndOfDay(d) <==> LocalDayNumber(x) == LocalDayNumber(d)
  {
    var k := LocalDayNumber(d);
    if StartOfDay(d) <= x <= EndOfDay(d) {
      DivIs(x + LocalOffset, k);
    }
  }

  /** The window is tight: the millisecond before it and the next local midnight are both outside. */
  lemma DayWindowTight(d: int)
    ensures !(StartOfDay(d) <= StartOfDay(d) - 1 <= EndOfDay(d))
    ensures !(StartOfDay(d) <= StartOfDay(d) + MsPerDay <= EndOfDay(d))
    ensures LocalDayNumber(StartOfDay(d) + MsPerDay) == LocalDayNumber(d) + 1
  {
    DivIs(StartOfDay(d) + MsPerDay + LocalOffset, LocalDayNumber(d) + 1);
  }

  /** The getters split the time of day exactly, so stamping `now`'s time onto `date`
      gives local midnight of `date` plus `now`'s time of day, inside `date`'s day window. */
  lemma WithTimeOfDayInWindow(date: int, now: int)
    ensures WithTimeOfDay(date, now) == LocalMidnight(date) + TimeOfDay(now)
    ensures StartOfDay(date) <= WithTimeOfDay(date, now) <= EndOfDay(date)
  {
    var tod := TimeOfDay(now);
    var h, rh := tod / MsPerHour, tod % MsPerHour;
    var m, rm := rh / MsPerMinute, rh % MsPerMinute;
    var s, ms := rm / MsPerSecond, rm % MsPerSecond;
    assert tod == h * MsPerHour + m * MsPerMinute + s * MsPerSecond + ms;
    assert GetMinutes(now) == m by {
      assert tod / MsPerMinute == h * 60 + m;
    }
    assert GetSeconds(now) == s by {
      assert tod / MsPerSecond == h * 3600 + m * 60 + s;
    }
    assert GetMilliseconds(now) == ms by {
      assert tod == (h * 3600 + m * 60 + s) * MsPerSecond + ms;
    }
  }

  /** The ISO date key never decreases as time advances. */
  lemma UtcDayKeyMonotone(a: int, b: int)
    requires a <= b
    ensures UtcDayKey(a) <= UtcDayKey(b)
  {
  }

  /** With the zone ahead of UTC, a local day window straddles two ISO dates: it starts on the
      previous UTC calendar day and ends on the UTC day numbered like the local day. */
  lemma DayWindowStraddlesUtcDates(d: int)
    ensures UtcDayKey(StartOfDay(d)) == LocalDayNumber(d) - 1
    ensures UtcDayKey(EndOfDay(d)) == LocalDayNumber(d)
  {
    DivIs(StartOfDay(d), LocalDayNumber(d) - 1);
    DivIs(EndOfDay(d), LocalDayNumber(d));
  }
}

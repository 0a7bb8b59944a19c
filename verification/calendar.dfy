/** Instants are integer milliseconds since 1970-01-01T00:00:00Z, as
    `Date.getTime()` returns them. This module holds the two pieces of
    calendar arithmetic the reporting endpoint relies on: the UTC day an
    instant falls on, and the hour count that `Math.round` produces. */
module Calendar {

  const MsPerHour: int := 1000 * 60 * 60
  const MsPerDay: int := 24 * MsPerHour

  /** The UTC calendar day of instant `t`, counted in days since the epoch.
      Two instants get the same day number exactly when the `YYYY-MM-DD`
      prefix of their ISO strings is the same. */
  function DayOf(t: int): (d: int)
    ensures DayStart(d) <= t < DayStart(d) + MsPerDay
  {
    t / MsPerDay
  }

  /** UTC midnight of day `d`: what `new Date("YYYY-MM-DD")` gives back. */
  function DayStart(d: int): (t: int)
    ensures t % MsPerDay == 0
  {
    d * MsPerDay
  }

  /** Midnight of a day lies on that day. */
  lemma DayOfDayStart(d: int)
    ensures DayOf(DayStart(d)) == d
  {
    var e := DayOf(DayStart(d));
    assert DayStart(e) <= DayStart(d) < DayStart(e) + MsPerDay;
  }

  /** An instant lies on day `d` exactly when it falls between that day's
      midnight (included) and the next one (excluded), whatever the time
      of day. */
  lemma {:induction false} DayOfIff(t: int, d: int)
    ensures DayOf(t) == d <==> DayStart(d) <= t < DayStart(d) + MsPerDay
  {
    var e := DayOf(t);
    if DayStart(d) <= t < DayStart(d) + MsPerDay {
      assert (d - e) * MsPerDay < MsPerDay && (e - d) * MsPerDay < MsPerDay;
    }
  }

  /** 2024-01-05 is day 19727: 00:10 and 23:50 UTC that day share its key,
      and 00:10 UTC on 2024-01-06 does not. */
  lemma SameDayExample()
    ensures DayOf(1704413400000) == DayOf(1704498600000) == 19727
    ensures DayOf(1704499800000) == 19728
  {
    DayOfIff(1704413400000, 19727);
    DayOfIff(1704498600000, 19727);
    DayOfIff(1704499800000, 19728);
  }

  /** Later days start later, by whole days. */
  lemma DayStartMonotone(d: int, e: int)
    requires d < e
    ensures DayStart(d) + MsPerDay <= DayStart(e)
  {
  }

  /** Day numbers follow the order of instants. */
  lemma DayOfMonotone(s: int, t: int)
    requires s <= t
    ensures DayOf(s) <= DayOf(t)
  {
  }

  /** `Math.round(d / 3_600_000)` for a duration of `d` milliseconds: the
      whole number of hours nearest to `d`, a half hour rounded up
      (toward +infinity, also for negative durations). */
  function RoundHours(d: int): (h: int)
    ensures (2 * h - 1) * MsPerHour <= 2 * d < (2 * h + 1) * MsPerHour
  {
    (2 * d + MsPerHour) / (2 * MsPerHour)
  }

  /** The rounding is determined by its bracket: no other whole number of
      hours is within half an hour of `d` on the same side. */
  lemma {:induction false} RoundHoursUnique(d: int, h: int)
    requires (2 * h - 1) * MsPerHour <= 2 * d < (2 * h + 1) * MsPerHour
    ensures RoundHours(d) == h
  {
    var r := RoundHours(d);
    assert (2 * r - 1) * MsPerHour <= 2 * d < (2 * r + 1) * MsPerHour;
    assert (r - h) * MsPerHour < MsPerHour && (h - r) * MsPerHour < MsPerHour;
  }

  /** Whole hours are kept as they are. */
  lemma WholeHours(k: int)
    ensures RoundHours(k * MsPerHour) == k
  {
    RoundHoursUnique(k * MsPerHour, k);
  }

  /** Rounding keeps the order of durations. */
  lemma {:induction false} RoundHoursMonotone(d: int, e: int)
    requires d <= e
    ensures RoundHours(d) <= RoundHours(e)
  {
    var a, b := RoundHours(d), RoundHours(e);
    assert (2 * a - 1) * MsPerHour <= 2 * d <= 2 * e < (2 * b + 1) * MsPerHour;
    assert (a - b - 1) * MsPerHour < 0;
  }

  /** Nothing is clamped: a completion more than half an hour before the
      creation gives a negative number of hours, and zero elapsed time
      gives zero hours. */
  lemma NoClamping(d: int)
    ensures d < -MsPerHour / 2 ==> RoundHours(d) < 0
    ensures 0 <= d < MsPerHour / 2 ==> RoundHours(d) == 0
  {
  }
}

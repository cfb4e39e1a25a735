/** The local day a token quota is counted over. */
module QuotaDay {
  import opened WallTime

  function StartOfDay(ts: int, zone: Zone): int {
    var w := WallClock(ts, zone);
    UtcFromWall(w.year, w.month, w.day, 0, 0, zone)
  }

  /** Calendar addition: a day past the end of the month is carried by the day count. */
  function NextDayStart(dayStart: int, zone: Zone): int {
    var w := WallClock(dayStart, zone);
    UtcFromWall(w.year, w.month, w.day + 1, 0, 0, zone)
  }

  function DayOf(zone: Zone, ts: int): int { Local(zone, ts) / DAY }

  lemma MidnightUtc(ts: int, zone: Zone)
    ensures var w := WallClock(ts, zone); DateUtc(w.year, w.month, w.day, 0, 0, 0) == DayOf(zone, ts) * DAY
    ensures var w := WallClock(ts, zone); DateUtc(w.year, w.month, w.day + 1, 0, 0, 0) == (DayOf(zone, ts) + 1) * DAY
  {
  }

  lemma StartIsMidnight(ts: int, zone: Zone, n: int)
    requires WholeSeconds(zone) && DayOf(zone, ts) == n
    ensures StartOfDay(ts, zone) == TwoPass(n * DAY, zone)
  {
    MidnightUtc(ts, zone);
    MeasuredIsExact(zone, n * DAY);
  }

  lemma NextIsMidnight(ts: int, zone: Zone, n: int)
    requires WholeSeconds(zone) && DayOf(zone, ts) == n
    ensures NextDayStart(ts, zone) == TwoPass((n + 1) * DAY, zone)
  {
    MidnightUtc(ts, zone);
    MeasuredIsExact(zone, (n + 1) * DAY);
  }

  // ---- around one change of offset ----

  /** The clock jumps over this local time, or goes through it twice. */
  predicate Skipped(local: int, change: int, a: int, b: int) { change + a <= local < change + b }
  predicate Twice(local: int, change: int, a: int, b: int) { change + b <= local < change + a }

  lemma SkippedIsMissing(zone: Zone, local: int, change: int, a: int, b: int)
    requires Bounded(zone) && OneChange(zone, local, DAY, change, a, b) && -DAY < a < DAY && -DAY < b < DAY
    ensures Skipped(local, change, a, b) <==> !Exists(zone, local)
    ensures Twice(local, change, a, b) <==> exists t, u :: t != u && Shows(zone, local, t) && Shows(zone, local, u)
  {
    if !Skipped(local, change, a, b) {
      assert Shows(zone, local, if local - a < change then local - a else local - b);
    }
    if Twice(local, change, a, b) {
      assert Shows(zone, local, local - a) && Shows(zone, local, local - b) && local - a != local - b;
    }
  }

  /** Where the inversion puts a local time: by the old offset if both passes say so, or, for a time that is
      skipped or shown twice, depending on whether the change, taken as a local time, lies behind it. */
  lemma InversionNearChange(zone: Zone, local: int, change: int, a: int, b: int)
    requires Bounded(zone) && OneChange(zone, local, DAY, change, a, b)
    ensures TwoPass(local, zone)
            == if Skipped(local, change, a, b) then (if local < change then local - b else local - a)
               else if Twice(local, change, a, b) then (if local < change then local - a else local - b)
               else if local - a < change then local - a else local - b
  {
  }

  /** The day computed for an instant begins too late: midnight is skipped and comes out on the day before,
      or behind the instant; or midnight is shown twice and its second showing is taken. */
  predicate BeginsLate(ts: int, midnight: int, change: int, a: int, b: int) {
    || (Skipped(midnight, change, a, b) && (midnight < change || ts < midnight - a))
    || (Twice(midnight, change, a, b) && change <= midnight && ts < midnight - b)
  }

  /** It ends too early: the next midnight is skipped and comes out before the change, or is shown twice and
      its first showing is taken, and the instant is not before that. */
  predicate EndsEarly(ts: int, midnight: int, change: int, a: int, b: int) {
    && midnight < change
    && ((Skipped(midnight, change, a, b) && midnight - b <= ts)
        || (Twice(midnight, change, a, b) && midnight - a <= ts))
  }

  /** With at most one change of less than a day in the neighbourhood, an instant lies within the day
      computed for it exactly if that day neither begins late nor ends early. */
  lemma InstantIsWithinItsDay(ts: int, zone: Zone, change: int, a: int, b: int)
    requires Bounded(zone) && WholeSeconds(zone) && OneChange(zone, ts, 3 * DAY, change, a, b) && -DAY < b - a < DAY
    ensures var midnight := DayOf(zone, ts) * DAY;
            StartOfDay(ts, zone) <= ts < NextDayStart(StartOfDay(ts, zone), zone)
            <==> !BeginsLate(ts, midnight, change, a, b) && !EndsEarly(ts, midnight + DAY, change, a, b)
  {
    hide StartOfDay, NextDayStart, BeginsLate, EndsEarly, TwoPass;
    var n := DayOf(zone, ts);
    var s := TwoPass(n * DAY, zone);
    StartIsMidnight(ts, zone, n);
    DayOfStart(ts, zone, n, change, a, b);
    NextIsMidnight(s, zone, DayOf(zone, s));
    assert (n + 1) * DAY == n * DAY + DAY;
    BetweenMidnights(ts, zone, n, change, a, b);
  }

  /** The computed start is on the day itself, unless midnight is skipped and comes out a day early. */
  lemma DayOfStart(ts: int, zone: Zone, n: int, change: int, a: int, b: int)
    requires Bounded(zone) && OneChange(zone, ts, 3 * DAY, change, a, b) && -DAY < b - a < DAY && DayOf(zone, ts) == n
    ensures DayOf(zone, TwoPass(n * DAY, zone))
            == if Skipped(n * DAY, change, a, b) && n * DAY < change then n - 1 else n
  {
    var m := n * DAY;
    InversionNearChange(zone, m, change, a, b);
    var s := TwoPass(m, zone);
    assert zone(s) == if s < change then a else b;
    assert Local(zone, s) == m || Local(zone, s) == m - (b - a) || Local(zone, s) == m + (b - a);
  }

  lemma BetweenMidnights(ts: int, zone: Zone, n: int, change: int, a: int, b: int)
    requires Bounded(zone) && OneChange(zone, ts, 3 * DAY, change, a, b) && -DAY < b - a < DAY && DayOf(zone, ts) == n
    ensures var m := n * DAY;
            !BeginsLate(ts, m, change, a, b) && !EndsEarly(ts, m + DAY, change, a, b)
            <==> !(Skipped(m, change, a, b) && m < change) && TwoPass(m, zone) <= ts < TwoPass(m + DAY, zone)
  {
    var m := n * DAY;
    assert m <= ts + zone(ts) < m + DAY;
    InversionNearChange(zone, m, change, a, b);
    InversionNearChange(zone, m + DAY, change, a, b);
  }

  /** In particular when both midnights are shown exactly once. */
  lemma UnambiguousMidnightsSuffice(ts: int, zone: Zone, change: int, a: int, b: int)
    requires Bounded(zone) && WholeSeconds(zone) && OneChange(zone, ts, 3 * DAY, change, a, b) && -DAY < b - a < DAY
    requires var m := DayOf(zone, ts) * DAY; !Skipped(m, change, a, b) && !Twice(m, change, a, b)
    requires var m := DayOf(zone, ts) * DAY + DAY; !Skipped(m, change, a, b) && !Twice(m, change, a, b)
    ensures StartOfDay(ts, zone) <= ts < NextDayStart(StartOfDay(ts, zone), zone)
  {
    hide StartOfDay, NextDayStart;
    InstantIsWithinItsDay(ts, zone, change, a, b);
  }

  lemma AroundSkippedMidnight(zone: Zone)
    requires forall t :: zone(t) == if t < 3 * HOUR then -3 * HOUR else -2 * HOUR
    ensures DayOf(zone, 3 * HOUR) == 0 && DayOf(zone, 2 * HOUR) == -1 && TwoPass(0, zone) == 2 * HOUR
    ensures !Exists(zone, 0)
  {
  }

  /** Three hours behind UTC, then two, from midnight on: the clock goes from 23:59 to 01:00. Midnight is
      skipped and lies before the change, and the day computed for 01:00 ends where it begins. */
  lemma SkippedMidnight(zone: Zone)
    requires zone == Switching(3 * HOUR, -3 * HOUR, -2 * HOUR)
    ensures WholeSeconds(zone) && Bounded(zone) && !Exists(zone, 0)
    ensures NextDayStart(StartOfDay(3 * HOUR, zone), zone) == StartOfDay(3 * HOUR, zone) < 3 * HOUR
  {
    SwitchingIsSound(3 * HOUR, -3 * HOUR, -2 * HOUR);
    AroundSkippedMidnight(zone);
    StartIsMidnight(3 * HOUR, zone, 0);
    NextIsMidnight(2 * HOUR, zone, -1);
  }

  /** Three hours ahead of UTC, then two: midnight is shown twice, and the day computed for the first one
      begins with the second. */
  lemma RepeatedMidnight(zone: Zone)
    requires zone == Switching(-2 * HOUR, 3 * HOUR, 2 * HOUR)
    ensures WholeSeconds(zone) && Bounded(zone) && Exists(zone, 0)
    ensures -3 * HOUR < StartOfDay(-3 * HOUR, zone)
  {
    SwitchingIsSound(-2 * HOUR, 3 * HOUR, 2 * HOUR);
    assert DayOf(zone, -3 * HOUR) == 0 && TwoPass(0, zone) == -2 * HOUR;
    StartIsMidnight(-3 * HOUR, zone, 0);
    assert Shows(zone, 0, -3 * HOUR);
  }

  /** Two hours ahead of UTC, then three, from midnight on: midnight is skipped here too, but every instant
      of that day lies within the day computed for it. */
  lemma SkippedMidnightMayBeHarmless(zone: Zone, ts: int)
    requires zone == Switching(-2 * HOUR, 2 * HOUR, 3 * HOUR) && -2 * HOUR <= ts < DAY - 3 * HOUR
    ensures !Exists(zone, 0) && DayOf(zone, ts) == 0
    ensures StartOfDay(ts, zone) <= ts < NextDayStart(StartOfDay(ts, zone), zone)
  {
    hide StartOfDay, NextDayStart;
    SwitchingIsSound(-2 * HOUR, 2 * HOUR, 3 * HOUR);
    SkippedIsMissing(zone, 0, -2 * HOUR, 2 * HOUR, 3 * HOUR);
    InstantIsWithinItsDay(ts, zone, -2 * HOUR, 2 * HOUR, 3 * HOUR);
  }

  /** Three hours behind UTC, then four, half an hour past midnight: the clock goes back to 23:30, and the
      evening's second half hour lies behind the end computed for its day. */
  lemma EveningTwice(zone: Zone)
    requires zone == Switching(DAY + 7 * HOUR / 2, -3 * HOUR, -4 * HOUR)
    ensures DayOf(zone, DAY + 7 * HOUR / 2) == 0
    ensures NextDayStart(StartOfDay(DAY + 7 * HOUR / 2, zone), zone) <= DAY + 7 * HOUR / 2
  {
    hide StartOfDay, NextDayStart;
    SwitchingIsSound(DAY + 7 * HOUR / 2, -3 * HOUR, -4 * HOUR);
    assert DayOf(zone, DAY + 7 * HOUR / 2) == 0 && DayOf(zone, 3 * HOUR) == 0;
    assert TwoPass(0, zone) == 3 * HOUR && TwoPass(DAY, zone) == DAY + 3 * HOUR;
    StartIsMidnight(DAY + 7 * HOUR / 2, zone, 0);
    NextIsMidnight(3 * HOUR, zone, 0);
  }
}

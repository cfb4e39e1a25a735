/** Wall clocks and their inverse. A time zone is the function from instants to its offset from UTC, both
    in milliseconds. */
module WallTime {
  import opened Calendar

  type Zone = int -> int

  const MINUTE := 60000
  const HOUR := 3600000
  const DAY := 86400000

  /** What the clock on the wall shows; Sunday is weekday 0. */
  datatype Wall = Wall(year: int, month: int, day: int, hour: int, minute: int, second: int, dow: int)

  function HourOf(local: int): int { local % DAY / HOUR }
  function MinuteOf(local: int): int { local % DAY % HOUR / MINUTE }

  /** The reading that is `local` milliseconds from 1970-01-01 00:00, milliseconds dropped. */
  function Reading(local: int): (w: Wall)
    ensures IsDate(Date(w.year, w.month, w.day))
  {
    var date := DateOf(local / DAY);
    Wall(date.year, date.month, date.day, HourOf(local), MinuteOf(local), local % DAY % MINUTE / 1000,
         WeekdayOf(local / DAY))
  }

  function WallClock(ts: int, zone: Zone): (w: Wall)
    ensures IsDate(Date(w.year, w.month, w.day))
  {
    Reading(ts + zone(ts))
  }

  function DateUtc(y: int, month: int, day: int, hour: int, minute: int, second: int): int
    requires 1 <= month <= 12
  {
    DayNumber(y, month, day) * DAY + hour * HOUR + minute * MINUTE + second * 1000
  }

  /** The offset, worked out from the wall clock as the program does it. */
  function OffsetAt(ts: int, zone: Zone): int {
    var w := WallClock(ts, zone);
    DateUtc(w.year, w.month, w.day, w.hour, w.minute, w.second) - ts / 1000 * 1000
  }

  function UtcFromWall(y: int, month: int, day: int, hour: int, minute: int, zone: Zone): int
    requires 1 <= month <= 12
  {
    TwoPass(DateUtc(y, month, day, hour, minute, 0), Measured(zone))
  }

  function Measured(zone: Zone): Zone { ts => OffsetAt(ts, zone) }

  /** A guess that takes the local time for UTC, corrected by its own offset, and corrected again by the
      offset in force where that landed. */
  function TwoPass(guess: int, offset: Zone): int {
    var first := guess - offset(guess);
    guess - offset(first)
  }

  // ---- clocks as local time ----

  function Local(zone: Zone, ts: int): int { ts + zone(ts) }

  ghost predicate WholeSeconds(zone: Zone) { forall t :: zone(t) % 1000 == 0 }

  lemma DayParts(rest: int)
    requires 0 <= rest < DAY
    ensures rest / HOUR * HOUR + rest % HOUR / MINUTE * MINUTE + rest % MINUTE / 1000 * 1000 == rest / 1000 * 1000
    ensures 0 <= rest / HOUR < 24 && 0 <= rest % HOUR / MINUTE < 60
    ensures (rest - rest % MINUTE) == rest / HOUR * HOUR + rest % HOUR / MINUTE * MINUTE
  {
    var h, m := rest / HOUR, rest % HOUR / MINUTE;
    assert rest == h * HOUR + rest % HOUR;
    assert rest % HOUR == m * MINUTE + rest % HOUR % MINUTE;
    assert rest == (h * 60 + m) * MINUTE + rest % HOUR % MINUTE;
    assert rest % MINUTE == rest % HOUR % MINUTE;
  }

  lemma ReadingRoundTrip(local: int)
    ensures var w := Reading(local); DateUtc(w.year, w.month, w.day, w.hour, w.minute, w.second) == local / 1000 * 1000
  {
    DayParts(local % DAY);
    assert local == local / DAY * 86400 * 1000 + local % DAY;
    assert local / 1000 == local / DAY * 86400 + local % DAY / 1000;
  }

  lemma OffsetAtIsExact(ts: int, zone: Zone)
    requires WholeSeconds(zone)
    ensures OffsetAt(ts, zone) == zone(ts)
  {
    hide Reading, DateUtc, IsDate;
    ReadingRoundTrip(ts + zone(ts));
    assert zone(ts) == zone(ts) / 1000 * 1000;
    assert (ts + zone(ts)) / 1000 == ts / 1000 + zone(ts) / 1000;
  }

  lemma MeasuredIsExact(zone: Zone, guess: int)
    requires WholeSeconds(zone)
    ensures TwoPass(guess, Measured(zone)) == TwoPass(guess, zone)
  {
    forall ts ensures Measured(zone)(ts) == zone(ts) { OffsetAtIsExact(ts, zone); }
    SameOffsets(guess, Measured(zone), zone);
  }

  lemma SameOffsets(guess: int, f: Zone, g: Zone)
    requires forall ts :: f(ts) == g(ts)
    ensures TwoPass(guess, f) == TwoPass(guess, g)
  {
  }

  /** The reading of a full minute of day n. */
  lemma ReadingOfMinute(n: int, hour: int, minute: int)
    requires 0 <= hour < 24 && 0 <= minute < 60
    ensures var d := DateOf(n);
            Reading(n * DAY + hour * HOUR + minute * MINUTE)
              == Wall(d.year, d.month, d.day, hour, minute, 0, WeekdayOf(n))
  {
    SplitMinute(n, hour, minute);
  }

  lemma SplitMinute(n: int, hour: int, minute: int)
    requires 0 <= hour < 24 && 0 <= minute < 60
    ensures var rest := hour * HOUR + minute * MINUTE;
            && (n * DAY + rest) / DAY == n && (n * DAY + rest) % DAY == rest
            && rest / HOUR == hour && rest % HOUR / MINUTE == minute && rest % MINUTE / 1000 == 0
  {
    var rest := hour * HOUR + minute * MINUTE;
    assert rest == (hour * 60 + minute) * MINUTE;
    assert 0 <= rest < DAY;
    assert rest / HOUR == hour && rest % HOUR == minute * MINUTE;
    assert rest % MINUTE == 0;
  }

  // ---- one change of offset ----

  predicate Shows(zone: Zone, local: int, ts: int) { Local(zone, ts) == local }

  /** Some instant has this local time. */
  ghost predicate Exists(zone: Zone, local: int) { exists ts :: Shows(zone, local, ts) }

  /** Across `change` the offset goes from a to b; nothing else happens within `reach` of x. */
  ghost predicate OneChange(zone: Zone, x: int, reach: int, change: int, a: int, b: int) {
    forall t | x - reach <= t <= x + reach :: zone(t) == if t < change then a else b
  }

  /** No offset is a day or more. */
  ghost predicate Bounded(zone: Zone) { forall t :: -DAY < zone(t) < DAY }

  /** Across one change of any size, every local time that exists is inverted exactly, be it unique or
      shown twice; a skipped one comes out displaced by the size of the gap. */
  lemma InversionAcrossChange(zone: Zone, local: int, change: int, a: int, b: int)
    requires Bounded(zone) && OneChange(zone, local, DAY, change, a, b)
    ensures Exists(zone, local) <==> Local(zone, TwoPass(local, zone)) == local
    ensures !Exists(zone, local) ==>
              b > a && (Local(zone, TwoPass(local, zone)) == local - (b - a)
                        || Local(zone, TwoPass(local, zone)) == local + (b - a))
  {
    var t := TwoPass(local, zone);
    assert Local(zone, t) == local ==> Shows(zone, local, t);
    if ts :| Shows(zone, local, ts) {
      assert zone(ts) == if ts < change then a else b;
    }
  }

  /** Two local times with the same hour and minute on the clock. */
  predicate SameMinute(x: int, y: int) {
    HourOf(x) == HourOf(y) && MinuteOf(x) == MinuteOf(y)
  }

  /** Whether the instant computed for a local time shows the hour and minute asked for. */
  predicate Rechecked(zone: Zone, local: int) { SameMinute(local, Local(zone, TwoPass(local, zone))) }

  lemma SameMinuteOfDay(x: int, y: int)
    requires x % MINUTE == 0
    ensures SameMinute(x, y) <==> (y - x) % DAY < MINUTE
  {
    var p, q := x % DAY, y % DAY;
    DayParts(p);
    DayParts(q);
    assert SameMinute(x, y) <==> p - p % MINUTE == q - q % MINUTE;
    DayDistance(x, y);
    assert p % MINUTE == 0;
  }

  lemma DayDistance(x: int, y: int)
    ensures (y - x) % DAY == if y % DAY >= x % DAY then y % DAY - x % DAY else y % DAY - x % DAY + DAY
  {
    var p, q := x % DAY, y % DAY;
    assert y - x == (y / DAY - x / DAY) * DAY + (q - p);
  }

  lemma WholeMinutes(gap: int)
    requires gap % MINUTE == 0
    ensures gap % DAY < MINUTE <==> gap % DAY == 0
    ensures (-gap) % DAY < MINUTE <==> gap % DAY == 0
  {
    var k := gap / MINUTE;
    assert gap % DAY == (k % 1440) * MINUTE by {
      assert k == k / 1440 * 1440 + k % 1440;
      assert gap == (k / 1440) * DAY + (k % 1440) * MINUTE;
    }
    assert (-gap) % DAY == if gap % DAY == 0 then 0 else DAY - gap % DAY;
  }

  /** The re-check lets every full minute that exists pass; it rejects a skipped one exactly when the gap
      is not a whole number of days. */
  lemma RecheckRejectsSkipped(zone: Zone, local: int, change: int, a: int, b: int)
    requires Bounded(zone) && OneChange(zone, local, DAY, change, a, b)
    requires local % MINUTE == 0 && (b - a) % MINUTE == 0
    ensures Rechecked(zone, local) <==> Exists(zone, local) || (b - a) % DAY == 0
  {
    InversionAcrossChange(zone, local, change, a, b);
    SameMinuteOfDay(local, Local(zone, TwoPass(local, zone)));
    DisplacedMinutes(local, Local(zone, TwoPass(local, zone)), b - a);
  }

  lemma DisplacedMinutes(local: int, shown: int, gap: int)
    requires gap % MINUTE == 0
    ensures shown == local ==> (shown - local) % DAY < MINUTE
    ensures shown == local - gap || shown == local + gap ==> ((shown - local) % DAY < MINUTE <==> gap % DAY == 0)
  {
    WholeMinutes(gap);
    assert shown == local - gap ==> shown - local == -gap;
  }

  function Switching(change: int, a: int, b: int): Zone { t => if t < change then a else b }

  lemma SwitchingIsSound(change: int, a: int, b: int)
    requires a % 1000 == 0 && b % 1000 == 0 && -DAY < a < DAY && -DAY < b < DAY
    ensures WholeSeconds(Switching(change, a, b)) && Bounded(Switching(change, a, b))
    ensures forall t :: Switching(change, a, b)(t) == if t < change then a else b
  {
  }

  /** A zone that crosses the date line, from ten hours behind UTC to fourteen ahead, skips a whole day of
      local time; its minutes come out one day early and pass the re-check. */
  lemma SkippedDayPasses(zone: Zone)
    requires zone == Switching(10 * HOUR, -10 * HOUR, 14 * HOUR)
    ensures WholeSeconds(zone) && Bounded(zone) && !Exists(zone, 0) && Rechecked(zone, 0)
    ensures Local(zone, TwoPass(0, zone)) == -DAY
  {
    SwitchingIsSound(10 * HOUR, -10 * HOUR, 14 * HOUR);
    assert OneChange(zone, 0, DAY, 10 * HOUR, -10 * HOUR, 14 * HOUR);
    RecheckRejectsSkipped(zone, 0, 10 * HOUR, -10 * HOUR, 14 * HOUR);
  }
}

/** When a cron expression fires next. The search goes day by day, hour by hour, minute by minute over the
    local calendar; it finds what trying every minute would find. */
module CronSchedule {
  import opened Calendar
  import opened WallTime
  import opened Wrappers

  /** A parsed expression: the allowed values of its five fields, and whether the two day fields restrict. */
  datatype Fields = Fields(minute: set<int>, hour: set<int>, dom: set<int>, month: set<int>, dow: set<int>,
                           domRestricted: bool, dowRestricted: bool)

  const SEARCH_DAYS := 366
  const DAY_MINUTES := 1440

  /** When both day fields restrict, either one will do. */
  predicate MatchesDay(f: Fields, w: Wall) {
    w.month in f.month
    && if f.domRestricted && f.dowRestricted then w.day in f.dom || w.dow in f.dow else w.day in f.dom && w.dow in f.dow
  }

  // ---- the search ----

  function AtMinute(date: Date, k: int, zone: Zone): int
    requires IsDate(date)
  {
    UtcFromWall(date.year, date.month, date.day, k / 60, k % 60, zone)
  }

  /** Minute k of a date, if its hour and minute are allowed, it is not skipped and it is late enough. */
  function Candidate(f: Fields, zone: Zone, after: int, date: Date, k: int): Option<int>
    requires IsDate(date)
  {
    if k / 60 in f.hour && k % 60 in f.minute then
      var ts := AtMinute(date, k, zone);
      var back := WallClock(ts, zone);
      if back.hour == k / 60 && back.minute == k % 60 && ts > after then Some(ts) else None
    else None
  }

  function ScanDay(f: Fields, zone: Zone, after: int, date: Date, k: int): Option<int>
    requires IsDate(date)
    decreases DAY_MINUTES - k
  {
    if k >= DAY_MINUTES then None
    else if Candidate(f, zone, after, date, k).Some? then Candidate(f, zone, after, date, k)
    else ScanDay(f, zone, after, date, k + 1)
  }

  /** A day is judged by the wall clock at its noon. */
  function NoonWall(date: Date, zone: Zone): Wall
    requires IsDate(date)
  {
    WallClock(AtMinute(date, 720, zone), zone)
  }

  /** A day after noon, read from the wall clock. */
  function DateAfter(date: Date, zone: Zone): (d: Date)
    requires IsDate(date)
    ensures IsDate(d)
  {
    var w := WallClock(AtMinute(date, 720, zone) + DAY, zone);
    Date(w.year, w.month, w.day)
  }

  function ScanDays(f: Fields, zone: Zone, after: int, date: Date, k: int, left: nat): Option<int>
    requires IsDate(date)
    decreases left
  {
    if left == 0 then None
    else if MatchesDay(f, NoonWall(date, zone)) && ScanDay(f, zone, after, date, k).Some?
    then ScanDay(f, zone, after, date, k)
    else ScanDays(f, zone, after, DateAfter(date, zone), 0, left - 1)
  }

  function FirstMinute(after: int): int { after / MINUTE * MINUTE + MINUTE }

  function NextFire(f: Fields, zone: Zone, after: int): Option<int> {
    var w := WallClock(FirstMinute(after), zone);
    ScanDays(f, zone, after, Date(w.year, w.month, w.day), w.hour * 60 + w.minute, SEARCH_DAYS)
  }

  lemma {:induction false} SkipHour(f: Fields, zone: Zone, after: int, date: Date, k: int)
    requires IsDate(date) && 0 <= k < DAY_MINUTES && k / 60 !in f.hour
    ensures ScanDay(f, zone, after, date, k) == ScanDay(f, zone, after, date, k / 60 * 60 + 60)
    decreases 60 - k % 60
  {
    hide AtMinute, WallClock, IsDate;
    if k % 60 != 59 { SkipHour(f, zone, after, date, k + 1); }
  }

  lemma ClockHands(ts: int, zone: Zone)
    ensures 0 <= WallClock(ts, zone).hour < 24 && 0 <= WallClock(ts, zone).minute < 60
  {
  }

  method NextFireAfter(f: Fields, zone: Zone, after: int) returns (next: Option<int>)
    ensures next == NextFire(f, zone, after)
  {
    hide WallClock, IsDate, ScanDay, NoonWall, DateAfter, MatchesDay;
    ClockHands(after / MINUTE * MINUTE + MINUTE, zone);
    var start := WallClock(after / MINUTE * MINUTE + MINUTE, zone);
    var date, fromHour, fromMinute := Date(start.year, start.month, start.day), start.hour, start.minute;
    var dayIndex := 0;
    while dayIndex < SEARCH_DAYS
      invariant 0 <= dayIndex <= SEARCH_DAYS && IsDate(date)
      invariant 0 <= fromHour < 24 && 0 <= fromMinute < 60
      invariant ScanDays(f, zone, after, date, fromHour * 60 + fromMinute, SEARCH_DAYS - dayIndex)
                == NextFire(f, zone, after)
    {
      if MatchesDay(f, NoonWall(date, zone)) {
        next := SearchDay(f, zone, after, date, fromHour, fromMinute);
        if next.Some? { return; }
      }
      date, fromHour, fromMinute := DateAfter(date, zone), 0, 0;
      dayIndex := dayIndex + 1;
    }
    next := None;
  }

  method SearchDay(f: Fields, zone: Zone, after: int, date: Date, fromHour: int, fromMinute: int)
    returns (hit: Option<int>)
    requires IsDate(date) && 0 <= fromHour < 24 && 0 <= fromMinute < 60
    ensures hit == ScanDay(f, zone, after, date, fromHour * 60 + fromMinute)
  {
    hide UtcFromWall, Reading;
    var hour := fromHour;
    while hour <= 23
      invariant fromHour <= hour <= 24
      invariant ScanDay(f, zone, after, date, fromHour * 60 + fromMinute)
                == ScanDay(f, zone, after, date, hour * 60 + if hour == fromHour then fromMinute else 0)
    {
      var minute := if hour == fromHour then fromMinute else 0;
      if hour !in f.hour {
        SkipHour(f, zone, after, date, hour * 60 + minute);
      } else {
        while minute <= 59
          invariant 0 <= minute <= 60
          invariant ScanDay(f, zone, after, date, fromHour * 60 + fromMinute)
                    == ScanDay(f, zone, after, date, hour * 60 + minute)
        {
          if minute in f.minute {
            var ts := UtcFromWall(date.year, date.month, date.day, hour, minute, zone);
            var back := WallClock(ts, zone);
            if back.hour == hour && back.minute == minute && ts > after { return Some(ts); }
          }
          minute := minute + 1;
        }
      }
      hour := hour + 1;
    }
    hit := None;
  }

  // ---- what it finds, in any zone ----

  /** Whatever the zone does, a result is late enough and its clock shows an allowed hour and minute. */
  lemma {:induction false} ScanDayIsSound(f: Fields, zone: Zone, after: int, date: Date, k: int)
    requires IsDate(date)
    ensures ScanDay(f, zone, after, date, k).Some? ==>
              var ts := ScanDay(f, zone, after, date, k).value;
              after < ts && WallClock(ts, zone).hour in f.hour && WallClock(ts, zone).minute in f.minute
    decreases DAY_MINUTES - k
  {
    hide AtMinute, WallClock;
    if k < DAY_MINUTES { ScanDayIsSound(f, zone, after, date, k + 1); }
  }

  lemma {:induction false} ScanDaysIsSound(f: Fields, zone: Zone, after: int, date: Date, k: int, left: nat)
    requires IsDate(date)
    ensures ScanDays(f, zone, after, date, k, left).Some? ==>
              var ts := ScanDays(f, zone, after, date, k, left).value;
              after < ts && WallClock(ts, zone).hour in f.hour && WallClock(ts, zone).minute in f.minute
    decreases left
  {
    hide IsDate, DateAfter, ScanDay, NoonWall, MatchesDay, WallClock;
    if left > 0 {
      ScanDayIsSound(f, zone, after, date, k);
      ScanDaysIsSound(f, zone, after, DateAfter(date, zone), 0, left - 1);
    }
  }

  lemma NextFireIsSound(f: Fields, zone: Zone, after: int)
    ensures NextFire(f, zone, after).Some? ==>
              var ts := NextFire(f, zone, after).value;
              after < ts && WallClock(ts, zone).hour in f.hour && WallClock(ts, zone).minute in f.minute
  {
    hide WallClock, ScanDays, IsDate;
    var w := WallClock(FirstMinute(after), zone);
    ScanDaysIsSound(f, zone, after, Date(w.year, w.month, w.day), w.hour * 60 + w.minute, SEARCH_DAYS);
  }

  // ---- what it finds, on days when the offset changes rarely and by less than half a day ----

  /** Around any moment of day n there is at most one change, of whole minutes and less than twelve hours. */
  ghost predicate Gentle(zone: Zone, n: int) {
    WholeSeconds(zone) && Bounded(zone) && forall x | (n - 1) * DAY <= x <= (n + 2) * DAY :: CalmAround(zone, x)
  }

  ghost predicate CalmAround(zone: Zone, x: int) {
    exists change, a, b :: OneChange(zone, x, DAY, change, a, b) && (b - a) % MINUTE == 0 && -DAY / 2 < b - a < DAY / 2
  }

  /** The local time of minute k of day n. */
  function MinuteOfDay(n: int, k: int): int { n * DAY + k * MINUTE }

  /** The clock and calendar reading of day n, whatever the hour. */
  predicate DayMatches(f: Fields, n: int) { MatchesDay(f, Reading(MinuteOfDay(n, 720))) }

  predicate TimeMatches(f: Fields, k: int) { k / 60 in f.hour && k % 60 in f.minute }

  lemma MinuteParts(n: int, k: int)
    requires 0 <= k < DAY_MINUTES
    ensures MinuteOfDay(n, k) == n * DAY + k / 60 * HOUR + k % 60 * MINUTE
    ensures MinuteOfDay(n, k) % MINUTE == 0 && MinuteOfDay(n, k) / DAY == n && MinuteOfDay(n, k) % DAY / MINUTE == k
    ensures HourOf(MinuteOfDay(n, k)) == k / 60 && MinuteOf(MinuteOfDay(n, k)) == k % 60
  {
    SplitMinute(n, k / 60, k % 60);
    assert MinuteOfDay(n, k) == (n * 1440 + k) * MINUTE;
  }

  lemma AtMinuteIsTwoPass(n: int, k: int, zone: Zone)
    requires WholeSeconds(zone) && 0 <= k < DAY_MINUTES
    ensures AtMinute(DateOf(n), k, zone) == TwoPass(MinuteOfDay(n, k), zone)
  {
    hide WallClock, TwoPass, OffsetAt;
    MinuteParts(n, k);
    MeasuredIsExact(zone, MinuteOfDay(n, k));
  }

  /** On such days the re-check rejects the skipped minutes and nothing else, and a minute that passes
      comes out exactly. */
  lemma GentleInversion(zone: Zone, local: int)
    requires WholeSeconds(zone) && Bounded(zone) && CalmAround(zone, local) && local % MINUTE == 0
    ensures SameMinute(local, Local(zone, TwoPass(local, zone))) <==> Exists(zone, local)
    ensures Exists(zone, local) ==> Local(zone, TwoPass(local, zone)) == local
  {
    hide HourOf, MinuteOf;
    var change, a, b :| OneChange(zone, local, DAY, change, a, b) && (b - a) % MINUTE == 0
      && -DAY / 2 < b - a < DAY / 2;
    InversionAcrossChange(zone, local, change, a, b);
    RecheckRejectsSkipped(zone, local, change, a, b);
  }

  lemma CandidateMeaning(f: Fields, zone: Zone, after: int, n: int, k: int)
    requires Gentle(zone, n) && 0 <= k < DAY_MINUTES
    ensures var local := MinuteOfDay(n, k);
            Candidate(f, zone, after, DateOf(n), k)
            == if TimeMatches(f, k) && Exists(zone, local) && after < TwoPass(local, zone)
               then Some(TwoPass(local, zone)) else None
  {
    hide AtMinute, TwoPass, DateOf, CalmAround, Gentle;
    GentleMeans(zone, n, k);
    AtMinuteIsTwoPass(n, k, zone);
    MinuteParts(n, k);
    GentleInversion(zone, MinuteOfDay(n, k));
  }

  /** Minute k of day n is a time the expression names, it is not skipped, and it is late enough. */
  ghost predicate TimeFires(f: Fields, zone: Zone, after: int, n: int, k: int) {
    TimeMatches(f, k) && Exists(zone, MinuteOfDay(n, k)) && after < TwoPass(MinuteOfDay(n, k), zone)
  }

  ghost predicate Fires(f: Fields, zone: Zone, after: int, n: int, k: int) {
    0 <= k < DAY_MINUTES && DayMatches(f, n) && TimeFires(f, zone, after, n, k)
  }

  predicate Before(n: int, k: int, m: int, j: int) { n < m || (n == m && k < j) }

  /** From minute k0 of day n0, over so many days. */
  predicate InSearch(n0: int, k0: int, days: int, n: int, k: int) { n0 <= n < n0 + days && !Before(n, k, n0, k0) }

  /** A gentle day whose noon is not skipped. */
  ghost predicate PlainDay(zone: Zone, n: int) { Gentle(zone, n) && Exists(zone, MinuteOfDay(n, 720)) }

  /** The first firing minute, in the order of the wall clock. */
  ghost predicate FirstFire(f: Fields, zone: Zone, after: int, n0: int, k0: int, days: int, n: int, k: int) {
    && InSearch(n0, k0, days, n, k) && Fires(f, zone, after, n, k)
    && forall m, j | InSearch(n0, k0, days, m, j) && Before(m, j, n, k) :: !Fires(f, zone, after, m, j)
  }

  lemma {:induction false} ScanDayFirst(f: Fields, zone: Zone, after: int, n: int, k0: int) returns (k: int)
    requires Gentle(zone, n) && 0 <= k0 <= DAY_MINUTES
    ensures k0 <= k <= DAY_MINUTES && forall j | k0 <= j < k :: !TimeFires(f, zone, after, n, j)
    ensures ScanDay(f, zone, after, DateOf(n), k0)
            == if k < DAY_MINUTES then Some(TwoPass(MinuteOfDay(n, k), zone)) else None
    ensures k < DAY_MINUTES ==> TimeFires(f, zone, after, n, k)
    decreases DAY_MINUTES - k0
  {
    hide Candidate, DateOf, Gentle, TwoPass, MinuteOfDay;
    if k0 == DAY_MINUTES { return k0; }
    CandidateMeaning(f, zone, after, n, k0);
    if TimeFires(f, zone, after, n, k0) { return k0; }
    k := ScanDayFirst(f, zone, after, n, k0 + 1);
  }

  lemma NoonIsShown(zone: Zone, n: int)
    requires Gentle(zone, n) && Exists(zone, MinuteOfDay(n, 720))
    ensures var noon := AtMinute(DateOf(n), 720, zone);
            Local(zone, noon) == MinuteOfDay(n, 720) && Local(zone, noon + DAY) / DAY == n + 1
  {
    hide AtMinute, HourOf, MinuteOf, DateOf, Gentle, TwoPass;
    GentleMeans(zone, n, 720);
    AtMinuteIsTwoPass(n, 720, zone);
    MinuteParts(n, 720);
    GentleInversion(zone, MinuteOfDay(n, 720));
    DayLater(zone, n, TwoPass(MinuteOfDay(n, 720), zone));
  }

  lemma GentleMeans(zone: Zone, n: int, k: int)
    requires Gentle(zone, n) && 0 <= k < DAY_MINUTES
    ensures WholeSeconds(zone) && Bounded(zone) && CalmAround(zone, MinuteOfDay(n, k))
  {
    hide CalmAround;
    assert n * DAY <= MinuteOfDay(n, k) < (n + 1) * DAY;
  }

  /** Stepping from noon to noon through the wall clock is stepping through the calendar. */
  lemma NoonSteps(zone: Zone, n: int)
    requires Gentle(zone, n) && Exists(zone, MinuteOfDay(n, 720))
    ensures NoonWall(DateOf(n), zone) == Reading(MinuteOfDay(n, 720))
    ensures DateAfter(DateOf(n), zone) == DateOf(n + 1)
  {
    hide AtMinute, HourOf, MinuteOf, DateOf, Gentle, MinuteOfDay, IsDate, DayNumber, YearStart, WeekdayOf;
    NoonIsShown(zone, n);
  }

  lemma DayLater(zone: Zone, n: int, noon: int)
    requires Gentle(zone, n) && Local(zone, noon) == MinuteOfDay(n, 720)
    ensures Local(zone, noon + DAY) / DAY == n + 1
  {
    assert CalmAround(zone, noon) by {
      hide CalmAround;
      assert -DAY < zone(noon) < DAY;
    }
  }

  lemma {:induction false} ScanDaysFirst(f: Fields, zone: Zone, after: int, n0: int, k0: int, days: nat, plain: nat)
    returns (found: bool, n: int, k: int)
    requires 0 <= k0 <= DAY_MINUTES && plain <= days && forall m | n0 <= m < n0 + plain :: PlainDay(zone, m)
    ensures var r := ScanDays(f, zone, after, DateOf(n0), k0, days);
            if found then
              r == Some(TwoPass(MinuteOfDay(n, k), zone)) && FirstFire(f, zone, after, n0, k0, plain, n, k)
            else
              && (forall m, j | InSearch(n0, k0, plain, m, j) :: !Fires(f, zone, after, m, j))
              && (plain == days ==> r.None?)
    decreases days
  {
    hide ScanDay, NoonWall, DateAfter, DateOf, Gentle, TwoPass, MatchesDay, MinuteOfDay, Exists, TimeFires;
    found, n, k := false, n0, k0;
    if plain > 0 {
      assert PlainDay(zone, n0);
      NoonSteps(zone, n0);
      k := ScanDayFirst(f, zone, after, n0, k0);
      found := DayMatches(f, n0) && k < DAY_MINUTES;
      if !found {
        forall j | k0 <= j ensures !Fires(f, zone, after, n0, j) {}
        found, n, k := ScanDaysFirst(f, zone, after, n0 + 1, 0, days - 1, plain - 1);
      }
    }
  }

  /** Every field of the expression, at this very minute of the wall clock. */
  predicate MatchesWall(f: Fields, w: Wall) {
    MatchesDay(f, w) && w.hour in f.hour && w.minute in f.minute && w.second == 0
  }

  lemma ReadingWithinDay(f: Fields, n: int, k: int)
    requires 0 <= k < DAY_MINUTES
    ensures MatchesWall(f, Reading(MinuteOfDay(n, k))) <==> DayMatches(f, n) && TimeMatches(f, k)
  {
    hide Reading, DateOf, IsDate, WeekdayOf, HourOf, MinuteOf;
    MinuteParts(n, k);
    MinuteParts(n, 720);
    ReadingOfMinute(n, k / 60, k % 60);
    ReadingOfMinute(n, 12, 0);
  }

  function StartDay(zone: Zone, after: int): int { Local(zone, FirstMinute(after)) / DAY }
  function StartMinute(zone: Zone, after: int): int { Local(zone, FirstMinute(after)) % DAY / MINUTE }

  lemma StartOfSearch(f: Fields, zone: Zone, after: int)
    ensures NextFire(f, zone, after)
            == ScanDays(f, zone, after, DateOf(StartDay(zone, after)), StartMinute(zone, after), SEARCH_DAYS)
    ensures 0 <= StartMinute(zone, after) < DAY_MINUTES
  {
    hide ScanDays, DateOf, FirstMinute, IsDate;
    ClockMinutes(Local(zone, FirstMinute(after)) % DAY);
  }

  lemma ClockMinutes(rest: int)
    requires 0 <= rest < DAY
    ensures rest / MINUTE == rest / HOUR * 60 + rest % HOUR / MINUTE && 0 <= rest / MINUTE < DAY_MINUTES
  {
    DayParts(rest);
  }

  /** Take any number of days from the start of the search around which the offset changes rarely and
      moderately and skips no noon. If they hold a minute that the expression names, that is not skipped, and
      whose instant lies after `after`, then the search returns the first such minute, in the order of the
      wall clock, whatever the zone does later; the clock at the result shows exactly that minute, so all
      five fields match. If all 366 days are of that kind and hold no such minute, it returns nothing. */
  lemma NextFireIsFirst(f: Fields, zone: Zone, after: int, plain: nat) returns (found: bool, n: int, k: int)
    requires plain <= 366
    requires forall m | StartDay(zone, after) <= m < StartDay(zone, after) + plain :: PlainDay(zone, m)
    ensures var r := NextFire(f, zone, after);
            var day, minute := StartDay(zone, after), StartMinute(zone, after);
            if found then
              && r.Some? && FirstFire(f, zone, after, day, minute, plain, n, k)
              && after < r.value && Local(zone, r.value) == MinuteOfDay(n, k)
              && MatchesWall(f, WallClock(r.value, zone))
            else
              && (forall m, j | InSearch(day, minute, plain, m, j) :: !Fires(f, zone, after, m, j))
              && (plain == SEARCH_DAYS ==> r.None?)
  {
    hide ScanDays, DateOf, Gentle, StartDay, StartMinute, MatchesWall, NextFire, DayMatches, TimeMatches, Reading,
         Exists, MinuteOfDay;
    StartOfSearch(f, zone, after);
    found, n, k := ScanDaysFirst(f, zone, after, StartDay(zone, after), StartMinute(zone, after), SEARCH_DAYS, plain);
    if found {
      assert PlainDay(zone, n);
      ReadingWithinDay(f, n, k);
      MinuteParts(n, k);
      GentleMeans(zone, n, k);
      GentleInversion(zone, MinuteOfDay(n, k));
    }
  }

  // ---- what it finds, in a zone with a fixed offset ----

  function Fixed(offset: int): Zone { _ => offset }

  lemma FixedIsCalm(offset: int, x: int)
    ensures CalmAround(Fixed(offset), x)
  {
    assert OneChange(Fixed(offset), x, DAY, x, offset, offset);
  }

  lemma FixedIsGentle(offset: int)
    requires offset % MINUTE == 0 && -DAY < offset < DAY
    ensures forall n :: Gentle(Fixed(offset), n)
    ensures forall local :: Exists(Fixed(offset), local) && TwoPass(local, Fixed(offset)) == local - offset
  {
    var zone := Fixed(offset);
    forall x ensures CalmAround(zone, x) { FixedIsCalm(offset, x); }
    hide CalmAround;
    forall local ensures Exists(zone, local) { assert Shows(zone, local, local - offset); }
    assert offset % 1000 == 0 by { assert offset == offset / MINUTE * 60 * 1000; }
  }

  /** A whole minute at which all five fields match. */
  predicate MatchesAt(f: Fields, offset: int, ts: int) { ts % MINUTE == 0 && MatchesWall(f, Reading(ts + offset)) }

  function DayAt(offset: int, ts: int): int { (ts + offset) / DAY }
  function MinuteAt(offset: int, ts: int): int { (ts + offset) % DAY / MINUTE }

  lemma MinuteAtFacts(offset: int, ts: int)
    requires offset % MINUTE == 0 && ts % MINUTE == 0
    ensures 0 <= MinuteAt(offset, ts) < DAY_MINUTES
    ensures MinuteOfDay(DayAt(offset, ts), MinuteAt(offset, ts)) == ts + offset
  {
    assert (ts + offset) % MINUTE == 0;
    WholeMinuteParts(ts + offset);
  }

  lemma WholeMinuteParts(local: int)
    requires local % MINUTE == 0
    ensures 0 <= local % DAY / MINUTE < DAY_MINUTES && MinuteOfDay(local / DAY, local % DAY / MINUTE) == local
  {
    var k := local / MINUTE;
    assert local == k / 1440 * DAY + k % 1440 * MINUTE;
  }

  /** For whole minutes, firing after `after` and matching all fields are one thing. */
  lemma FiresIsMatching(f: Fields, offset: int, after: int, ts: int)
    requires offset % MINUTE == 0 && -DAY < offset < DAY && ts % MINUTE == 0 && after < ts
    ensures Fires(f, Fixed(offset), after, DayAt(offset, ts), MinuteAt(offset, ts)) <==> MatchesAt(f, offset, ts)
  {
    hide Reading, MatchesWall, DayMatches, TimeMatches, Gentle, DayAt, MinuteAt, MinuteOfDay;
    FixedIsGentle(offset);
    MinuteAtFacts(offset, ts);
    ReadingWithinDay(f, DayAt(offset, ts), MinuteAt(offset, ts));
  }

  lemma LaterIsInSearch(offset: int, after: int, ts: int)
    requires offset % MINUTE == 0 && ts % MINUTE == 0 && after < ts
    requires DayAt(offset, ts) < StartDay(Fixed(offset), after) + SEARCH_DAYS
    ensures InSearch(StartDay(Fixed(offset), after), StartMinute(Fixed(offset), after), SEARCH_DAYS,
                     DayAt(offset, ts), MinuteAt(offset, ts))
  {
    var first := FirstMinute(after);
    assert first <= ts by { assert ts == ts / MINUTE * MINUTE && after / MINUTE < ts / MINUTE; }
    Ordered(first + offset, ts + offset);
  }

  lemma Ordered(x: int, y: int)
    requires x <= y
    ensures x / DAY <= y / DAY && (x / DAY == y / DAY ==> x % DAY / MINUTE <= y % DAY / MINUTE)
  {
  }

  lemma EarlierIsBefore(offset: int, s: int, t: int)
    requires offset % MINUTE == 0 && s % MINUTE == 0 && t % MINUTE == 0 && s < t
    ensures Before(DayAt(offset, s), MinuteAt(offset, s), DayAt(offset, t), MinuteAt(offset, t))
  {
    Ordered(s + offset, t + offset);
    MinuteAtFacts(offset, s);
    MinuteAtFacts(offset, t);
  }

  /** For a fixed offset of whole minutes the search refines the plain definition: it returns the least
      whole minute after `after` at which all five fields match, within 366 local days, and nothing exactly
      when there is none. */
  lemma NextFireIsLeast(f: Fields, offset: int, after: int)
    requires offset % MINUTE == 0 && -DAY < offset < DAY
    ensures var r := NextFire(f, Fixed(offset), after);
            var end := StartDay(Fixed(offset), after) + 366;
            if r.Some? then
              && after < r.value && MatchesAt(f, offset, r.value) && DayAt(offset, r.value) < end
              && forall ts | after < ts < r.value :: !MatchesAt(f, offset, ts)
            else forall ts | after < ts && DayAt(offset, ts) < end :: !MatchesAt(f, offset, ts)
  {
    hide Reading, MatchesWall, Gentle, MinuteOfDay, NextFire, StartDay, StartMinute, DayMatches, TimeFires, TwoPass,
      WallClock;
    FixedIsGentle(offset);
    var zone := Fixed(offset);
    var found, n, k := NextFireIsFirst(f, zone, after, SEARCH_DAYS);
    var r := NextFire(f, zone, after);
    if r.Some? {
      LandsOnMinute(f, offset, r.value, n, k);
    }
    forall ts | after < ts && ts % MINUTE == 0 && (r.Some? ==> ts < r.value)
                && DayAt(offset, ts) < StartDay(zone, after) + SEARCH_DAYS
      ensures !MatchesAt(f, offset, ts)
    {
      FiresIsMatching(f, offset, after, ts);
      LaterIsInSearch(offset, after, ts);
      if r.Some? { EarlierIsBefore(offset, ts, r.value); }
    }
    if r.Some? {
      forall ts | after < ts < r.value ensures DayAt(offset, ts) < StartDay(zone, after) + SEARCH_DAYS {
        Ordered(ts + offset, r.value + offset);
      }
    }
  }

  lemma LandsOnMinute(f: Fields, offset: int, ts: int, n: int, k: int)
    requires offset % MINUTE == 0 && 0 <= k < DAY_MINUTES
    requires Local(Fixed(offset), ts) == MinuteOfDay(n, k) && MatchesWall(f, WallClock(ts, Fixed(offset)))
    ensures ts % MINUTE == 0 && MatchesAt(f, offset, ts) && DayAt(offset, ts) == n && MinuteAt(offset, ts) == k
  {
    hide Reading, MatchesWall;
    MinuteParts(n, k);
  }
}

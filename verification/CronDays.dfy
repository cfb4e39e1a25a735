/** The two day fields of a cron expression, from its text to the time it fires. An expression whose day of the
    month and weekday both restrict fires when either of the expressions fires that leave one of them free. */
module CronDays {
  import opened Calendar
  import opened CronParse
  import opened CronSchedule
  import opened WallTime
  import opened Wrappers

  /** A field that is just a star. */
  const STAR: seq<Piece> := [Piece(Star, None)]

  datatype Bounds = Bounds(min: int, max: int)

  /** Minute, hour, day of the month, month and weekday. */
  const BOUNDS: seq<Bounds> := [Bounds(0, 59), Bounds(0, 23), Bounds(1, 31), Bounds(1, 12), Bounds(0, 7)]

  /** The value set of field i of an expression. */
  ghost predicate Means(field: seq<Piece>, i: nat, values: set<int>)
    requires i < 5
  {
    forall v :: v in values <==> Allowed(field, i == 4, BOUNDS[i].min, BOUNDS[i].max, v)
  }

  predicate Rejected(field: seq<Piece>, i: nat)
    requires i < 5
  {
    exists p | p in field :: StepsOf(p, BOUNDS[i].min, BOUNDS[i].max).None?
  }

  /** f is what the five fields say; a day field restricts unless it is just a star. */
  ghost predicate Parsed(text: seq<seq<Piece>>, f: Fields)
    requires |text| == 5
  {
    && Means(text[0], 0, f.minute) && Means(text[1], 1, f.hour) && Means(text[2], 2, f.dom)
    && Means(text[3], 3, f.month) && Means(text[4], 4, f.dow)
    && (f.domRestricted <==> text[2] != STAR) && (f.dowRestricted <==> text[4] != STAR)
  }

  method ParseCron(text: seq<seq<Piece>>) returns (parsed: Option<Fields>)
    ensures parsed.None? <==> |text| != 5 || exists i: nat | i < 5 :: Rejected(text[i], i)
    ensures parsed.Some? ==> Parsed(text, parsed.value)
  {
    hide Allowed, StepsOf;
    if |text| != 5 { return None; }
    var minute := ParseField(text[0], false, 0, 59);
    var hour := ParseField(text[1], false, 0, 23);
    var dom := ParseField(text[2], false, 1, 31);
    var month := ParseField(text[3], false, 1, 12);
    var dow := ParseField(text[4], true, 0, 7);
    assert minute.None? == Rejected(text[0], 0) && hour.None? == Rejected(text[1], 1);
    assert dom.None? == Rejected(text[2], 2) && month.None? == Rejected(text[3], 3);
    assert dow.None? == Rejected(text[4], 4);
    if minute.None? || hour.None? || dom.None? || month.None? || dow.None? { return None; }
    parsed := Some(Fields(minute.value, hour.value, dom.value, month.value, dow.value,
                          text[2] != STAR, text[4] != STAR));
  }

  lemma StarAllowsAll(weekday: bool, min: int, max: int, v: int)
    requires min <= max && (weekday ==> min == 0 && max == 7)
    ensures Allowed(STAR, weekday, min, max, v) <==> min <= v <= (if weekday then 6 else max)
  {
    assert STAR[0] in STAR;
    assert OnStep(Steps(min, max, 1), v);
    assert Named(STAR[0], min, max, v) <==> min <= v <= max;
  }

  /** Which days an expression names: a day field that is just a star leaves the day to the other one; two that
      restrict are each enough. */
  lemma DayRule(text: seq<seq<Piece>>, f: Fields, w: Wall)
    requires |text| == 5 && Parsed(text, f) && 1 <= w.day <= 31 && 0 <= w.dow <= 6
    ensures var byDate, byWeekday := Allowed(text[2], false, 1, 31, w.day), Allowed(text[4], true, 0, 7, w.dow);
            MatchesDay(f, w) <==>
              && Allowed(text[3], false, 1, 12, w.month)
              && (text[2] == STAR ==> byWeekday)
              && (text[4] == STAR ==> byDate)
              && (text[2] != STAR && text[4] != STAR ==> byDate || byWeekday)
  {
    hide Allowed;
    StarAllowsAll(false, 1, 31, w.day);
    StarAllowsAll(true, 0, 7, w.dow);
  }

  lemma MeaningIsUnique(field: seq<Piece>, i: nat, a: set<int>, b: set<int>)
    requires i < 5 && Means(field, i, a) && Means(field, i, b)
    ensures a == b
  {
    hide Allowed;
    assert forall v :: v in a <==> v in b;
  }

  /** f gives both days, g leaves the weekday free, h the day of the month, and they agree on everything else. */
  ghost predicate Siblings(f: Fields, g: Fields, h: Fields) {
    exists text: seq<seq<Piece>> ::
      && |text| == 5 && text[2] != STAR && text[4] != STAR
      && Parsed(text, f) && Parsed(text[4 := STAR], g) && Parsed(text[2 := STAR], h)
  }

  /** With both day fields restricted, the days of an expression are those of the expression with its weekday
      replaced by a star and those of the expression with its day of the month replaced by a star. */
  lemma EitherDayWillDo(f: Fields, g: Fields, h: Fields, w: Wall)
    requires Siblings(f, g, h) && 1 <= w.day <= 31 && 0 <= w.dow <= 6
    ensures MatchesDay(f, w) <==> MatchesDay(g, w) || MatchesDay(h, w)
    ensures f.hour == g.hour == h.hour && f.minute == g.minute == h.minute
  {
    hide Allowed, MatchesDay, Means;
    var text: seq<seq<Piece>> :| |text| == 5 && text[2] != STAR && text[4] != STAR
      && Parsed(text, f) && Parsed(text[4 := STAR], g) && Parsed(text[2 := STAR], h);
    DayRule(text, f, w);
    DayRule(text[4 := STAR], g, w);
    DayRule(text[2 := STAR], h, w);
    StarAllowsAll(false, 1, 31, w.day);
    StarAllowsAll(true, 0, 7, w.dow);
    MeaningIsUnique(text[0], 0, f.minute, g.minute);
    MeaningIsUnique(text[0], 0, f.minute, h.minute);
    MeaningIsUnique(text[1], 1, f.hour, g.hour);
    MeaningIsUnique(text[1], 1, f.hour, h.hour);
  }

  function Earlier(a: Option<int>, b: Option<int>): Option<int> {
    if a.None? then b else if b.None? || a.value <= b.value then a else b
  }

  /** So where the offset is fixed, it fires next when the earlier of the two does, and never if neither does. */
  lemma FiresAtTheEarlier(f: Fields, g: Fields, h: Fields, offset: int, after: int)
    requires Siblings(f, g, h) && offset % MINUTE == 0 && -DAY < offset < DAY
    ensures NextFire(f, Fixed(offset), after)
            == Earlier(NextFire(g, Fixed(offset), after), NextFire(h, Fixed(offset), after))
  {
    hide NextFire, MatchesAt, StartDay, Siblings, DayAt;
    NextFireIsLeast(f, offset, after);
    NextFireIsLeast(g, offset, after);
    NextFireIsLeast(h, offset, after);
    forall ts ensures MatchesAt(f, offset, ts) <==> MatchesAt(g, offset, ts) || MatchesAt(h, offset, ts) {
      MatchesEither(f, g, h, offset, ts);
    }
  }

  lemma MatchesEither(f: Fields, g: Fields, h: Fields, offset: int, ts: int)
    requires Siblings(f, g, h)
    ensures MatchesAt(f, offset, ts) <==> MatchesAt(g, offset, ts) || MatchesAt(h, offset, ts)
  {
    hide MatchesDay, Siblings, DateOf;
    EitherDayWillDo(f, g, h, Reading(ts + offset));
  }
}

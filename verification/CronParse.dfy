/** One field of a cron expression, from its comma-separated pieces to the set of allowed values. */
module CronParse {
  import opened Wrappers

  /** What the number parser makes of a token. */
  datatype Number = Whole(n: int) | NotWhole

  /** `a` or `a-b`; the second number is absent when there is no dash. */
  datatype Range = Star | Span(a: Number, b: Option<Number>)

  datatype Piece = Blank | Piece(range: Range, step: Option<Number>)

  datatype Steps = Steps(from: int, to: int, step: int)

  predicate IsStep(step: Option<Number>) { step.None? || (step.value.Whole? && step.value.n > 0) }

  /** The bounds and step of a piece, or nothing if the expression is rejected because of it. */
  function StepsOf(p: Piece, min: int, max: int): Option<Steps> {
    if p.Blank? || !IsStep(p.step) then None
    else
      var step := if p.step.None? then 1 else p.step.value.n;
      match p.range
      case Star => if min <= max then Some(Steps(min, max, step)) else None
      case Span(a, b) =>
        if a.NotWhole? || (b.Some? && b.value.NotWhole?) then None
        else
          var to := if b.Some? then b.value.n else if p.step.None? then a.n else max;
          if a.n < min || to > max || a.n > to then None else Some(Steps(a.n, to, step))
  }

  predicate OnStep(s: Steps, v: int) { s.step > 0 && (v - s.from) % s.step == 0 }

  predicate Named(p: Piece, min: int, max: int, v: int) {
    match StepsOf(p, min, max)
    case None => false
    case Some(s) => s.from <= v <= s.to && OnStep(s, v)
  }

  /** Seven is another name for Sunday. */
  predicate Allowed(pieces: seq<Piece>, weekday: bool, min: int, max: int, v: int) {
    if weekday && v == 7 then false
    else if weekday && v == 0 then exists p | p in pieces :: Named(p, min, max, 0) || Named(p, min, max, 7)
    else exists p | p in pieces :: Named(p, min, max, v)
  }

  /** A field is rejected exactly when one of its pieces is; otherwise it allows exactly the values some
      piece names. */
  method ParseField(pieces: seq<Piece>, weekday: bool, min: int, max: int) returns (allowed: Option<set<int>>)
    ensures allowed.None? <==> exists p | p in pieces :: StepsOf(p, min, max).None?
    ensures allowed.Some? ==> forall v :: v in allowed.value <==> Allowed(pieces, weekday, min, max, v)
  {
    var values: set<int> := {};
    for i := 0 to |pieces|
      invariant forall p | p in pieces[..i] :: StepsOf(p, min, max).Some?
      invariant forall v :: v in values <==> exists p | p in pieces[..i] :: Named(p, min, max, v)
    {
      var steps := StepsOf(pieces[i], min, max);
      if steps.None? { return None; }
      var more := Walk(steps.value);
      assert forall v :: v in more <==> Named(pieces[i], min, max, v);
      assert pieces[..i + 1] == pieces[..i] + [pieces[i]];
      values := values + more;
    }
    assert pieces[..|pieces|] == pieces;
    if weekday && 7 in values { values := values - {7} + {0}; }
    allowed := Some(values);
  }

  method Walk(s: Steps) returns (values: set<int>)
    requires s.step > 0
    ensures forall v :: v in values <==> s.from <= v <= s.to && OnStep(s, v)
  {
    hide OnStep;
    values := {};
    var value := s.from;
    NextOnStep(s, value);
    while value <= s.to
      invariant s.from <= value && OnStep(s, value)
      invariant forall v :: v in values <==> s.from <= v <= s.to && v < value && OnStep(s, v)
      decreases s.to - value
    {
      NextOnStep(s, value);
      values := values + {value};
      value := value + s.step;
    }
  }

  /** From one value on the step to the next there is none between. */
  lemma NextOnStep(s: Steps, value: int)
    requires s.step > 0 && (OnStep(s, value) || value == s.from)
    ensures OnStep(s, value) && OnStep(s, value + s.step)
    ensures forall v | value < v < value + s.step :: !OnStep(s, v)
  {
    var k := (value - s.from) / s.step;
    assert value - s.from == k * s.step;
    Remainder(value + s.step - s.from, k + 1, s.step);
    forall v | value < v < value + s.step ensures !OnStep(s, v) { Remainder(v - s.from, k, s.step); }
  }

  lemma Remainder(x: int, k: int, step: int)
    requires step > 0 && k * step <= x < k * step + step
    ensures x % step == x - k * step
  {
    var q := x / step;
    assert x == q * step + x % step;
    assert q < k ==> q * step <= (k - 1) * step;
    assert q > k ==> (k + 1) * step <= q * step;
  }

  /** What a piece names, form by form: a single value stands for itself, a value with a step for itself and
      whatever follows it on the step, to the end of the field's range. */
  lemma PieceForms(a: int, b: int, step: int, min: int, max: int, v: int)
    requires min <= a <= b <= max && step > 0
    ensures Named(Piece(Star, None), min, max, v) <==> min <= v <= max
    ensures Named(Piece(Star, Some(Whole(step))), min, max, v) <==> min <= v <= max && (v - min) % step == 0
    ensures Named(Piece(Span(Whole(a), None), None), min, max, v) <==> v == a
    ensures Named(Piece(Span(Whole(a), None), Some(Whole(step))), min, max, v) <==>
            a <= v <= max && (v - a) % step == 0
    ensures Named(Piece(Span(Whole(a), Some(Whole(b))), None), min, max, v) <==> a <= v <= b
    ensures Named(Piece(Span(Whole(a), Some(Whole(b))), Some(Whole(step))), min, max, v) <==>
            a <= v <= b && (v - a) % step == 0
  {
  }

  /** A piece is rejected exactly for something that is not a number, a step below one, or numbers out of range
      or out of order. */
  lemma PieceIsRejected(p: Piece, min: int, max: int)
    requires min <= max
    ensures StepsOf(p, min, max).None? <==>
            || p.Blank? || p.step == Some(NotWhole) || (p.step.Some? && p.step.value.Whole? && p.step.value.n < 1)
            || (p.range.Span? && (p.range.a.NotWhole? || p.range.a.n < min || p.range.a.n > max))
            || (p.range.Span? && p.range.b.Some? && (p.range.b.value.NotWhole? || p.range.b.value.n > max
                                                     || p.range.b.value.n < p.range.a.n))
  {
  }

  /** The values of a field lie in its range, the weekday's within 0 to 6, and an accepted field with at
      least one piece allows something. */
  lemma FieldStaysInRange(pieces: seq<Piece>, weekday: bool, min: int, max: int, v: int)
    requires weekday ==> min == 0 && max == 7
    requires Allowed(pieces, weekday, min, max, v)
    ensures min <= v <= (if weekday then 6 else max)
  {
  }

  lemma FieldIsNotEmpty(pieces: seq<Piece>, weekday: bool, min: int, max: int)
    requires pieces != [] && forall p | p in pieces :: StepsOf(p, min, max).Some?
    ensures exists v :: Allowed(pieces, weekday, min, max, v)
  {
    var s := StepsOf(pieces[0], min, max).value;
    assert OnStep(s, s.from);
    assert pieces[0] in pieces && Named(pieces[0], min, max, s.from);
    assert Allowed(pieces, weekday, min, max, if weekday && s.from == 7 then 0 else s.from);
  }
}

/** Encoder arithmetic (custom_components/nice_bidiwifi/position.py): raw positions and
    percentages, for encoders that count up and encoders that count down while opening. */
module Encoder {
  import opened Prelude
  import opened Position

  /** A HomeAssistantError names what is wrong with the endpoints. */
  datatype Checked<+T> = Ok(value: T) | NotAvailable | Identical

  /** `_raw_for_percent`. */
  function RawForPercent(closed: Option<int>, open: Option<int>, percent: real): Checked<int>
  {
    if closed.None? || open.None? then NotAvailable
    else Ok(RoundHalfEven(RawPoint(closed.value, open.value, percent)))
  }

  /** The raw position before rounding. */
  function RawPoint(closed: int, open: int, percent: real): real
  {
    closed as real + (open - closed) as real * (percent / 100.0)
  }

  /** `_percent_for_raw`. */
  function PercentForRaw(closed: Option<int>, open: Option<int>, raw: int): Checked<real>
  {
    if closed.None? || open.None? then NotAvailable
    else if open.value == closed.value then Identical
    else Ok(Fraction(closed.value, open.value, raw))
  }

  function Fraction(closed: int, open: int, raw: int): real
    requires closed != open
  {
    Clamp((raw - closed) as real / (open - closed) as real * 100.0)
  }

  /** `_raw_reached`. */
  function RawReached(action: Action, closed: Option<int>, open: Option<int>, current: int, target: int): Checked<bool>
  {
    if closed.None? || open.None? then NotAvailable
    else
      var increasing := open.value > closed.value;
      Ok(if action.Open? then (if increasing then current >= target else current <= target)
         else (if increasing then current <= target else current >= target))
  }

  /** `_position_reached`. */
  predicate PositionReached(action: Action, position: real, target: real)
  {
    if action.Open? then position >= target else position <= target
  }

  /** `_clamp_raw`. */
  function ClampRaw(closed: Option<int>, open: Option<int>, raw: int): Checked<int>
  {
    if closed.None? || open.None? then NotAvailable
    else
      var lower := if closed.value <= open.value then closed.value else open.value;
      var upper := if closed.value <= open.value then open.value else closed.value;
      Ok(if raw <= lower then lower else if raw >= upper then upper else raw)
  }

  predicate Between(closed: int, open: int, raw: int)
  {
    closed <= raw <= open || open <= raw <= closed
  }

  /** A quotient of raw distances inside the span lies between 0 and 1. */
  lemma RatioBounds(closed: int, open: int, raw: int)
    requires closed != open && Between(closed, open, raw)
    ensures 0.0 <= (raw - closed) as real / (open - closed) as real <= 1.0
  {
    var d, span := (raw - closed) as real, (open - closed) as real;
    Quotient(d, span);
    ProductOrder(0.0, d / span, span);
    ProductOrder(d / span, 1.0, span);
  }

  lemma FractionInside(closed: int, open: int, raw: int)
    requires closed != open && Between(closed, open, raw)
    ensures Fraction(closed, open, raw) == (raw - closed) as real / (open - closed) as real * 100.0
  {
    RatioBounds(closed, open, raw);
  }

  /** Raw to percent and back is the identity inside the bounds, in both orientations. */
  lemma RawRoundTrip(closed: int, open: int, raw: int)
    requires closed != open && Between(closed, open, raw)
    ensures PercentForRaw(Some(closed), Some(open), raw).Ok?
    ensures RawForPercent(Some(closed), Some(open), PercentForRaw(Some(closed), Some(open), raw).value) == Ok(raw)
  {
    hide RoundHalfEven, Fraction;
    FractionInside(closed, open, raw);
    var d, span := (raw - closed) as real, (open - closed) as real;
    Quotient(d, span);
    var percent := Fraction(closed, open, raw);
    assert percent / 100.0 == d / span;
    assert RawPoint(closed, open, percent) == raw as real;
    RoundInteger(raw);
  }

  /** A point between the ends of the span rounds to a raw position between them. */
  lemma RoundsBetween(closed: int, open: int, x: real)
    requires closed as real <= x <= open as real || open as real <= x <= closed as real
    ensures Between(closed, open, RoundHalfEven(x))
  {
    hide RoundHalfEven;
    RoundInteger(closed);
    RoundInteger(open);
    if closed as real <= x <= open as real {
      RoundMonotone(closed as real, x);
      RoundMonotone(x, open as real);
    } else {
      RoundMonotone(open as real, x);
      RoundMonotone(x, closed as real);
    }
  }

  /** The raw position for a percentage lies inside the bounds. */
  lemma RawInBounds(closed: int, open: int, percent: real)
    requires Percent(percent)
    ensures Between(closed, open, RawForPercent(Some(closed), Some(open), percent).value)
  {
    hide RoundHalfEven;
    PointBetween(closed as real, (open - closed) as real, percent / 100.0);
    RoundsBetween(closed, open, RawPoint(closed, open, percent));
  }

  lemma PointBetween(start: real, span: real, ratio: real)
    requires 0.0 <= ratio <= 1.0
    ensures start <= start + span * ratio <= start + span || start + span <= start + span * ratio <= start
  {
    if span != 0.0 {
      ProductOrder(0.0, ratio, span);
      ProductOrder(ratio, 1.0, span);
      assert ratio * span == span * ratio;
    }
  }

  /** Percent to raw and back errs by at most half a raw step. */
  lemma PercentRoundTrip(closed: int, open: int, percent: real)
    requires closed != open && Percent(percent)
    ensures var raw := RawForPercent(Some(closed), Some(open), percent).value;
            Abs(PercentForRaw(Some(closed), Some(open), raw).value - percent)
            <= 50.0 / Abs((open - closed) as real)
  {
    hide RoundHalfEven, Between, Fraction;
    var span := (open - closed) as real;
    var r := percent / 100.0;
    var x := RawPoint(closed, open, percent);
    var raw := RoundHalfEven(x);
    RawInBounds(closed, open, percent);
    FractionInside(closed, open, raw);
    var q := (raw - closed) as real / span;
    Quotient((raw - closed) as real, span);
    Distribute(q, r, span);
    assert r * span == span * r;
    assert (q - r) * span == raw as real - x;
    ErrorBound(q - r, span);
  }

  lemma AbsProduct(x: real, y: real)
    ensures Abs(x) * Abs(y) == Abs(x * y)
  {
    if x >= 0.0 {
      if y >= 0.0 { ProductNonNegative(x, y); } else { ProductNonNegative(x, -y); }
    } else {
      if y >= 0.0 { ProductNonNegative(-x, y); } else { ProductNonNegative(-x, -y); }
    }
  }

  lemma ErrorBound(error: real, span: real)
    requires span != 0.0 && Abs(error * span) <= 0.5
    ensures Abs(error) * 100.0 <= 50.0 / Abs(span)
  {
    hide Abs;
    var e, s := Abs(error), Abs(span);
    AbsProduct(error, span);
    AbsPositive(span);
    Scaled(e, s, 100.0);
    Quotient(50.0, s);
    ProductOrder(e * 100.0, 50.0 / s, s);
  }

  lemma AbsPositive(x: real)
    requires x != 0.0
    ensures Abs(x) > 0.0
  {
  }

  lemma Scaled(x: real, y: real, c: real)
    ensures (x * c) * y == (x * y) * c
  {
  }

  /** Inside the bounds the percentage orders raw positions as the orientation does. */
  lemma FractionOrders(closed: int, open: int, a: int, b: int)
    requires closed != open && Between(closed, open, a) && Between(closed, open, b)
    ensures Fraction(closed, open, a) <= Fraction(closed, open, b)
            <==> if open > closed then a <= b else b <= a
  {
    hide Fraction;
    FractionInside(closed, open, a);
    FractionInside(closed, open, b);
    QuotientOrder((a - closed) as real, (b - closed) as real, (open - closed) as real);
  }

  lemma QuotientOrder(x: real, y: real, span: real)
    requires span != 0.0
    ensures x / span <= y / span <==> if span > 0.0 then x <= y else y <= x
  {
    Quotient(x, span);
    Quotient(y, span);
    ProductOrder(x / span, y / span, span);
  }

  /** Comparing raw positions inside the bounds is comparing percentages, whichever way the
      encoder counts. */
  lemma RawReachedAgrees(action: Action, closed: int, open: int, current: int, target: int)
    requires closed != open && Between(closed, open, current) && Between(closed, open, target)
    ensures RawReached(action, Some(closed), Some(open), current, target)
            == Ok(PositionReached(action, Fraction(closed, open, current), Fraction(closed, open, target)))
  {
    FractionOrders(closed, open, current, target);
    FractionOrders(closed, open, target, current);
  }

  /** Clamping the raw position changes no percentage. */
  lemma ClampRawKeepsPercent(closed: int, open: int, raw: int)
    requires closed != open
    ensures ClampRaw(Some(closed), Some(open), raw).Ok?
    ensures var clamped := ClampRaw(Some(closed), Some(open), raw).value;
            && Between(closed, open, clamped)
            && (Between(closed, open, raw) ==> clamped == raw)
            && Fraction(closed, open, clamped) == Fraction(closed, open, raw)
  {
    var span := (open - closed) as real;
    var d := (raw - closed) as real;
    Quotient(d, span);
    Quotient(span, span);
    ProductOrder(0.0, d / span, span);
    ProductOrder(d / span, 0.0, span);
    ProductOrder(d / span, 1.0, span);
    ProductOrder(1.0, d / span, span);
    ProductOrder(span / span, 1.0, span);
    ProductOrder(1.0, span / span, span);
  }

  /** `status_from_dmp_registers` reports a position only with usable endpoints
      (custom_components/nice_bidiwifi/protocol/t4/status.py). */
  function StatusPosition(current: Option<int>, closed: Option<int>, open: Option<int>): (r: Option<real>)
    ensures r.Some? <==> current.Some? && closed.Some? && open.Some? && closed != open
    ensures OptionalPercent(r)
  {
    if current.Some? && open.Some? && closed.Some? && open.value != closed.value then
      Round1Percent(Fraction(closed.value, open.value, current.value));
      Some(Round1(Fraction(closed.value, open.value, current.value)))
    else None
  }

  /** What a percentage rounded to a tenth tells of a raw position: the ends read as themselves, raws
      beyond an end as that end, and inside the percentage is within half a tenth of the way. */
  predicate ReadsAs(closed: int, open: int, raw: int, v: real)
  {
    && 0.0 <= v <= 100.0
    && ((if open > closed then raw <= closed else raw >= closed) ==> v == 0.0)
    && ((if open > closed then raw >= open else raw <= open) ==> v == 100.0)
    && (Between(closed, open, raw) ==>
          Abs(closed as real + (open - closed) as real * v / 100.0 - raw as real)
          <= 0.0005 * Abs((open - closed) as real))
  }

  /** Percentages order raw positions as the orientation does, beyond the ends too. */
  lemma FractionMonotone(closed: int, open: int, a: int, b: int)
    requires closed != open && if open > closed then a <= b else b <= a
    ensures Fraction(closed, open, a) <= Fraction(closed, open, b)
  {
    QuotientOrder((a - closed) as real, (b - closed) as real, (open - closed) as real);
  }

  lemma FractionEnds(closed: int, open: int)
    requires closed != open
    ensures Fraction(closed, open, closed) == 0.0 && Fraction(closed, open, open) == 100.0
  {
    var span := (open - closed) as real;
    Quotient(span, span);
    ProductOrder(span / span, 1.0, span);
    ProductOrder(1.0, span / span, span);
    Quotient(0.0, span);
    ProductOrder(0.0 / span, 0.0, span);
    ProductOrder(0.0, 0.0 / span, span);
  }

  lemma FractionReads(closed: int, open: int, raw: int)
    requires closed != open
    ensures ReadsAs(closed, open, raw, Round1(Fraction(closed, open, raw)))
  {
    hide Fraction, RoundHalfEven;
    var exact := Fraction(closed, open, raw);
    FractionEnds(closed, open);
    FractionIsPercent(closed, open, raw);
    if if open > closed then raw <= closed else raw >= closed {
      FractionMonotone(closed, open, raw, closed);
    }
    if if open > closed then raw >= open else raw <= open {
      FractionMonotone(closed, open, open, raw);
    }
    RoundInteger(0);
    RoundInteger(1000);
    Round1Percent(exact);
    if Between(closed, open, raw) {
      FractionInside(closed, open, raw);
      Quotient((raw - closed) as real, (open - closed) as real);
      RoundingError((open - closed) as real, exact, Round1(exact), (raw - closed) as real);
    }
  }

  lemma FractionIsPercent(closed: int, open: int, raw: int)
    requires closed != open
    ensures Percent(Fraction(closed, open, raw))
  {
  }

  lemma Round1Error(x: real)
    ensures Abs(Round1(x) - x) <= 0.05
  {
  }

  lemma RoundingError(span: real, exact: real, rounded: real, way: real)
    requires span != 0.0 && exact == way / span * 100.0 && rounded == Round1(exact)
    ensures Abs(span * rounded / 100.0 - way) <= 0.0005 * Abs(span)
  {
    Round1Error(exact);
    Quotient(way, span);
    hide Round1;
    ScaledError(span, way / span * 100.0, rounded, way);
  }

  lemma ScaledError(span: real, exact: real, rounded: real, way: real)
    requires span * exact == 100.0 * way && Abs(rounded - exact) <= 0.05
    ensures Abs(span * rounded / 100.0 - way) <= 0.0005 * Abs(span)
  {
    var off := MissedWay(rounded, exact, span);
    Hundredth(off, span * rounded, span * exact, way, Abs(span));
  }

  lemma MissedWay(rounded: real, exact: real, span: real) returns (off: real)
    requires Abs(rounded - exact) <= 0.05
    ensures off == span * rounded - span * exact && Abs(off) <= 0.05 * Abs(span)
  {
    var error := rounded - exact;
    off := error * span;
    Distribute(rounded, exact, span);
    AbsProduct(error, span);
    ProductBound(Abs(error), 0.05, span);
  }

  lemma Hundredth(off: real, product: real, whole: real, way: real, size: real)
    requires off == product - whole && whole == 100.0 * way && Abs(off) <= 0.05 * size
    ensures Abs(product / 100.0 - way) <= 0.0005 * size
  {
  }

  lemma ProductBound(x: real, bound: real, span: real)
    requires x <= bound
    ensures x * Abs(span) <= bound * Abs(span)
  {
    ProductNonNegative(bound - x, Abs(span));
    Distribute(bound, x, Abs(span));
  }

  /** A polled position tells the encoder's raw position in both orientations. */
  lemma StatusPositionReads(current: int, closed: int, open: int)
    requires closed != open
    ensures var position := StatusPosition(Some(current), Some(closed), Some(open));
            position.Some? && ReadsAs(closed, open, current, position.value)
  {
    FractionReads(closed, open, current);
  }

  /** And raw positions nearer to open never read lower. */
  lemma StatusPositionOrder(a: int, b: int, closed: int, open: int)
    requires closed != open && if open > closed then a <= b else b <= a
    ensures StatusPosition(Some(a), Some(closed), Some(open)).value
            <= StatusPosition(Some(b), Some(closed), Some(open)).value
  {
    hide Fraction, RoundHalfEven;
    FractionMonotone(closed, open, a, b);
    RoundMonotone(Fraction(closed, open, a) * 10.0, Fraction(closed, open, b) * 10.0);
  }
}

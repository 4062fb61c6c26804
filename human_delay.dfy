/**
 * `HumanBehaviorSettings` and `_calculate_human_delay`: the pacing interval the
 * dispatch loop sleeps between cycles. The random draws and the clock reading
 * (hour of day, weekday) are parameters; arithmetic is over `real`.
 */
module HumanDelay {
  import opened Wrappers

  datatype Settings = Settings(
    minDelay: real,
    maxDelay: real,
    peakStart: int,
    peakEnd: int,
    weekendFactor: real,
    burstProbability: real,
    burstSize: int,
    idleProbability: real)

  /** The dataclass defaults. */
  const Defaults := Settings(5.0, 20.0, 9, 17, 0.3, 0.1, 3, 0.05)

  /** `random.uniform(a, b)` returns a value between its bounds in either order. */
  predicate Between(x: real, a: real, b: real) {
    (a <= x <= b) || (b <= x <= a)
  }

  /**
   * The three draws of one delay computation: the uniform base
   * (`random.uniform(min, max)`), the idle coin (`random.random()`) and the
   * idle factor (`random.uniform(2.0, 5.0)`).
   */
  datatype Draws = Draws(base: real, idleCoin: real, idleFactor: real)

  predicate DrawsFit(s: Settings, d: Draws) {
    Between(d.base, s.minDelay, s.maxDelay) && 0.0 <= d.idleCoin < 1.0 && 2.0 <= d.idleFactor <= 5.0
  }

  /** `now.weekday() >= 5`: Saturday or Sunday. */
  predicate IsWeekend(weekday: int) {
    weekday >= 5
  }

  predicate OffPeak(s: Settings, hour: int) {
    hour < s.peakStart || hour > s.peakEnd
  }

  predicate IdleDrawn(s: Settings, d: Draws) {
    d.idleCoin < s.idleProbability
  }

  /** `1 / weekend_factor` on a weekend, 1 otherwise. */
  function WeekendMultiplier(s: Settings, weekday: int): real
    requires !(IsWeekend(weekday) && s.weekendFactor == 0.0)
  {
    if IsWeekend(weekday) then 1.0 / s.weekendFactor else 1.0
  }

  /** 2 outside the peak window, 1 inside it. */
  function PeakMultiplier(s: Settings, hour: int): real {
    if OffPeak(s, hour) then 2.0 else 1.0
  }

  /** The idle factor when the idle coin comes up, 1 otherwise. */
  function IdleMultiplier(s: Settings, d: Draws): real {
    if IdleDrawn(s, d) then d.idleFactor else 1.0
  }

  /**
   * The delay, or `None` where Python raises: `1.0 / weekend_factor` with a
   * zero factor on a weekend is a ZeroDivisionError. Each `base_delay *= x`
   * that the source applies conditionally is a multiplication by an active
   * factor or by 1.
   */
  function Delay(s: Settings, hour: int, weekday: int, d: Draws): (r: Option<real>)
    requires DrawsFit(s, d)
    ensures r.None? <==> IsWeekend(weekday) && s.weekendFactor == 0.0
  {
    if IsWeekend(weekday) && s.weekendFactor == 0.0 then None
    else Some(d.base * WeekendMultiplier(s, weekday) * PeakMultiplier(s, hour) * IdleMultiplier(s, d))
  }

  /** The product of the multipliers that are active for this clock reading and these draws. */
  function Multiplier(s: Settings, hour: int, weekday: int, d: Draws): real
    requires s.weekendFactor != 0.0
  {
    WeekendMultiplier(s, weekday) * PeakMultiplier(s, hour) * IdleMultiplier(s, d)
  }

  lemma MulMono(x: real, y: real, m: real)
    requires x <= y && 0.0 <= m
    ensures x * m <= y * m
  {
  }

  lemma MulAssoc(a: real, b: real, c: real)
    ensures (a * b) * c == a * (b * c)
  {
  }

  lemma ProductBounds(a: real, b: real, la: real, ua: real, lb: real, ub: real)
    requires 0.0 <= la <= a <= ua && 0.0 <= lb <= b <= ub
    ensures la * lb <= a * b <= ua * ub
  {
    MulMono(la, a, lb);
    MulMono(lb, b, a);
    MulMono(a, ua, b);
    MulMono(b, ub, ua);
  }

  /** With a non-zero weekend factor the delay is the base draw times the active multipliers. */
  lemma DelayIsBaseTimesMultiplier(s: Settings, hour: int, weekday: int, d: Draws)
    requires DrawsFit(s, d) && s.weekendFactor != 0.0
    ensures Delay(s, hour, weekday, d).Some?
    ensures Delay(s, hour, weekday, d).value == d.base * Multiplier(s, hour, weekday, d)
  {
    var w, p, i := WeekendMultiplier(s, weekday), PeakMultiplier(s, hour), IdleMultiplier(s, d);
    MulAssoc(d.base, w, p);
    MulAssoc(d.base, w * p, i);
  }

  /**
   * The delay lies in `[min_delay, max_delay]` scaled by the active
   * multipliers, and every multiplier is at least 1 when the weekend factor is
   * in (0, 1], so the delay is never below `min_delay`.
   */
  lemma DelayEnvelope(s: Settings, hour: int, weekday: int, d: Draws)
    requires DrawsFit(s, d)
    requires 0.0 < s.minDelay <= s.maxDelay
    requires 0.0 < s.weekendFactor <= 1.0
    ensures Delay(s, hour, weekday, d).Some?
    ensures s.minDelay * Multiplier(s, hour, weekday, d) <= Delay(s, hour, weekday, d).value
    ensures Delay(s, hour, weekday, d).value <= s.maxDelay * Multiplier(s, hour, weekday, d)
    ensures 1.0 <= Multiplier(s, hour, weekday, d) <= 10.0 / s.weekendFactor
    ensures s.minDelay <= Delay(s, hour, weekday, d).value
  {
    DelayIsBaseTimesMultiplier(s, hour, weekday, d);
    var m := Multiplier(s, hour, weekday, d);
    MultiplierBounds(s, hour, weekday, d);
    MulMono(s.minDelay, d.base, m);
    MulMono(d.base, s.maxDelay, m);
    MulMono(1.0, m, s.minDelay);
  }

  /**
   * Whatever the order of `min_delay` and `max_delay`, the delay lies between
   * the two bounds scaled by the active multipliers, as the uniform draw lies
   * between them.
   */
  lemma DelayBetweenScaledBounds(s: Settings, hour: int, weekday: int, d: Draws)
    requires DrawsFit(s, d)
    requires 0.0 < s.weekendFactor
    ensures Delay(s, hour, weekday, d).Some?
    ensures 0.0 < Multiplier(s, hour, weekday, d)
    ensures Between(Delay(s, hour, weekday, d).value,
                    s.minDelay * Multiplier(s, hour, weekday, d), s.maxDelay * Multiplier(s, hour, weekday, d))
  {
    DelayIsBaseTimesMultiplier(s, hour, weekday, d);
    var w, p, i := WeekendMultiplier(s, weekday), PeakMultiplier(s, hour), IdleMultiplier(s, d);
    assert 0.0 < w;
    assert 0.0 < w * p by { MulMono(0.0, w, p); assert w * p >= w; }
    assert 0.0 < w * p * i by { MulMono(0.0, w * p, i); assert w * p * i >= w * p; }
    var m := Multiplier(s, hour, weekday, d);
    if s.minDelay <= d.base <= s.maxDelay {
      MulMono(s.minDelay, d.base, m);
      MulMono(d.base, s.maxDelay, m);
    } else {
      MulMono(s.maxDelay, d.base, m);
      MulMono(d.base, s.minDelay, m);
    }
  }

  /**
   * Inverted bounds are accepted, and then the delay can fall below
   * `min_delay`: with min 60 and max 10, a base draw of 10 on a weekday
   * inside the peak window, without the idle factor, gives 10.
   */
  lemma InvertedBoundsUndercutMinimum()
    ensures var s := Settings(60.0, 10.0, 9, 17, 0.3, 0.1, 3, 0.05);
      var d := Draws(10.0, 0.5, 2.0);
      && DrawsFit(s, d)
      && Delay(s, 12, 0, d) == Some(10.0)
      && Delay(s, 12, 0, d).value < s.minDelay
  {
  }

  lemma MultiplierBounds(s: Settings, hour: int, weekday: int, d: Draws)
    requires DrawsFit(s, d)
    requires 0.0 < s.weekendFactor <= 1.0
    ensures 1.0 <= Multiplier(s, hour, weekday, d) <= 10.0 / s.weekendFactor
  {
    var inv := 1.0 / s.weekendFactor;
    assert inv >= 1.0 by {
      assert inv * s.weekendFactor == 1.0;
      if inv < 1.0 { MulMono(inv, 1.0, s.weekendFactor); }
    }
    var w, p, i := WeekendMultiplier(s, weekday), PeakMultiplier(s, hour), IdleMultiplier(s, d);
    ProductBounds(w, p, 1.0, inv, 1.0, 2.0);
    ProductBounds(w * p, i, 1.0, inv * 2.0, 1.0, 5.0);
    MulAssoc(inv, 2.0, 5.0);
    assert 10.0 / s.weekendFactor == inv * 10.0;
  }

  /** The off-peak multiplier is applied exactly outside `[peak_hours_start, peak_hours_end]`: it doubles the delay. */
  lemma OffPeakDoubles(s: Settings, inPeak: int, outside: int, weekday: int, d: Draws)
    requires DrawsFit(s, d)
    requires s.peakStart <= inPeak <= s.peakEnd
    requires outside < s.peakStart || outside > s.peakEnd
    ensures Delay(s, outside, weekday, d).Some? <==> Delay(s, inPeak, weekday, d).Some?
    ensures Delay(s, outside, weekday, d).Some? ==>
      Delay(s, outside, weekday, d).value == 2.0 * Delay(s, inPeak, weekday, d).value
  {
  }

  /** A weekend divides by `weekend_factor`: a factor of 0.3 more than triples the delay. */
  lemma WeekendDivides(s: Settings, hour: int, workday: int, weekendDay: int, d: Draws)
    requires DrawsFit(s, d)
    requires workday < 5 <= weekendDay
    requires s.weekendFactor != 0.0
    ensures Delay(s, hour, weekendDay, d).value * s.weekendFactor == Delay(s, hour, workday, d).value
  {
    var x := d.base * (1.0 / s.weekendFactor);
    assert x * s.weekendFactor == d.base;
    var p, i := PeakMultiplier(s, hour), IdleMultiplier(s, d);
    assert Delay(s, hour, weekendDay, d).value == x * p * i;
    assert Delay(s, hour, workday, d).value == d.base * 1.0 * p * i;
    MulAssoc(x, p, i);
    MulAssoc(d.base, p, i);
    assert x * (p * i) * s.weekendFactor == x * s.weekendFactor * (p * i);
  }

  /** An idle draw below `idle_probability` multiplies the delay by the idle factor; any other draw leaves it. */
  lemma IdleMultiplies(s: Settings, hour: int, weekday: int, d: Draws, coin: real)
    requires DrawsFit(s, d) && d.idleCoin < s.idleProbability
    requires s.idleProbability <= coin < 1.0
    ensures Delay(s, hour, weekday, d).Some? ==>
      Delay(s, hour, weekday, d).value == d.idleFactor * Delay(s, hour, weekday, d.(idleCoin := coin)).value
  {
  }
}

/** The moving-average indicator and the buy/sell rule that the exchange's
    price-tick handler applies to each SOL/USD price (Exchange.tsx, the
    `setData` callback inside `getPythData`). */
module Indicators {
  import opened Wrappers
  import opened Orders

  /** Number of earlier prices the simple moving average covers. */
  const Window: nat := 10
  /** `2 / (window + 1)`. */
  const SmoothingFactor: real := 2.0 / 11.0

  /** One entry of the price history (`newData`). The source also declares a
      `trend` field, which no code ever assigns; it is not modelled. */
  datatype Point = Point(price: real, confidenceRange: seq<real>, ts: int, sma: Option<real>, ema: Option<real>)

  /** The left fold `reduce((prev, curr) => prev + curr.price, 0)`. */
  function PriceSum(points: seq<Point>): real
  {
    if points == [] then 0.0 else PriceSum(points[..|points| - 1]) + points[|points| - 1].price
  }

  /** Mean price of the last `Window` points of the history given; the point
      being built is not part of `data`, so its price is not included. */
  function Sma(data: seq<Point>): real
    requires |data| >= Window
  {
    PriceSum(data[|data| - Window..]) / Window as real
  }

  /** The "exponential" average as the source computes it: always seeded from
      the current SMA, because `newData.ema` is still undefined when it is read. */
  function Ema(price: real, sma: real): (e: real)
    ensures sma <= price ==> sma <= e <= price
    ensures price <= sma ==> price <= e <= sma
    ensures e == sma <==> price == sma
  {
    (price - sma) * SmoothingFactor + sma
  }

  /** The recorded point for a priced tick, given the history before it. */
  function NextPoint(data: seq<Point>, price: real, confidence: real, ts: int): (p: Point)
    ensures p.price == price && p.ts == ts
    ensures p.confidenceRange == [price - confidence, price + confidence]
    ensures p.sma.Some? <==> |data| > Window
    ensures p.ema.Some? <==> |data| > Window
    ensures |data| > Window ==> p.sma == Some(Sma(data)) && p.ema == Some(Ema(price, Sma(data)))
  {
    var newData := Point(price, [price - confidence, price + confidence], ts, None, None);
    if |data| > Window then
      var sma := Sma(data);
      var previousEma := sma;
      newData.(sma := Some(sma), ema := Some((price - previousEma) * SmoothingFactor + previousEma))
    else
      newData
  }

  /** A JavaScript number quotient without rounding: a zero divisor gives an
      infinity or NaN, and an undefined divisor gives NaN. */
  datatype Quotient = Finite(value: real) | PlusInfinity | MinusInfinity | NaN

  function Divide(x: real, y: Option<real>): (q: Quotient)
    ensures q.Finite? <==> y.Some? && y.value != 0.0
    ensures q.Finite? ==> q.value * y.value == x
    ensures q.NaN? <==> y.None? || (y.value == 0.0 && x == 0.0)
    ensures q == PlusInfinity <==> y == Some(0.0) && x > 0.0
    ensures q == MinusInfinity <==> y == Some(0.0) && x < 0.0
  {
    if y.None? then NaN
    else if y.value != 0.0 then Finite(x / y.value)
    else if x > 0.0 then PlusInfinity
    else if x < 0.0 then MinusInfinity
    else NaN
  }

  /** `q * 100 > bound`; every comparison with NaN is false. */
  predicate Above(q: Quotient, bound: real)
  {
    match q
    case Finite(v) => v * 100.0 > bound
    case PlusInfinity => true
    case _ => false
  }

  /** `q * 100 < bound`. */
  predicate Below(q: Quotient, bound: real)
  {
    match q
    case Finite(v) => v * 100.0 < bound
    case MinusInfinity => true
    case _ => false
  }

  /** The buy/sell rule: buy when the trend is above the dead zone, else sell
      when it is below it; the buy test is made first. */
  function Evaluate(trend: Quotient, yieldExpectation: real): (s: Option<Side>)
    ensures s == Some(Buy) <==> Above(trend, 100.0 + yieldExpectation)
    ensures s == Some(Sell) <==> !Above(trend, 100.0 + yieldExpectation) && Below(trend, 100.0 - yieldExpectation)
    ensures trend.NaN? ==> s == None
  {
    if Above(trend, 100.0 + yieldExpectation) then Some(Buy)
    else if Below(trend, 100.0 - yieldExpectation) then Some(Sell)
    else None
  }

  /** The signal a priced tick emits, given the history before it: the new
      point's EMA divided by the previous point's EMA, fed to the rule. */
  function TickSignal(data: seq<Point>, price: real, yieldExpectation: real): (s: Option<Side>)
    ensures |data| <= Window ==> s == None
    ensures |data| > Window && data[|data| - 1].ema == None ==> s == None
  {
    if |data| > Window then
      Evaluate(Divide(Ema(price, Sma(data)), data[|data| - 1].ema), yieldExpectation)
    else
      None
  }

  /** The shape every history built by the tick handler has: the point at
      index i was appended to a history of i points, so its SMA and EMA are
      defined exactly when i > Window, and its EMA is the SMA-seeded one. */
  ghost predicate WellFormed(data: seq<Point>)
  {
    forall i :: 0 <= i < |data| ==>
      && (data[i].sma.Some? <==> i > Window)
      && (data[i].ema.Some? <==> i > Window)
      && (data[i].sma.Some? ==> data[i].ema == Some(Ema(data[i].price, data[i].sma.value)))
  }

  lemma AppendKeepsWellFormed(data: seq<Point>, price: real, confidence: real, ts: int)
    requires WellFormed(data)
    ensures WellFormed(data + [NextPoint(data, price, confidence, ts)])
  {
  }

  /** The first tick that computes an SMA finds no EMA on the previous point,
      so the trend is NaN and nothing is emitted. */
  lemma FirstEligibleTickSilent(data: seq<Point>, price: real, yieldExpectation: real)
    requires WellFormed(data) && |data| == Window + 1
    ensures TickSignal(data, price, yieldExpectation) == None
  {
    assert data[Window].ema == None;
  }

  /** From the next tick on, the previous point always has an EMA, so the
      trend is never NaN unless both EMAs are zero. */
  lemma TrendDefinedAfterwards(data: seq<Point>, price: real)
    requires WellFormed(data) && |data| > Window + 1
    ensures data[|data| - 1].ema.Some?
    ensures Divide(Ema(price, Sma(data)), data[|data| - 1].ema).NaN? <==>
              data[|data| - 1].ema.value == 0.0 && Ema(price, Sma(data)) == 0.0
  {
  }

  /** With a non-negative yield the dead zone is not empty: buy and sell
      never both hold, so the order of the two tests does not matter. */
  lemma NoDoubleSignal(trend: Quotient, yieldExpectation: real)
    requires yieldExpectation >= 0.0
    ensures !(Above(trend, 100.0 + yieldExpectation) && Below(trend, 100.0 - yieldExpectation))
  {
  }

  /** The rule on a finite trend ratio, both directions. */
  lemma SignalRule(trend: real, yieldExpectation: real)
    requires yieldExpectation >= 0.0
    ensures Evaluate(Finite(trend), yieldExpectation) == Some(Buy) <==> trend * 100.0 > 100.0 + yieldExpectation
    ensures Evaluate(Finite(trend), yieldExpectation) == Some(Sell) <==> trend * 100.0 < 100.0 - yieldExpectation
    ensures Evaluate(Finite(trend), yieldExpectation) == None <==>
              100.0 - yieldExpectation <= trend * 100.0 <= 100.0 + yieldExpectation
  {
  }

  /** For a positive previous EMA, buy means the EMA rose by more than
      `yieldExpectation` percent and sell that it fell by more than that. */
  lemma SignalOnEmas(ema: real, previousEma: real, yieldExpectation: real)
    requires previousEma > 0.0 && yieldExpectation >= 0.0
    ensures Evaluate(Divide(ema, Some(previousEma)), yieldExpectation) == Some(Buy) <==>
              ema * 100.0 > previousEma * (100.0 + yieldExpectation)
    ensures Evaluate(Divide(ema, Some(previousEma)), yieldExpectation) == Some(Sell) <==>
              ema * 100.0 < previousEma * (100.0 - yieldExpectation)
  {
    var t := ema / previousEma;
    assert Divide(ema, Some(previousEma)) == Finite(t);
    SignalRule(t, yieldExpectation);
    RatioAbove(ema, previousEma, 100.0 + yieldExpectation);
    RatioBelow(ema, previousEma, 100.0 - yieldExpectation);
  }

  /** Once the previous point has a positive EMA, a tick buys exactly when
      its EMA rose by more than `yieldExpectation` percent over that EMA, and
      sells exactly when it fell by more than that. */
  lemma TickSignalOnEmas(data: seq<Point>, price: real, yieldExpectation: real)
    requires WellFormed(data) && |data| > Window + 1
    requires data[|data| - 1].ema.Some? && data[|data| - 1].ema.value > 0.0
    requires yieldExpectation >= 0.0
    ensures TickSignal(data, price, yieldExpectation) == Some(Buy) <==>
              Ema(price, Sma(data)) * 100.0 > data[|data| - 1].ema.value * (100.0 + yieldExpectation)
    ensures TickSignal(data, price, yieldExpectation) == Some(Sell) <==>
              Ema(price, Sma(data)) * 100.0 < data[|data| - 1].ema.value * (100.0 - yieldExpectation)
  {
    SignalOnEmas(Ema(price, Sma(data)), data[|data| - 1].ema.value, yieldExpectation);
  }

  lemma RatioAbove(x: real, k: real, b: real)
    requires k > 0.0
    ensures (x / k) * 100.0 > b <==> x * 100.0 > k * b
  {
    var t := x / k;
    assert (t * 100.0) * k == x * 100.0;
    ScaleComparison(t * 100.0, b, k);
  }

  lemma RatioBelow(x: real, k: real, b: real)
    requires k > 0.0
    ensures (x / k) * 100.0 < b <==> x * 100.0 < k * b
  {
    var t := x / k;
    assert (t * 100.0) * k == x * 100.0;
    ScaleComparison(b, t * 100.0, k);
  }

  lemma ScaleComparison(a: real, b: real, k: real)
    requires k > 0.0
    ensures a > b <==> a * k > b * k
  {
    if a > b {
      assert (a - b) * k > 0.0;
    } else {
      assert (b - a) * k >= 0.0;
    }
  }

  lemma {:induction false} PriceSumBounds(points: seq<Point>, lo: real, hi: real)
    requires forall i :: 0 <= i < |points| ==> lo <= points[i].price <= hi
    ensures |points| as real * lo <= PriceSum(points) <= |points| as real * hi
  {
    if points != [] {
      PriceSumBounds(points[..|points| - 1], lo, hi);
    }
  }

  /** The SMA lies within the range of the last `Window` prices. */
  lemma SmaWithinWindow(data: seq<Point>, lo: real, hi: real)
    requires |data| >= Window
    requires forall i :: |data| - Window <= i < |data| ==> lo <= data[i].price <= hi
    ensures lo <= Sma(data) <= hi
  {
    var w := data[|data| - Window..];
    forall i | 0 <= i < |w| ensures lo <= w[i].price <= hi {
      assert w[i] == data[|data| - Window + i];
    }
    PriceSumBounds(w, lo, hi);
  }

  /** Only the last `Window` points count: older points never affect the SMA. */
  lemma SmaOfLastWindow(older: seq<Point>, recent: seq<Point>)
    requires |recent| == Window
    ensures Sma(older + recent) == Sma(recent)
  {
    assert (older + recent)[|older + recent| - Window..] == recent;
    assert recent[|recent| - Window..] == recent;
  }

  /** The recorded SMA does not depend on the new tick's price or confidence. */
  lemma SmaExcludesNewPrice(data: seq<Point>, p1: real, c1: real, t1: int, p2: real, c2: real, t2: int)
    ensures NextPoint(data, p1, c1, t1).sma == NextPoint(data, p2, c2, t2).sma
  {
  }

  /** Two histories with the same prices. */
  ghost predicate SamePrices(a: seq<Point>, b: seq<Point>)
  {
    |a| == |b| && forall i :: 0 <= i < |a| ==> a[i].price == b[i].price
  }

  lemma {:induction false} PriceSumOfSamePrices(a: seq<Point>, b: seq<Point>)
    requires SamePrices(a, b)
    ensures PriceSum(a) == PriceSum(b)
  {
    if a != [] {
      PriceSumOfSamePrices(a[..|a| - 1], b[..|b| - 1]);
    }
  }

  /** The EMA is never recursive: the new point's SMA, EMA and signal depend
      only on the prices of the history, not on any EMA stored in it, except
      that the signal divides by the previous point's EMA. */
  lemma EmaIgnoresStoredEmas(a: seq<Point>, b: seq<Point>, price: real, confidence: real, ts: int)
    requires SamePrices(a, b)
    ensures NextPoint(a, price, confidence, ts) == NextPoint(b, price, confidence, ts)
  {
    if |a| > Window {
      var wa, wb := a[|a| - Window..], b[|b| - Window..];
      assert SamePrices(wa, wb) by {
        forall i | 0 <= i < |wa| ensures wa[i].price == wb[i].price {
          assert wa[i] == a[|a| - Window + i] && wb[i] == b[|b| - Window + i];
        }
      }
      PriceSumOfSamePrices(wa, wb);
    }
  }

  /** The price data of one priced tick. */
  datatype Sample = Sample(price: real, confidence: real, ts: int)

  /** The history after a run of priced ticks: append-only, one point each. */
  function Feed(data: seq<Point>, samples: seq<Sample>): (r: seq<Point>)
    ensures |r| == |data| + |samples|
    ensures r[..|data|] == data
    decreases |samples|
  {
    if samples == [] then data
    else Feed(data + [NextPoint(data, samples[0].price, samples[0].confidence, samples[0].ts)], samples[1..])
  }

  /** The signals a run of priced ticks emits, one entry per tick. */
  function Signals(data: seq<Point>, samples: seq<Sample>, yieldExpectation: real): (r: seq<Option<Side>>)
    ensures |r| == |samples|
    decreases |samples|
  {
    if samples == [] then []
    else
      [TickSignal(data, samples[0].price, yieldExpectation)]
      + Signals(data + [NextPoint(data, samples[0].price, samples[0].confidence, samples[0].ts)], samples[1..], yieldExpectation)
  }

  lemma {:induction false} FeedKeepsWellFormed(data: seq<Point>, samples: seq<Sample>)
    requires WellFormed(data)
    ensures WellFormed(Feed(data, samples))
    decreases |samples|
  {
    if samples != [] {
      var s := samples[0];
      AppendKeepsWellFormed(data, s.price, s.confidence, s.ts);
      FeedKeepsWellFormed(data + [NextPoint(data, s.price, s.confidence, s.ts)], samples[1..]);
    }
  }

  /** A history that starts empty emits nothing during its first
      `Window + 2` priced ticks: `Window + 1` of them have no SMA, and the
      next divides by an undefined EMA. */
  lemma {:induction false} QuietStart(data: seq<Point>, samples: seq<Sample>, yieldExpectation: real)
    requires WellFormed(data) && |data| + |samples| <= Window + 2
    ensures forall i :: 0 <= i < |samples| ==> Signals(data, samples, yieldExpectation)[i] == None
    decreases |samples|
  {
    if samples != [] {
      var s := samples[0];
      var next := data + [NextPoint(data, s.price, s.confidence, s.ts)];
      if |data| == Window + 1 {
        FirstEligibleTickSilent(data, s.price, yieldExpectation);
      }
      AppendKeepsWellFormed(data, s.price, s.confidence, s.ts);
      QuietStart(next, samples[1..], yieldExpectation);
      var r := Signals(data, samples, yieldExpectation);
      assert r == [TickSignal(data, s.price, yieldExpectation)] + Signals(next, samples[1..], yieldExpectation);
      forall i | 0 <= i < |samples| ensures r[i] == None {
        if i > 0 {
          assert r[i] == Signals(next, samples[1..], yieldExpectation)[i - 1];
        }
      }
    }
  }

  /** Running one more tick extends `Feed` and `Signals` by that tick. */
  lemma {:induction false} FeedStep(data: seq<Point>, samples: seq<Sample>, s: Sample, yieldExpectation: real)
    ensures Feed(data, samples + [s]) == Feed(data, samples) + [NextPoint(Feed(data, samples), s.price, s.confidence, s.ts)]
    ensures Signals(data, samples + [s], yieldExpectation) ==
              Signals(data, samples, yieldExpectation) + [TickSignal(Feed(data, samples), s.price, yieldExpectation)]
    decreases |samples|
  {
    if samples == [] {
      assert samples + [s] == [s];
    } else {
      var next := data + [NextPoint(data, samples[0].price, samples[0].confidence, samples[0].ts)];
      assert (samples + [s])[0] == samples[0];
      assert (samples + [s])[1..] == samples[1..] + [s];
      FeedStep(next, samples[1..], s, yieldExpectation);
    }
  }

  /** Ten prices of 100, then 101, then 110 twice, at a yield of 0.1: the
      tick after 101 is the first with an SMA (100.1) and emits nothing;
      the next one emits a buy. */
  lemma FlatThenJump(d10: seq<Point>)
    requires |d10| == 10 && forall i :: 0 <= i < 10 ==> d10[i].price == 100.0
    requires WellFormed(d10)
    ensures var d11 := d10 + [NextPoint(d10, 101.0, 1.0, 0)];
      var d12 := d11 + [NextPoint(d11, 110.0, 1.0, 1)];
      && NextPoint(d11, 110.0, 1.0, 1).sma == Some(100.1)
      && TickSignal(d11, 110.0, 0.1) == None
      && TickSignal(d12, 110.0, 0.1) == Some(Buy)
  {
    var d11 := d10 + [NextPoint(d10, 101.0, 1.0, 0)];
    assert d11[1..] == d11[1..11];
    var w := d11[1..];
    assert w[..9] == d10[1..10];
    assert PriceSum(w) == PriceSum(w[..9]) + 101.0;
    PriceSumBounds(w[..9], 100.0, 100.0);
    assert Sma(d11) == 100.1;
    var d12 := d11 + [NextPoint(d11, 110.0, 1.0, 1)];
    var w2 := d12[2..];
    assert d12 == d10 + [d11[10], d12[11]];
    assert w2 == d10[2..] + [d11[10], d12[11]];
    assert w2[..8] == d10[2..10];
    assert w2[..9][..8] == w2[..8];
    assert PriceSum(w2) == PriceSum(w2[..9]) + 110.0;
    assert PriceSum(w2[..9]) == PriceSum(w2[..8]) + 101.0;
    PriceSumBounds(w2[..8], 100.0, 100.0);
    assert Sma(d12) == 101.1;
  }
}

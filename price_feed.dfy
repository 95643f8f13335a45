/** The exchange component's price-feed state: the `data` history that the
    chart shows and the indicators read, and the displayed `price` and
    `symbol`. `OnPriceChange` is the body of the `onPriceChange` callback. */
module PriceFeed {
  import opened Wrappers
  import opened Orders
  import opened Indicators

  const SolUsd: string := "Crypto.SOL/USD"

  /** The price data of one feed callback; either number may be missing. */
  datatype PriceData = PriceData(price: Option<real>, confidence: Option<real>)

  /** JavaScript truthiness of an optional number: defined and not zero. */
  predicate Truthy(x: Option<real>)
  {
    x.Some? && x.value != 0.0
  }

  /** What one callback does: record a priced tick, report that the price
      is unavailable, or nothing at all. */
  datatype TickKind = Priced(price: real, confidence: real) | Unavailable | Ignored

  function Classify(symbol: string, tick: PriceData): (k: TickKind)
    ensures k.Priced? <==> symbol == SolUsd && Truthy(tick.price) && Truthy(tick.confidence)
    ensures k.Priced? ==> k.price == tick.price.value && k.confidence == tick.confidence.value
    ensures k.Unavailable? <==> symbol == SolUsd && (tick.price == None || tick.price == Some(0.0))
    ensures k.Ignored? <==> symbol != SolUsd || (Truthy(tick.price) && !Truthy(tick.confidence))
  {
    if symbol == SolUsd && Truthy(tick.price) && Truthy(tick.confidence) then
      Priced(tick.price.value, tick.confidence.value)
    else if symbol == SolUsd && !Truthy(tick.price) then
      Unavailable
    else
      Ignored
  }

  class PythFeed {
    var data: seq<Point>
    var price: Option<real>
    var symbol: Option<string>

    ghost predicate Valid()
      reads this
    {
      WellFormed(data)
    }

    constructor ()
      ensures Valid()
      ensures data == [] && price == None && symbol == None
    {
      data := [];
      price := None;
      symbol := None;
    }

    /** Handles one feed callback at clock time `now`, with the yield
        expectation the callback captured when it was registered; returns
        the signal it emits. */
    method OnPriceChange(product: string, tick: PriceData, now: int, yieldExpectation: real)
      returns (signal: Option<Side>)
      requires Valid()
      modifies this
      ensures Valid()
      ensures match Classify(product, tick)
        case Priced(p, c) =>
          && data == old(data) + [NextPoint(old(data), p, c, now)]
          && signal == TickSignal(old(data), p, yieldExpectation)
          && price == Some(p) && symbol == Some(SolUsd)
        case Unavailable =>
          data == old(data) && signal == None && price == Some(0.0) && symbol == Some(SolUsd)
        case Ignored =>
          data == old(data) && signal == None && price == old(price) && symbol == old(symbol)
    {
      signal := None;
      match Classify(product, tick)
      case Priced(p, c) =>
        price := Some(p);
        var newData := Point(p, [p - c, p + c], now, None, None);
        if |data| > Window {
          var sma := Sma(data);
          newData := newData.(sma := Some(sma));
          var previousEma := sma;  // `newData.ema || newData.sma`: the EMA is still undefined
          newData := newData.(ema := Some((p - previousEma) * SmoothingFactor + previousEma));
          var trend := Divide(newData.ema.value, data[|data| - 1].ema);
          signal := Evaluate(trend, yieldExpectation);
        }
        AppendKeepsWellFormed(data, p, c, now);
        data := data + [newData];
        symbol := Some(SolUsd);
      case Unavailable =>
        price := Some(0.0);
        symbol := Some(SolUsd);
      case Ignored =>
    }
  }

  /** A client run: twelve priced ticks on a fresh feed emit no signal, and
      the history then holds exactly those twelve points in order. */
  method QuietFirstTicks(samples: seq<Sample>, yieldExpectation: real) returns (feed: PythFeed, signals: seq<Option<Side>>)
    requires |samples| <= Window + 2
    requires forall i :: 0 <= i < |samples| ==> samples[i].price != 0.0 && samples[i].confidence != 0.0
    ensures |signals| == |samples|
    ensures forall i :: 0 <= i < |signals| ==> signals[i] == None
    ensures feed.data == Feed([], samples)
  {
    feed := new PythFeed();
    signals := [];
    var k := 0;
    while k < |samples|
      invariant 0 <= k <= |samples|
      invariant feed.Valid()
      invariant feed.data == Feed([], samples[..k])
      invariant signals == Signals([], samples[..k], yieldExpectation)
    {
      var s := samples[k];
      var signal := feed.OnPriceChange(SolUsd, PriceData(Some(s.price), Some(s.confidence)), s.ts, yieldExpectation);
      FeedStep([], samples[..k], s, yieldExpectation);
      assert samples[..k + 1] == samples[..k] + [s];
      signals := signals + [signal];
      k := k + 1;
    }
    assert samples[..k] == samples;
    QuietStart([], samples, yieldExpectation);
  }
}

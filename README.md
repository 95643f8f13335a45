# Pyth SOL/USD trading bot: indicator, netting and mock wallet

This Dafny project models the core of the Pyth "exchange" demo of
learn-web3-dapp. The core has three parts:

- **The price-tick handler** (`onPriceChange` in `Exchange.tsx`). On every
  SOL/USD price it records a history point
  (price, confidence range, timestamp, SMA, EMA). Once more than ten points
  exist, it computes a 10-point simple moving average and an EMA. It then
  emits `buy` or `sell` when the EMA ratio to the previous point's EMA leaves
  the dead zone `100 ± yieldExpectation` (in percent).
- **The Rx pipeline.** It maps each `buy` to `+orderSize` and each `sell` to
  `-orderSize`, sums each 3-second buffer, drops a zero sum, and turns the
  rest into one order. The order is handed to `addOrder` with the `price`
  that the subscription captured when it was set up.
- **The wallet hook** (`useExtendedWallet` in `wallet.tsx`). It holds:
  - the balance, which in mock mode is in lamports and micro-USDC;
  - the order book, newest entry first;
  - the reset logic.

  In mock mode `addOrder` queries the router with the direction and size the
  order implies. It then fakes the fill on the balance and records the best
  route's amounts. If the query rejects, nothing is written.

The worth display (TOTAL WORTH and Change) is modelled too.

The modules:

- `Wrappers`: the `Option` type.
- `Orders`: sides, token names and the order record.
- `Indicators`: history points, SMA and EMA, the JavaScript quotient with its
  infinities and NaN, and the buy/sell rule.
- `PriceFeed`: the `PythFeed` class. It owns the `data` history and the
  displayed price and symbol, and its `OnPriceChange` method is the tick
  handler.
- `Netting`: one buffer window, and its net and order.
- `Wallet`: the `ExtendedWallet` class with `AddOrder` and `ResetWallet`.
- `Worth`: the worth state and the Change statistic.

Behaviour captured as the code has it:

- **The tick guard uses JavaScript truthiness.** A zero price counts as
  missing, and so does a zero confidence. A price that is present while its
  confidence is zero is ignored outright.
- **The SMA needs more than ten existing points.** The first point with an
  SMA is therefore the twelfth. Its tick emits nothing, because it divides by
  the previous point's undefined EMA, which gives NaN. The thirteenth tick is
  the first that can signal.
- **The EMA is always seeded from the current SMA.** The code reads
  `newData.ema || newData.sma` while `newData.ema` is still undefined, so the
  EMA never depends on earlier EMAs (`EmaIgnoresStoredEmas`).
- **Division follows JavaScript.** A zero previous EMA gives ±Infinity or NaN
  (`Quotient`), and `Infinity * 100 > …` does fire a buy.
- **`orderSize` is fixed within a window.** It is the value captured when the
  pipeline was subscribed, and the subscription is renewed whenever it
  changes. A window therefore nets to `orderSize × (buys − sells)`.

## Model

| member | source | states |
|---|---|---|
| Indicators.Ema | components/protocols/pyth/components/Exchange.tsx:204-207 | the EMA lies between the SMA and the new price, and equals the SMA exactly when the price does |
| Indicators.NextPoint | components/protocols/pyth/components/Exchange.tsx:166-216 | the recorded point carries the tick's price, timestamp and `[p - c, p + c]` range; SMA and EMA are defined iff the history holds more than 10 points, and are then the mean of the last 10 prices and the SMA-seeded EMA |
| Indicators.Divide | components/protocols/pyth/components/Exchange.tsx:209 | the quotient is finite iff the previous EMA is defined and non-zero, in which case it times the divisor gives the EMA back; a zero divisor gives +Infinity iff the EMA is positive and −Infinity iff it is negative; it is NaN iff the divisor is undefined or both are zero |
| Indicators.Evaluate | components/protocols/pyth/components/Exchange.tsx:210-214 | buy iff trend × 100 exceeds 100 + yield; sell iff not buy and trend × 100 is below 100 − yield; NaN emits nothing |
| Indicators.TickSignal | components/protocols/pyth/components/Exchange.tsx:196-215 | no signal while the history has at most 10 points or the previous point has no EMA |
| Indicators.TickSignalOnEmas | components/protocols/pyth/components/Exchange.tsx:202-214 | on a well-formed history of more than 11 points whose last EMA is positive, with a non-negative yield: a tick buys iff its EMA × 100 exceeds the previous EMA × (100 + yield), and sells iff it is below the previous EMA × (100 − yield) |
| Indicators.PriceSum | components/protocols/pyth/components/Exchange.tsx:198-201 | reference definition of the left-fold price sum; PriceSumBounds and PriceSumOfSamePrices are proved about it |
| Indicators.Sma | components/protocols/pyth/components/Exchange.tsx:196-202 | reference definition of the 10-point mean, excluding the new tick; SmaWithinWindow, SmaOfLastWindow and SmaExcludesNewPrice are proved about it |
| Indicators.Above | components/protocols/pyth/components/Exchange.tsx:210 | reference definition of `trend * 100 > bound` with JavaScript's infinities and NaN; Evaluate, NoDoubleSignal and SignalRule state the rule through it |
| Indicators.Below | components/protocols/pyth/components/Exchange.tsx:212 | reference definition of `trend * 100 < bound` with JavaScript's infinities and NaN; Evaluate, NoDoubleSignal and SignalRule state the rule through it |
| Indicators.AppendKeepsWellFormed | components/protocols/pyth/components/Exchange.tsx:195-217 | appending the handler's point keeps the history well formed: SMA/EMA defined exactly from index 11 on, each EMA seeded from its own SMA |
| Indicators.FirstEligibleTickSilent | components/protocols/pyth/components/Exchange.tsx:204-209 | the first tick that computes an SMA emits nothing, because the previous EMA is undefined |
| Indicators.TrendDefinedAfterwards | components/protocols/pyth/components/Exchange.tsx:209 | from the next tick on the previous EMA is defined, and the trend is NaN only when both EMAs are zero |
| Indicators.NoDoubleSignal | components/protocols/pyth/components/Exchange.tsx:210-214 | with a non-negative yield, the buy and sell conditions never hold together |
| Indicators.SignalRule | components/protocols/pyth/components/Exchange.tsx:210-214 | on a finite trend: buy, sell or nothing, each iff the trend is above, below or inside the dead zone |
| Indicators.SignalOnEmas | components/protocols/pyth/components/Exchange.tsx:209-214 | for a positive previous EMA: buy iff EMA × 100 > previous × (100 + yield), sell iff EMA × 100 < previous × (100 − yield) |
| Indicators.PriceSumBounds | components/protocols/pyth/components/Exchange.tsx:198-201 | the price sum of n points whose prices lie in [lo, hi] lies in [n·lo, n·hi] |
| Indicators.SmaWithinWindow | components/protocols/pyth/components/Exchange.tsx:197-202 | the SMA lies within the range of the last 10 prices |
| Indicators.SmaOfLastWindow | components/protocols/pyth/components/Exchange.tsx:197 | points older than the last 10 never affect the SMA |
| Indicators.SmaExcludesNewPrice | components/protocols/pyth/components/Exchange.tsx:197-202 | the recorded SMA does not depend on the new tick's price, confidence or time |
| Indicators.PriceSumOfSamePrices | components/protocols/pyth/components/Exchange.tsx:198-201 | the sum reads only the prices of the points |
| Indicators.EmaIgnoresStoredEmas | components/protocols/pyth/components/Exchange.tsx:202-207 | two histories with the same prices yield the same new point: stored EMAs never feed the next EMA |
| Indicators.Feed | components/protocols/pyth/components/Exchange.tsx:216 | a run of priced ticks is append-only: one point per tick, and the old history is an unchanged prefix |
| Indicators.Signals | components/protocols/pyth/components/Exchange.tsx:210-214 | one signal outcome per priced tick |
| Indicators.FeedKeepsWellFormed | components/protocols/pyth/components/Exchange.tsx:195-217 | any run of priced ticks keeps the history well formed |
| Indicators.QuietStart | components/protocols/pyth/components/Exchange.tsx:196-215 | a well-formed history emits nothing while it holds at most 12 points in total, counting the ticks of the run |
| Indicators.FeedStep | components/protocols/pyth/components/Exchange.tsx:195-217 | one more tick extends the history by its point and the signals by its signal |
| Indicators.FlatThenJump | components/protocols/pyth/components/Exchange.tsx:196-214 | ten prices of 100, then 101, then 110 twice at yield 0.1: the first 110 tick gets SMA 100.1 and emits nothing; the second emits a buy |
| PriceFeed.Classify | components/protocols/pyth/components/Exchange.tsx:156-160 | a tick is recorded iff the symbol is SOL/USD and both price and confidence are truthy; it is "unavailable" iff the symbol matches and the price is missing or zero; otherwise it is ignored |
| PriceFeed.PythFeed.constructor | components/protocols/pyth/components/Exchange.tsx:152 | the history starts empty and well formed, with price and symbol undefined |
| PriceFeed.PythFeed.OnPriceChange | components/protocols/pyth/components/Exchange.tsx:156-223 | a recorded tick appends `NextPoint`, emits `TickSignal` and shows the price; an unavailable tick shows price 0; an ignored tick changes nothing; the history stays well formed |
| PriceFeed.QuietFirstTicks | components/protocols/pyth/components/Exchange.tsx:195-217 | a fresh feed given up to 12 truthy ticks emits no signal and ends holding exactly `Feed([], samples)` |
| Netting.Magnitude | components/protocols/pyth/components/Exchange.tsx:109-114 | reference definition of the buy → +orderSize and sell → −orderSize mapping; NetExcess is proved through it |
| Netting.Net | components/protocols/pyth/components/Exchange.tsx:118-120 | reference definition of the buffer's left-fold sum; NetExcess, NetCounts and NetIsOrderIndependent are proved about it |
| Netting.ExcessCounts | components/protocols/pyth/components/Exchange.tsx:118-120 | counting from the end gives the number of buys minus the number of sells |
| Netting.NetExcess | components/protocols/pyth/components/Exchange.tsx:109-120 | the summed window equals orderSize times the buy excess |
| Netting.NetCounts | components/protocols/pyth/components/Exchange.tsx:109-120 | the summed window equals orderSize × (buys − sells) |
| Netting.NetIsOrderIndependent | components/protocols/pyth/components/Exchange.tsx:115-120 | windows holding the same signals in any order net to the same value |
| Netting.Translate | components/protocols/pyth/components/Exchange.tsx:122-145 | buy iff the net is positive; the size is the absolute net; buy trades USDC for SOL and sell trades SOL for USDC; the subscriber's price is attached |
| Netting.Flush | components/protocols/pyth/components/Exchange.tsx:115-146 | no order iff the net is zero; otherwise exactly `Translate` of the net: one order of positive size, a buy iff the net is positive |
| Netting.FlushByCounts | components/protocols/pyth/components/Exchange.tsx:109-146 | for a positive order size: no order iff buys equal sells; otherwise the majority side with size orderSize × the difference |
| Netting.FlushIsOrderIndependent | components/protocols/pyth/components/Exchange.tsx:115-146 | the window's order does not depend on the arrival order of its signals |
| Netting.TwoBuysOneSell | components/protocols/pyth/components/Exchange.tsx:109-146 | buy, buy, sell at order size 20 becomes one buy of 20 from USDC to SOL |
| Wallet.RouteFor | components/protocols/pyth/lib/wallet.tsx:136-149 | a buy asks for tokenB (USDC) into tokenA (SOL), a sell the reverse; the input amount is the order size, with slippage 1 |
| Wallet.Settle | components/protocols/pyth/lib/wallet.tsx:157-167 | a buy pays inAmount USDC and gains outAmount SOL; a sell pays inAmount SOL and gains outAmount USDC; ORCA is untouched |
| Wallet.SettleCommutes | components/protocols/pyth/lib/wallet.tsx:157-167 | two mock fills give the same balance in either order |
| Wallet.SettleRoundTrip | components/protocols/pyth/lib/wallet.tsx:157-167 | selling back exactly what a buy obtained, for what it paid, restores the balance |
| Wallet.SettleTotals | components/protocols/pyth/lib/wallet.tsx:157-167 | a mock fill changes SOL + USDC by outAmount − inAmount |
| Wallet.ResetBalance | components/protocols/pyth/lib/wallet.tsx:187-191 | whole-token amounts are scaled by 10^9 and 10^6, and ORCA is set to 0 |
| Wallet.ResetDefaultsRestoreInitial | components/protocols/pyth/lib/wallet.tsx:183-191 | a reset restores the initial balance iff its parameters are the defaults 10 and 1400 |
| Wallet.ExtendedWallet.constructor | components/protocols/pyth/lib/wallet.tsx:51-57 | the wallet starts with 10 SOL, 1400 USDC and 0 ORCA in smallest units, an empty order book and no secret key |
| Wallet.ExtendedWallet.AddOrder | components/protocols/pyth/lib/wallet.tsx:127-181 | in mock mode the router receives `RouteFor(order)`; if the query rejects, neither the book nor the balance changes; otherwise the entry carrying the best route's amounts and `mock` is prepended and the balance is settled with that route; in real mode the bare order is prepended and the balance is unchanged |
| Wallet.ExtendedWallet.ResetWallet | components/protocols/pyth/lib/wallet.tsx:183-193 | mock mode writes the reset balance and keeps the key; real mode clears the secret key and keeps the balance |
| Wallet.ResetIsIdempotent | components/protocols/pyth/lib/wallet.tsx:183-193 | in mock mode, after any order a default reset yields the initial balance and a second reset leaves it unchanged; the book grows by one entry iff the route query succeeded |
| Worth.CurrentWorth | components/protocols/pyth/components/Exchange.tsx:101 | the worth is defined iff the price is; at price 0 it is the USDC balance |
| Worth.WorthGrowsWithPrice | components/protocols/pyth/components/Exchange.tsx:366 | for a non-negative SOL holding, a higher price never lowers the worth |
| Worth.Refresh | components/protocols/pyth/components/Exchange.tsx:100-102 | a price update rewrites `current` and keeps `initial` |
| Worth.RefreshAll | components/protocols/pyth/components/Exchange.tsx:94-103 | reference definition of a run of price updates, each passing through `Refresh`; InitialNeverChanges and ChangeStuckAtMinusHundred are stated through it |
| Worth.PercentChange | components/protocols/pyth/components/Exchange.tsx:374 | the Change statistic is undefined iff the current worth is NaN or zero, and is −100 whenever `initial` is 0 |
| Worth.InitialNeverChanges | components/protocols/pyth/components/Exchange.tsx:90-102 | no sequence of price updates ever changes `initial` |
| Worth.ChangeStuckAtMinusHundred | components/protocols/pyth/components/Exchange.tsx:374 | from the initial state, Change is undefined or −100 after any updates |
| Worth.ChangeAtStart | components/protocols/pyth/components/Exchange.tsx:366 | the initial mock balance at price 150 is worth 1 501 400 000 000 mixed units, and shows Change −100 |
| Worth.TrackedRefresh | components/protocols/pyth/components/Exchange.tsx:100-102 | corrected tracker: the first computable worth becomes the baseline and is then kept |
| Worth.GainPercent | components/protocols/pyth/components/Exchange.tsx:374 | corrected Change: defined iff both worths are defined and the baseline is non-zero |
| Worth.GainPercentSign | components/protocols/pyth/components/Exchange.tsx:374 | for a positive baseline, the corrected change is zero, positive or negative exactly when the worth stayed the same, grew or fell |
| Worth.GainStartsAtZero | components/protocols/pyth/components/Exchange.tsx:90-102 | the corrected change is 0 right after the first computable worth |

## Left out

- Pyth connection start and stop, the feed toggle and its messages are I/O and are not modelled.
- The 3-second timer is not modelled. A window is given as the list of its signals, so which signals share a buffer is an input.
- The signal emitter's wiring is not modelled: its `once('*')` hook, whose body is commented out, and listener teardown.
- `buySomeOrca`, the Jupiter and Orca SDK clients, `getRoutes` and keypair decoding are foreign calls. The route's `inAmount` and `outAmount` are parameters of `AddOrder`.
- The SWR/RPC balance fetcher and real-balance parsing are network I/O and are not modelled.
- Rendering, console output and the chart are not modelled.
- The `trend` field of a history point is never assigned in the code, so it is not modelled.
- The real clock is a parameter: `OnPriceChange` takes `now` for `+new Date()`.
- Netting.Flush: the attached `price` is a plain parameter, a number. The code attaches the `price` captured when the order subscription was set up, and the model does not track which value that is. That captured value is `undefined` until a change of yield or order size after the first tick renews the subscription.
- Numbers are exact reals and integers. IEEE rounding is not modelled, and neither are results that are NaN or infinite for reasons other than division by zero.
- Netting.NetIsOrderIndependent, Netting.FlushIsOrderIndependent and Netting.FlushByCounts hold for exact reals only. In IEEE doubles the sum depends on the order of the window. At `orderSize` 0.1, buy, buy, buy, sell, sell, sell sums to about 2.8e-17 and yields a tiny buy, while the alternating order sums to 0 and yields nothing.
- Wallet.ExtendedWallet.AddOrder: the call is async, and the subscriber does not await it. It writes the balance and the book only after awaiting the swap client and the route query. The model takes the whole call as one atomic step at the moment it finishes. If two calls overlap, the book lists them in the order they finish, not the order they were made, and the model does not capture that order. The balance does not depend on it (`SettleCommutes`).
- Wallet.ExtendedWallet.AddOrder: the wallet's mode `useMock` is fixed when the wallet is built. In the code the user can flip the mock switch at run time. The order subscription keeps the `addOrder`, and with it the mode, from the render that last renewed it, which happens only when the yield or the order size changes. After a flip without such a change, pipeline orders still run in the old mode. The model does not capture this.
- Wallet.ExtendedWallet.AddOrder: a query that succeeds without any route is not modelled. There the code records undefined amounts and the balance becomes NaN. The router is a parameter that returns either a best route or `None` for a rejected query.
- Wallet.ExtendedWallet.ResetWallet: the parameters are whole numbers of tokens. The code accepts any JavaScript number.
- PriceFeed.PythFeed.OnPriceChange: the yield expectation is a parameter of each call. Each callback in the code keeps the value captured when it was registered. For a single registration, a caller that follows the code therefore passes the same value every time, as `Signals` and `QuietFirstTicks` do. Each toggle of the feed switch registers another callback. The Pyth client's code is not part of this model. If the client keeps every callback, a re-toggled feed handles each tick once per registration, each with its own yield, and the model covers only one registration.
- Worth.CurrentWorth: `balance` is the wallet's balance. In real mode the code reads the fetched balance instead, which is not part of this model.
- The real-mode `mock = false` assignment and the `txId` field are commented out in the code, so a real-mode entry carries no extra fields.

## Findings

| source | as written | input that shows it | evidently intended | confidence | as-written member | corrected member |
|---|---|---|---|---|---|---|
| components/protocols/pyth/components/Exchange.tsx:90-102 | `worth.initial` starts at 0 and is never written, and Change is `(initial / current) * 100 - 100` | the initial mock balance at price 150: Change shows −100 % and stays there after any number of ticks (undefined when the worth is 0) | `initial` is the first computable worth, and Change is `(current / initial) * 100 - 100`, which is 0 at the start and positive after a gain | not executed | Worth.ChangeStuckAtMinusHundred | Worth.GainPercentSign |

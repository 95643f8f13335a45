/** The wallet hook (`useExtendedWallet`, wallet.tsx): the balance and order
    book it owns, `addOrder` and `resetWallet`. Balances are in each token's smallest
    unit (lamports for SOL, millionths for USDC), as mock mode keeps them. The
    real-mode balance fetcher, which stores SOL in whole tokens, is not part
    of this model. */
module Wallet {
  import opened Wrappers
  import opened Orders

  const SolDecimal: int := 1_000_000_000
  const UsdcDecimal: int := 1_000_000

  datatype Balance = Balance(sol: int, usdc: int, orca: int)

  /** 10 SOL, 1400 USDC and no ORCA. */
  const InitialBalance: Balance := Balance(10 * SolDecimal, 1400 * UsdcDecimal, 0)

  /** The swap client's two tokens: tokenA is SOL, tokenB is USDC. */
  datatype Token = TokenA | TokenB

  /** The arguments of the route query a mock order makes. */
  datatype RouteRequest = RouteRequest(inputToken: Token, outputToken: Token, inputAmount: real, slippage: int)

  function RouteFor(order: Order): (r: RouteRequest)
    ensures r.inputToken != r.outputToken
    ensures order.side == Buy ==> r.inputToken == TokenB && r.outputToken == TokenA
    ensures order.side == Sell ==> r.inputToken == TokenA && r.outputToken == TokenB
    ensures r.inputAmount == order.size && r.slippage == 1
  {
    RouteRequest(
      if order.side == Buy then TokenB else TokenA,
      if order.side == Buy then TokenA else TokenB,
      order.size,
      1)
  }

  /** The amounts of the best route the router returns for that query. */
  datatype Route = Route(inAmount: int, outAmount: int)

  /** The faked fill of a mock order: a buy pays `inAmount` USDC for
      `outAmount` SOL, a sell pays `inAmount` SOL for `outAmount` USDC. */
  function Settle(b: Balance, side: Side, route: Route): (r: Balance)
    ensures r.orca == b.orca
    ensures side == Buy ==> r.usdc == b.usdc - route.inAmount && r.sol == b.sol + route.outAmount
    ensures side == Sell ==> r.usdc == b.usdc + route.outAmount && r.sol == b.sol - route.inAmount
  {
    b.(usdc := if side == Buy then b.usdc - route.inAmount else b.usdc + route.outAmount,
       sol := if side == Buy then b.sol + route.outAmount else b.sol - route.inAmount)
  }

  /** Mock fills commute: two fills settled in either order give the same
      balance, so calls that finish out of order still agree on it. */
  lemma SettleCommutes(b: Balance, s1: Side, r1: Route, s2: Side, r2: Route)
    ensures Settle(Settle(b, s1, r1), s2, r2) == Settle(Settle(b, s2, r2), s1, r1)
  {
  }

  /** Selling back exactly what a buy obtained, for exactly what it paid,
      restores the balance. */
  lemma SettleRoundTrip(b: Balance, inAmount: int, outAmount: int)
    ensures Settle(Settle(b, Buy, Route(inAmount, outAmount)), Sell, Route(outAmount, inAmount)) == b
  {
  }

  /** A mock fill moves value between SOL and USDC only, by the route's amounts. */
  lemma SettleTotals(b: Balance, side: Side, route: Route)
    ensures var r := Settle(b, side, route);
      r.sol + r.usdc == b.sol + b.usdc + route.outAmount - route.inAmount
  {
  }

  /** The balance a mock reset writes, from whole-token amounts. */
  function ResetBalance(solBalance: int, usdcBalance: int): (b: Balance)
    ensures b.sol == solBalance * SolDecimal && b.usdc == usdcBalance * UsdcDecimal && b.orca == 0
  {
    Balance(solBalance * SolDecimal, usdcBalance * UsdcDecimal, 0)
  }

  /** With the default parameters a reset restores the initial balance, and
      only that choice of parameters does. */
  lemma ResetDefaultsRestoreInitial(solBalance: int, usdcBalance: int)
    ensures ResetBalance(solBalance, usdcBalance) == InitialBalance <==> solBalance == 10 && usdcBalance == 1400
  {
  }

  /** An entry of the order book: the order as submitted plus what a mock
      fill added (`inAmount`, `outAmount`, `mock`); undefined otherwise. */
  datatype RecordedOrder = RecordedOrder(order: Order, inAmount: Option<int>, outAmount: Option<int>, mock: Option<bool>)

  class ExtendedWallet {
    var useMock: bool
    var secretKey: Option<string>
    var balance: Balance
    var orderBook: seq<RecordedOrder>

    constructor (useMock: bool)
      ensures this.useMock == useMock && secretKey == None
      ensures balance == InitialBalance && orderBook == []
    {
      this.useMock := useMock;
      secretKey := None;
      balance := InitialBalance;
      orderBook := [];
    }

    /** Records an order, newest first. In mock mode the order's route
        query `RouteFor(order)` goes to `router`; `None` stands for a query
        that rejects (the swap client or `getRoutes` failing), which aborts
        before anything is written. Otherwise the best route's amounts are
        recorded and the fill is faked on the balance. In real mode the
        balance is left alone. */
    method AddOrder(order: Order, router: RouteRequest -> Option<Route>)
      modifies this`balance, this`orderBook
      ensures useMock && router(RouteFor(order)).None? ==>
                orderBook == old(orderBook) && balance == old(balance)
      ensures useMock && router(RouteFor(order)).Some? ==>
                var bestRoute := router(RouteFor(order)).value;
                && orderBook == [RecordedOrder(order, Some(bestRoute.inAmount), Some(bestRoute.outAmount), Some(true))] + old(orderBook)
                && balance == Settle(old(balance), order.side, bestRoute)
      ensures !useMock ==>
                orderBook == [RecordedOrder(order, None, None, None)] + old(orderBook) && balance == old(balance)
    {
      var extendedOrder := RecordedOrder(order, None, None, None);
      if useMock {
        var routes := router(RouteFor(order));
        if routes.None? {
          return;
        }
        var bestRoute := routes.value;
        extendedOrder := extendedOrder.(inAmount := Some(bestRoute.inAmount), outAmount := Some(bestRoute.outAmount));
        extendedOrder := extendedOrder.(mock := Some(true));
        balance := Settle(balance, order.side, bestRoute);
      }
      orderBook := [extendedOrder] + orderBook;
    }

    /** Mock mode writes a fresh balance from the parameters (10 SOL and
        1400 USDC by default); real mode forgets the secret key instead. */
    method ResetWallet(solBalance: int := 10, usdcBalance: int := 1400)
      modifies this`balance, this`secretKey
      ensures useMock ==> balance == ResetBalance(solBalance, usdcBalance) && secretKey == old(secretKey)
      ensures !useMock ==> secretKey == None && balance == old(balance)
    {
      if !useMock {
        secretKey := None;
      } else {
        balance := ResetBalance(solBalance, usdcBalance);
      }
    }
  }

  /** A client: in mock mode, whatever an order did, a default reset
      restores the initial balance and a second reset changes nothing. */
  method ResetIsIdempotent(w: ExtendedWallet, order: Order, router: RouteRequest -> Option<Route>)
    returns (once: Balance)
    requires w.useMock
    modifies w
    ensures once == InitialBalance && w.balance == once
    ensures |w.orderBook| == |old(w.orderBook)| + (if router(RouteFor(order)).Some? then 1 else 0)
  {
    w.AddOrder(order, router);
    w.ResetWallet();
    once := w.balance;
    w.ResetWallet();
    ResetDefaultsRestoreInitial(10, 1400);
  }
}

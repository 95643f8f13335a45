/** The order shape shared by the exchange component and the wallet hook. */
module Orders {

  /** The two event names `buy` and `sell`, also used as the order side. */
  datatype Side = Buy | Sell

  /** Token symbols the exchange writes into an order. */
  const Usdc: string := "usdc"
  const Sol: string := "sol"

  /** An order as the wallet receives it: side, size (in USDC, as configured),
      the price the order pipeline captured when it was subscribed, and the
      token pair. */
  datatype Order = Order(side: Side, size: real, price: real, fromToken: string, toToken: string)
}

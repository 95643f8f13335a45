/** Netting of the signals of one 3-second window and their translation into
    a single order (the Rx pipeline of Exchange.tsx). A window is the list of
    signals in arrival order; `orderSize` is the size captured when the
    pipeline was subscribed, the same for every signal of the window. */
module Netting {
  import opened Wrappers
  import opened Orders

  /** `buy` maps to `+orderSize`, `sell` to `-orderSize`. */
  function Magnitude(s: Side, orderSize: real): real
  {
    if s == Buy then orderSize else -orderSize
  }

  /** The left fold `reduce((prev, curr) => prev + curr, 0)` over the window. */
  function Net(window: seq<Side>, orderSize: real): real
  {
    if window == [] then 0.0
    else Net(window[..|window| - 1], orderSize) + Magnitude(window[|window| - 1], orderSize)
  }

  /** Number of buys minus number of sells, counted like `Net` from the end. */
  function Excess(window: seq<Side>): int
  {
    if window == [] then 0
    else Excess(window[..|window| - 1]) + (if window[|window| - 1] == Buy then 1 else -1)
  }

  lemma {:induction false} ExcessCounts(window: seq<Side>)
    ensures Excess(window) == multiset(window)[Buy] as int - multiset(window)[Sell] as int
  {
    if window != [] {
      var init, last := window[..|window| - 1], window[|window| - 1];
      assert init + [last] == window;
      assert multiset(window) == multiset(init) + multiset{last};
      ExcessCounts(init);
    }
  }

  lemma {:induction false} NetExcess(window: seq<Side>, orderSize: real)
    ensures Net(window, orderSize) == orderSize * Excess(window) as real
  {
    if window != [] {
      var init, last := window[..|window| - 1], window[|window| - 1];
      NetExcess(init, orderSize);
      var step := if last == Buy then 1.0 else -1.0;
      assert Magnitude(last, orderSize) == orderSize * step;
    }
  }

  /** The net is the order size times the number of buys minus the number
      of sells. */
  lemma NetCounts(window: seq<Side>, orderSize: real)
    ensures Net(window, orderSize) == orderSize * (multiset(window)[Buy] as real - multiset(window)[Sell] as real)
  {
    NetExcess(window, orderSize);
    ExcessCounts(window);
  }

  /** Only which signals arrived matters, not their order. */
  lemma {:induction false} NetIsOrderIndependent(w1: seq<Side>, w2: seq<Side>, orderSize: real)
    requires multiset(w1) == multiset(w2)
    ensures Net(w1, orderSize) == Net(w2, orderSize)
  {
    NetExcess(w1, orderSize);
    NetExcess(w2, orderSize);
    ExcessCounts(w1);
    ExcessCounts(w2);
    Rescale(orderSize, Excess(w1) as real, Excess(w2) as real);
  }

  lemma Rescale(k: real, a: real, b: real)
    requires a == b
    ensures k * a == k * b
  {
  }

  /** The mapping from a netted value to an order (the `val > 0` and
      `val <= 0` branches), with the `price` the subscriber adds. */
  function Translate(net: real, price: real): (o: Order)
    ensures o.side == Buy <==> net > 0.0
    ensures o.size == (if net < 0.0 then -net else net)
    ensures o.size > 0.0 <==> net != 0.0
    ensures o.side == Buy ==> o.fromToken == Usdc && o.toToken == Sol
    ensures o.side == Sell ==> o.fromToken == Sol && o.toToken == Usdc
    ensures o.price == price
  {
    if net > 0.0 then Order(Buy, net, price, Usdc, Sol)
    else Order(Sell, if net < 0.0 then -net else net, price, Sol, Usdc)
  }

  /** One window's outcome: nothing when the net is zero, otherwise exactly
      one order of positive size. */
  function Flush(window: seq<Side>, orderSize: real, price: real): (o: Option<Order>)
    ensures o == None <==> Net(window, orderSize) == 0.0
    ensures o.Some? ==> o.value.size > 0.0 && o.value.price == price
    ensures o.Some? ==> (o.value.side == Buy <==> Net(window, orderSize) > 0.0)
    ensures o.Some? ==> o.value == Translate(Net(window, orderSize), price)
  {
    var net := Net(window, orderSize);
    if net != 0.0 then Some(Translate(net, price)) else None
  }

  /** For a positive order size the window's outcome in terms of counts:
      as many buys as sells give no order, otherwise the majority side wins
      with size `orderSize` times the difference. */
  lemma FlushByCounts(window: seq<Side>, orderSize: real, price: real, buys: nat, sells: nat)
    requires orderSize > 0.0
    requires buys == multiset(window)[Buy] && sells == multiset(window)[Sell]
    ensures Flush(window, orderSize, price) == None <==> buys == sells
    ensures buys > sells ==> Flush(window, orderSize, price) == Some(Order(Buy, orderSize * (buys - sells) as real, price, Usdc, Sol))
    ensures buys < sells ==> Flush(window, orderSize, price) == Some(Order(Sell, orderSize * (sells - buys) as real, price, Sol, Usdc))
  {
    NetExcess(window, orderSize);
    ExcessCounts(window);
    var e := Excess(window);
    Signs(orderSize, e as real);
    var net := Net(window, orderSize);
    if buys > sells {
      assert Translate(net, price) == Order(Buy, orderSize * (buys - sells) as real, price, Usdc, Sol);
    } else if buys < sells {
      assert Translate(net, price) == Order(Sell, orderSize * (sells - buys) as real, price, Sol, Usdc);
    }
  }

  lemma Signs(k: real, e: real)
    requires k > 0.0
    ensures k * e > 0.0 <==> e > 0.0
    ensures k * e == 0.0 <==> e == 0.0
    ensures -(k * e) == k * -e
  {
    if e > 0.0 {
      assert k * e > 0.0;
    } else if e < 0.0 {
      assert k * -e > 0.0;
    }
  }

  lemma FlushIsOrderIndependent(w1: seq<Side>, w2: seq<Side>, orderSize: real, price: real)
    requires multiset(w1) == multiset(w2)
    ensures Flush(w1, orderSize, price) == Flush(w2, orderSize, price)
  {
    NetIsOrderIndependent(w1, w2, orderSize);
  }

  /** Two buys and a sell at the default order size of 20 become one buy of 20. */
  lemma TwoBuysOneSell(price: real)
    ensures Flush([Buy, Buy, Sell], 20.0, price) == Some(Order(Buy, 20.0, price, Usdc, Sol))
  {
    assert [Buy, Buy, Sell][..2] == [Buy, Buy];
    assert [Buy, Buy][..1] == [Buy];
    assert [Buy][..0] == [];
  }
}

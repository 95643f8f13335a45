/** Portfolio worth as the exchange component derives it from the wallet
    balance and the latest price (Exchange.tsx, the `worth` state, the
    TOTAL WORTH and Change statistics). */
module Worth {
  import opened Wrappers
  import Wallet

  /** The `worth` state; a current worth of `None` stands for NaN. */
  datatype Worth = Worth(initial: real, current: Option<real>)

  const InitialWorth: Worth := Worth(0.0, Some(0.0))

  /** `sol_balance * price + usdc_balance`, NaN while the price is undefined. */
  function CurrentWorth(balance: Wallet.Balance, price: Option<real>): (w: Option<real>)
    ensures w.Some? <==> price.Some?
    ensures price == Some(0.0) ==> w == Some(balance.usdc as real)
  {
    if price.None? then None else Some(balance.sol as real * price.value + balance.usdc as real)
  }

  /** More price never lowers the worth of a non-negative SOL holding. */
  lemma WorthGrowsWithPrice(balance: Wallet.Balance, p1: real, p2: real)
    requires balance.sol >= 0 && p1 <= p2
    ensures CurrentWorth(balance, Some(p1)).value <= CurrentWorth(balance, Some(p2)).value
  {
    assert balance.sol as real * (p2 - p1) >= 0.0;
  }

  /** The effect run on each price change: only `current` is written. */
  function Refresh(w: Worth, balance: Wallet.Balance, price: Option<real>): (r: Worth)
    ensures r.initial == w.initial
    ensures r.current == CurrentWorth(balance, price)
  {
    w.(current := CurrentWorth(balance, price))
  }

  /** A sequence of price updates, each with the balance current at the time. */
  datatype Update = Update(balance: Wallet.Balance, price: Option<real>)

  function RefreshAll(w: Worth, updates: seq<Update>): (r: Worth)
    decreases |updates|
  {
    if updates == [] then w
    else RefreshAll(Refresh(w, updates[0].balance, updates[0].price), updates[1..])
  }

  /** The Change statistic, `(initial / current) * 100 - 100`; not computable
      when the current worth is NaN or zero. */
  function PercentChange(w: Worth): (c: Option<real>)
    ensures c.None? <==> w.current.None? || w.current == Some(0.0)
    ensures c.Some? && w.initial == 0.0 ==> c == Some(-100.0)
  {
    if w.current.None? || w.current.value == 0.0 then None
    else Some((w.initial / w.current.value) * 100.0 - 100.0)
  }

  /** However many price updates arrive, `initial` stays at its starting 0. */
  lemma {:induction false} InitialNeverChanges(w: Worth, updates: seq<Update>)
    ensures RefreshAll(w, updates).initial == w.initial
    decreases |updates|
  {
    if updates != [] {
      InitialNeverChanges(Refresh(w, updates[0].balance, updates[0].price), updates[1..]);
    }
  }

  /** As written, the Change statistic is -100 % whenever it is defined. */
  lemma ChangeStuckAtMinusHundred(updates: seq<Update>)
    ensures PercentChange(RefreshAll(InitialWorth, updates)) in {None, Some(-100.0)}
  {
    InitialNeverChanges(InitialWorth, updates);
  }

  /** A concrete case: the mock wallet's initial balance at a price of 150. */
  lemma ChangeAtStart()
    ensures var w := Refresh(InitialWorth, Wallet.InitialBalance, Some(150.0));
      w.current == Some(1_501_400_000_000.0) && PercentChange(w) == Some(-100.0)
  {
  }

  /** The evidently intended tracker: `initial` is the first computable
      worth, and the change is the gain relative to it. */
  datatype TrackedWorth = TrackedWorth(initial: Option<real>, current: Option<real>)

  function TrackedRefresh(w: TrackedWorth, balance: Wallet.Balance, price: Option<real>): (r: TrackedWorth)
    ensures r.current == CurrentWorth(balance, price)
    ensures w.initial.Some? ==> r.initial == w.initial
    ensures w.initial.None? ==> r.initial == r.current
  {
    var current := CurrentWorth(balance, price);
    TrackedWorth(if w.initial.Some? then w.initial else current, current)
  }

  function GainPercent(w: TrackedWorth): (c: Option<real>)
    ensures c.Some? <==> w.initial.Some? && w.current.Some? && w.initial.value != 0.0
  {
    if w.initial.None? || w.current.None? || w.initial.value == 0.0 then None
    else Some((w.current.value / w.initial.value) * 100.0 - 100.0)
  }

  /** For a positive starting worth the change is zero exactly when the
      worth is unchanged and positive exactly when it grew. */
  lemma GainPercentSign(w: TrackedWorth)
    requires w.initial.Some? && w.initial.value > 0.0 && w.current.Some?
    ensures GainPercent(w) == Some(0.0) <==> w.current.value == w.initial.value
    ensures GainPercent(w).value > 0.0 <==> w.current.value > w.initial.value
    ensures GainPercent(w).value < 0.0 <==> w.current.value < w.initial.value
  {
    var i, c := w.initial.value, w.current.value;
    var q := c / i;
    assert (q - 1.0) * i == c - i;
    SignOfProduct(q - 1.0, i);
  }

  lemma SignOfProduct(a: real, k: real)
    requires k > 0.0
    ensures a * k > 0.0 <==> a > 0.0
    ensures a * k < 0.0 <==> a < 0.0
  {
    if a > 0.0 {
      assert a * k > 0.0;
    } else if a < 0.0 {
      assert (-a) * k > 0.0;
    }
  }

  /** The first computable worth is the baseline, so the change starts at 0. */
  lemma GainStartsAtZero(balance: Wallet.Balance, price: real)
    requires CurrentWorth(balance, Some(price)).value != 0.0
    ensures GainPercent(TrackedRefresh(TrackedWorth(None, None), balance, Some(price))) == Some(0.0)
  {
    var c := CurrentWorth(balance, Some(price)).value;
    assert c / c == 1.0;
  }
}

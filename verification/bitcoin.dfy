/**
 * The idle clicker's economy: a wallet of coins, the price of the next
 * miner, and the coins those miners yield per second.
 */
module Miner {

  const START_COST: int := 10

  /** Coins held, price of the next miner, and coins earned per second. */
  datatype Wallet = Wallet(count: int, cost: int, bps: int)

  /** The values the page loads with. */
  const Initial: Wallet := Wallet(0, START_COST, 0)

  /** The mine button: one coin, nothing else changes. */
  function Mine(w: Wallet): (r: Wallet)
    ensures r.count == w.count + 1
    ensures r.cost == w.cost && r.bps == w.bps
  {
    w.(count := w.count + 1)
  }

  /**
   * The miner's price after a purchase, `Math.floor(cost * 1.1)` done in
   * integers: the largest integer whose tenfold is at most eleven times `cost`.
   */
  function NextCost(cost: int): (r: int)
    ensures 10 * r <= 11 * cost < 10 * r + 10
    ensures cost >= START_COST ==> r > cost
  {
    cost * 11 / 10
  }

  /** A click on the buy button: the wallet after it, and whether the "not enough" alert fired. */
  datatype Purchase = Purchase(wallet: Wallet, alerted: bool)

  /**
   * The buy button: with enough coins, pay the price, gain one coin per second
   * and raise the price by a tenth, rounded down; otherwise only alert.
   */
  function Buy(w: Wallet): (r: Purchase)
    ensures !r.alerted <==> w.count >= w.cost
    ensures !r.alerted ==>
      && r.wallet.count == w.count - w.cost
      && r.wallet.count >= 0
      && r.wallet.bps == w.bps + 1
      && r.wallet.cost == NextCost(w.cost)
    ensures r.alerted ==> r.wallet == w
    ensures w.cost >= START_COST && !r.alerted ==> r.wallet.cost > w.cost
  {
    if w.count >= w.cost then
      Purchase(Wallet(w.count - w.cost, NextCost(w.cost), w.bps + 1), false)
    else
      Purchase(w, true)
  }

  /** The one-second timer: every miner yields a coin. */
  function Tick(w: Wallet): (r: Wallet)
    ensures r.count - w.count == w.bps
    ensures r.cost == w.cost && r.bps == w.bps
    ensures w.bps >= 0 ==> r.count >= w.count
  {
    w.(count := w.count + w.bps)
  }

  /** The user's and the timer's events. */
  datatype Event = MineClick | BuyClick | Second

  function Apply(w: Wallet, ev: Event): Wallet {
    match ev
    case MineClick => Mine(w)
    case BuyClick => Buy(w).wallet
    case Second => Tick(w)
  }

  function Run(w: Wallet, evs: seq<Event>): Wallet
    decreases |evs|
  {
    if |evs| == 0 then w else Run(Apply(w, evs[0]), evs[1..])
  }

  /** The price of the next miner once `n` miners are owned. */
  function CostAfter(n: nat): (r: int)
    ensures r >= START_COST + n
  {
    if n == 0 then START_COST else NextCost(CostAfter(n - 1))
  }

  /**
   * The wallet's invariant: no debt, no negative rate, and the price is the
   * one that the number of miners owned determines, hence at least 10.
   */
  predicate Valid(w: Wallet) {
    w.count >= 0 && w.bps >= 0 && w.cost == CostAfter(w.bps)
  }

  lemma InitialValid()
    ensures Valid(Initial)
  {
  }

  /** Each event keeps the invariant. */
  lemma ApplyKeepsValid(w: Wallet, ev: Event)
    requires Valid(w)
    ensures Valid(Apply(w, ev))
    ensures Apply(w, ev).cost >= START_COST
  {
    if ev == BuyClick && w.count >= w.cost {
      assert Buy(w).wallet.bps == w.bps + 1;
      assert CostAfter(w.bps + 1) == NextCost(CostAfter(w.bps));
    }
  }

  /** Any sequence of clicks and seconds keeps the invariant. */
  lemma {:induction false} RunKeepsValid(w: Wallet, evs: seq<Event>)
    requires Valid(w)
    ensures Valid(Run(w, evs))
    decreases |evs|
  {
    if |evs| > 0 {
      ApplyKeepsValid(w, evs[0]);
      RunKeepsValid(Apply(w, evs[0]), evs[1..]);
    }
  }

  /** Every wallet the page reaches has no debt, a non-negative rate and a price of at least 10. */
  lemma Reachable(evs: seq<Event>)
    ensures Run(Initial, evs).count >= 0
    ensures Run(Initial, evs).bps >= 0
    ensures Run(Initial, evs).cost >= START_COST
  {
    InitialValid();
    RunKeepsValid(Initial, evs);
  }
}

/**
 * AggregationStats: the running buy-side and sell-side totals of one bucket,
 * their averages rounded HALF_UP to 8 decimal places, the net figures derived
 * from them, and the time of the last update.
 */
module AggregationStatistics {

  /** A reading of the clock (Instant.now()); supplied by the caller. */
  type Tick = nat

  // ---------------------------------------------------------------------------
  // BigDecimal.divide(divisor, 8, RoundingMode.HALF_UP)
  // ---------------------------------------------------------------------------

  /** 10^8: eight decimal places. */
  const Scale: real := 100000000.0

  /**
   * `n` is `y` rounded HALF_UP to an integer: the nearest integer, a tie going
   * away from zero.
   */
  predicate RoundsHalfUp(n: int, y: real) {
    var d := y - n as real;
    -0.5 <= d <= 0.5 && (d == 0.5 ==> y < 0.0) && (d == -0.5 ==> y > 0.0)
  }

  /** HALF_UP rounding to an integer. */
  function RoundHalfUp(y: real): (n: int)
    ensures RoundsHalfUp(n, y)
  {
    if y >= 0.0 then (y + 0.5).Floor else -((0.5 - y).Floor)
  }

  /** At most one integer is the HALF_UP rounding of `y`. */
  lemma RoundsHalfUpUnique(n: int, m: int, y: real)
    requires RoundsHalfUp(n, y) && RoundsHalfUp(m, y)
    ensures n == m
  {
  }

  /** `r` has at most eight decimal places. */
  predicate OnGrid(r: real) {
    (r * Scale).Floor as real == r * Scale
  }

  /** `r` is `x` rounded HALF_UP to eight decimal places. */
  predicate IsRound8(r: real, x: real) {
    OnGrid(r) && RoundsHalfUp((r * Scale).Floor, x * Scale)
  }

  /** The exact value `x` rounded HALF_UP to eight decimal places. */
  function Round8(x: real): (r: real)
    ensures IsRound8(r, x)
  {
    var n := RoundHalfUp(x * Scale);
    assert (n as real / Scale) * Scale == n as real;
    n as real / Scale
  }

  /** Round8 is the only eight-place HALF_UP rounding of `x`. */
  lemma Round8Unique(r: real, x: real)
    requires IsRound8(r, x)
    ensures r == Round8(x)
  {
    var n, m := (r * Scale).Floor, (Round8(x) * Scale).Floor;
    RoundsHalfUpUnique(n, m, x * Scale);
    assert r * Scale == Round8(x) * Scale;
  }

  /** Rounding moves a value by at most half a unit in the eighth place. */
  lemma Round8Error(x: real)
    ensures -0.5 / Scale <= Round8(x) - x <= 0.5 / Scale
  {
    var r := Round8(x);
    var d := x * Scale - (r * Scale).Floor as real;
    assert -0.5 <= d <= 0.5;
    assert r * Scale - x * Scale == -d;
    assert (r - x) * Scale == -d;
  }

  /** A value that already has at most eight decimal places is left as it is. */
  lemma Round8OnGrid(x: real)
    requires OnGrid(x)
    ensures Round8(x) == x
  {
    assert RoundsHalfUp((x * Scale).Floor, x * Scale);
    Round8Unique(x, x);
  }

  /** HALF_UP is symmetric about zero: rounding a negated value negates the rounding. */
  lemma Round8Negate(x: real)
    ensures Round8(-x) == -Round8(x)
  {
    var r := Round8(x);
    var n := (r * Scale).Floor;
    assert (-r) * Scale == -(n as real);
    assert ((-r) * Scale).Floor == -n;
    assert RoundsHalfUp(-n, (-x) * Scale);
    Round8Unique(-r, -x);
  }

  // ---------------------------------------------------------------------------
  // The statistics as a value
  // ---------------------------------------------------------------------------

  /** The two sides a trade can be booked to. */
  datatype Side = Buy | Sell

  /** The notional of one trade: price times quantity. */
  function TradeNotional(qty: int, price: real): real {
    price * qty as real
  }

  /** Everything an AggregationStats object holds. */
  datatype StatsState = StatsState(
    totalBuyQty: int,
    totalBuyNotional: real,
    avgBuyPrice: real,
    totalSellQty: int,
    totalSellNotional: real,
    avgSellPrice: real,
    lastUpdated: Tick)

  /**
   * The average a side shows for its totals: notional / quantity rounded HALF_UP
   * to eight places while the quantity is positive, and zero otherwise.
   */
  function AveragePrice(notional: real, qty: int): (r: real)
    ensures qty > 0 ==> IsRound8(r, notional / qty as real)
    ensures qty <= 0 ==> r == 0.0
  {
    if qty > 0 then Round8(notional / qty as real) else 0.0
  }

  /** Both averages agree with the totals they are derived from. */
  predicate Consistent(s: StatsState) {
    s.avgBuyPrice == AveragePrice(s.totalBuyNotional, s.totalBuyQty) &&
    s.avgSellPrice == AveragePrice(s.totalSellNotional, s.totalSellQty)
  }

  /** A fresh object: all totals and averages zero, stamped with the creation time. */
  function Initial(now: Tick): (s: StatsState)
    ensures Consistent(s)
    ensures NetQtyOf(s) == 0 && NetNotionalOf(s) == 0.0 && NetAveragePriceOf(s) == 0.0
  {
    StatsState(0, 0.0, 0.0, 0, 0.0, 0.0, now)
  }

  /** addBuyTrade: the buy totals grow by the trade, the buy average is recomputed, the time is taken. */
  function AfterBuy(s: StatsState, qty: int, price: real, now: Tick): (r: StatsState)
    ensures r.(totalBuyQty := s.totalBuyQty, totalBuyNotional := s.totalBuyNotional,
      avgBuyPrice := s.avgBuyPrice, lastUpdated := s.lastUpdated) == s
    ensures NetQtyOf(r) == NetQtyOf(s) + qty
    ensures NetNotionalOf(r) == NetNotionalOf(s) + TradeNotional(qty, price)
  {
    var notional := s.totalBuyNotional + TradeNotional(qty, price);
    var total := s.totalBuyQty + qty;
    s.(totalBuyQty := total, totalBuyNotional := notional,
       avgBuyPrice := AveragePrice(notional, total), lastUpdated := now)
  }

  /** addSellTrade: the same on the sell side. */
  function AfterSell(s: StatsState, qty: int, price: real, now: Tick): (r: StatsState)
    ensures r.(totalSellQty := s.totalSellQty, totalSellNotional := s.totalSellNotional,
      avgSellPrice := s.avgSellPrice, lastUpdated := s.lastUpdated) == s
    ensures NetQtyOf(r) == NetQtyOf(s) - qty
    ensures NetNotionalOf(r) == NetNotionalOf(s) - TradeNotional(qty, price)
  {
    var notional := s.totalSellNotional + TradeNotional(qty, price);
    var total := s.totalSellQty + qty;
    s.(totalSellQty := total, totalSellNotional := notional,
       avgSellPrice := AveragePrice(notional, total), lastUpdated := now)
  }

  /** A trade booked to `side`. */
  function Record(s: StatsState, side: Side, qty: int, price: real, now: Tick): StatsState {
    match side
    case Buy => AfterBuy(s, qty, price, now)
    case Sell => AfterSell(s, qty, price, now)
  }

  /** getNetQty: positive exactly when more was bought than sold, zero exactly when as much. */
  function NetQtyOf(s: StatsState): (n: int)
    ensures n > 0 <==> s.totalBuyQty > s.totalSellQty
    ensures n == 0 <==> s.totalBuyQty == s.totalSellQty
  {
    s.totalBuyQty - s.totalSellQty
  }

  /** getNetNotional: positive exactly when more notional was bought than sold. */
  function NetNotionalOf(s: StatsState): (n: real)
    ensures n > 0.0 <==> s.totalBuyNotional > s.totalSellNotional
    ensures n == 0.0 <==> s.totalBuyNotional == s.totalSellNotional
  {
    s.totalBuyNotional - s.totalSellNotional
  }

  /**
   * getNetAveragePrice: net notional over net quantity, rounded HALF_UP to eight
   * places, or zero when the net quantity is zero. The net quantity may be
   * negative.
   */
  function NetAveragePriceOf(s: StatsState): (r: real)
    ensures NetQtyOf(s) == 0 ==> r == 0.0
    ensures NetQtyOf(s) != 0 ==> IsRound8(r, NetNotionalOf(s) / NetQtyOf(s) as real)
  {
    var netQty := NetQtyOf(s);
    if netQty != 0 then Round8(NetNotionalOf(s) / netQty as real) else 0.0
  }

  // ---------------------------------------------------------------------------
  // Properties of one update
  // ---------------------------------------------------------------------------

  /**
   * Booking a trade keeps the averages consistent with the totals, changes only
   * the booked side and the timestamp, and moves the net figures by the trade.
   */
  lemma RecordKeepsConsistent(s: StatsState, side: Side, qty: int, price: real, now: Tick)
    requires Consistent(s)
    ensures Consistent(Record(s, side, qty, price, now))
    ensures Record(s, side, qty, price, now).lastUpdated == now
    ensures side == Buy ==>
      Record(s, side, qty, price, now).(totalBuyQty := s.totalBuyQty, totalBuyNotional := s.totalBuyNotional,
        avgBuyPrice := s.avgBuyPrice, lastUpdated := s.lastUpdated) == s
    ensures side == Sell ==>
      Record(s, side, qty, price, now).(totalSellQty := s.totalSellQty, totalSellNotional := s.totalSellNotional,
        avgSellPrice := s.avgSellPrice, lastUpdated := s.lastUpdated) == s
    ensures NetQtyOf(Record(s, side, qty, price, now)) == NetQtyOf(s) + (if side == Buy then qty else -qty)
    ensures NetNotionalOf(Record(s, side, qty, price, now)) ==
      NetNotionalOf(s) + (if side == Buy then TradeNotional(qty, price) else -(TradeNotional(qty, price)))
  {
  }

  /** A zero-quantity trade leaves a consistent state's figures as they were; only the time moves. */
  lemma ZeroQuantityOnlyTouchesTime(s: StatsState, side: Side, price: real, now: Tick)
    requires Consistent(s)
    ensures Record(s, side, 0, price, now) == s.(lastUpdated := now)
  {
  }

  /** Two trades booked in either order give the same figures; only the timestamp tells them apart. */
  lemma RecordCommutes(s: StatsState, a: Side, qa: int, pa: real, ta: Tick, b: Side, qb: int, pb: real, tb: Tick)
    ensures Record(Record(s, a, qa, pa, ta), b, qb, pb, tb).(lastUpdated := 0) ==
            Record(Record(s, b, qb, pb, tb), a, qa, pa, ta).(lastUpdated := 0)
  {
  }

  /**
   * The net average takes the sign of net notional over net quantity: it is not
   * negative when the two have the same sign and not positive otherwise. So when
   * sells exceed buys the average is negative only if the net notional is positive.
   */
  lemma NetAverageSign(s: StatsState)
    requires NetQtyOf(s) != 0
    ensures (NetQtyOf(s) > 0) == (NetNotionalOf(s) >= 0.0) ==> NetAveragePriceOf(s) >= 0.0
    ensures (NetQtyOf(s) > 0) != (NetNotionalOf(s) >= 0.0) ==> NetAveragePriceOf(s) <= 0.0
  {
    var q := NetQtyOf(s) as real;
    var x := NetNotionalOf(s) / q;
    if (NetQtyOf(s) > 0) == (NetNotionalOf(s) >= 0.0) {
      assert x >= 0.0;
    } else {
      assert x <= 0.0;
    }
    RoundingKeepsSign(NetAveragePriceOf(s), x);
  }

  /** Rounding HALF_UP to eight places never turns a value's sign around. */
  lemma RoundingKeepsSign(r: real, x: real)
    requires IsRound8(r, x)
    ensures x >= 0.0 ==> r >= 0.0
    ensures x <= 0.0 ==> r <= 0.0
  {
    var n := (r * Scale).Floor;
    assert r * Scale == n as real;
    assert RoundsHalfUp(n, x * Scale);
  }

  // ---------------------------------------------------------------------------
  // A sequence of updates
  // ---------------------------------------------------------------------------

  /** One trade booked at a given time. */
  datatype Fill = Fill(side: Side, qty: int, price: real, at: Tick)

  /** The state after booking `fills` in order. */
  function Replay(s: StatsState, fills: seq<Fill>): StatsState
    decreases |fills|
  {
    if fills == [] then s
    else Replay(Record(s, fills[0].side, fills[0].qty, fills[0].price, fills[0].at), fills[1..])
  }

  /** The quantity booked to `side` by `fills`. */
  function SideQty(fills: seq<Fill>, side: Side): int
    decreases |fills|
  {
    if fills == [] then 0
    else (if fills[0].side == side then fills[0].qty else 0) + SideQty(fills[1..], side)
  }

  /** The notional booked to `side` by `fills`. */
  function SideNotional(fills: seq<Fill>, side: Side): real
    decreases |fills|
  {
    if fills == [] then 0.0
    else (if fills[0].side == side then TradeNotional(fills[0].qty, fills[0].price) else 0.0) + SideNotional(fills[1..], side)
  }

  /** The running quantity of one side. */
  function TotalQty(s: StatsState, side: Side): int {
    match side
    case Buy => s.totalBuyQty
    case Sell => s.totalSellQty
  }

  /** The running notional of one side. */
  function TotalNotional(s: StatsState, side: Side): real {
    match side
    case Buy => s.totalBuyNotional
    case Sell => s.totalSellNotional
  }

  /** One booking adds its quantity and notional to its own side's totals only. */
  lemma RecordTotals(s: StatsState, booked: Side, qty: int, price: real, now: Tick, side: Side)
    ensures TotalQty(Record(s, booked, qty, price, now), side) == TotalQty(s, side) + (if side == booked then qty else 0)
    ensures TotalNotional(Record(s, booked, qty, price, now), side) ==
      TotalNotional(s, side) + (if side == booked then TradeNotional(qty, price) else 0.0)
  {
  }

  /** Replaying fills adds their quantities to the running quantity of each side. */
  lemma {:induction false} ReplayQty(s: StatsState, fills: seq<Fill>, side: Side)
    ensures TotalQty(Replay(s, fills), side) == TotalQty(s, side) + SideQty(fills, side)
    decreases |fills|
  {
    if fills != [] {
      var f := fills[0];
      RecordTotals(s, f.side, f.qty, f.price, f.at, side);
      ReplayQty(Record(s, f.side, f.qty, f.price, f.at), fills[1..], side);
    }
  }

  /** Replaying fills adds their notionals to the running notional of each side. */
  lemma {:induction false} ReplayNotional(s: StatsState, fills: seq<Fill>, side: Side)
    ensures TotalNotional(Replay(s, fills), side) == TotalNotional(s, side) + SideNotional(fills, side)
    decreases |fills|
  {
    if fills != [] {
      var f := fills[0];
      var s' := Record(s, f.side, f.qty, f.price, f.at);
      RecordTotals(s, f.side, f.qty, f.price, f.at, side);
      ReplayNotional(s', fills[1..], side);
      var x := if f.side == side then TradeNotional(f.qty, f.price) else 0.0;
      assert SideNotional(fills, side) == x + SideNotional(fills[1..], side);
      assert TotalNotional(s', side) == TotalNotional(s, side) + x;
    }
  }

  /** Replaying fills keeps the averages consistent with the totals. */
  lemma {:induction false} ReplayConsistent(s: StatsState, fills: seq<Fill>)
    requires Consistent(s)
    ensures Consistent(Replay(s, fills))
    decreases |fills|
  {
    if fills != [] {
      var f := fills[0];
      RecordKeepsConsistent(s, f.side, f.qty, f.price, f.at);
      ReplayConsistent(Record(s, f.side, f.qty, f.price, f.at), fills[1..]);
    }
  }

  /** After replaying fills the timestamp is that of the last fill. */
  lemma {:induction false} ReplayTime(s: StatsState, fills: seq<Fill>)
    ensures Replay(s, fills).lastUpdated == if fills == [] then s.lastUpdated else fills[|fills| - 1].at
    decreases |fills|
  {
    if fills != [] {
      var f := fills[0];
      ReplayTime(Record(s, f.side, f.qty, f.price, f.at), fills[1..]);
      if |fills| > 1 {
        assert fills[1..][|fills[1..]| - 1] == fills[|fills| - 1];
      }
    }
  }

  /**
   * From a fresh object, the figures after any sequence of trades depend only on
   * how much was bought and sold and for what notional, not on the order.
   */
  lemma ReplayFromInitial(now: Tick, fills: seq<Fill>)
    ensures var s := Replay(Initial(now), fills);
      s.totalBuyQty == SideQty(fills, Buy) && s.totalBuyNotional == SideNotional(fills, Buy) &&
      s.avgBuyPrice == AveragePrice(SideNotional(fills, Buy), SideQty(fills, Buy)) &&
      s.totalSellQty == SideQty(fills, Sell) && s.totalSellNotional == SideNotional(fills, Sell) &&
      s.avgSellPrice == AveragePrice(SideNotional(fills, Sell), SideQty(fills, Sell))
  {
    ReplayQty(Initial(now), fills, Buy);
    ReplayQty(Initial(now), fills, Sell);
    ReplayNotional(Initial(now), fills, Buy);
    ReplayNotional(Initial(now), fills, Sell);
    ReplayConsistent(Initial(now), fills);
  }

  // ---------------------------------------------------------------------------
  // The documented examples
  // ---------------------------------------------------------------------------

  /** Buying 100 at 10 and then 50 at 12: 150 bought for 1600, an average of 10.66666667. */
  lemma TwoBuysAverage(t0: Tick, t1: Tick, t2: Tick)
    ensures var s := AfterBuy(AfterBuy(Initial(t0), 100, 10.0, t1), 50, 12.0, t2);
      s.totalBuyQty == 150 && s.totalBuyNotional == 1600.0 && s.avgBuyPrice == 10.66666667
  {
    assert IsRound8(10.66666667, 1600.0 / 150.0) by {
      assert 10.66666667 * Scale == 1066666667.0;
    }
    Round8Unique(10.66666667, 1600.0 / 150.0);
  }

  /**
   * Buying 100 at 10 and selling 150 at 9: a net quantity of -50, a net notional
   * of -350 and a net average of 7, which is positive although sells exceed buys.
   */
  lemma SellsExceedingBuys(t0: Tick, t1: Tick, t2: Tick)
    ensures var s := AfterSell(AfterBuy(Initial(t0), 100, 10.0, t1), 150, 9.0, t2);
      NetQtyOf(s) == -50 && NetNotionalOf(s) == -350.0 && NetAveragePriceOf(s) == 7.0
  {
    assert OnGrid(7.0) by {
      assert 7.0 * Scale == 700000000.0;
    }
    Round8OnGrid(7.0);
  }

  // ---------------------------------------------------------------------------
  // The mutable object
  // ---------------------------------------------------------------------------

  /** The statistics object the handler keeps per key and updates in place. */
  class AggregationStats {
    var totalBuyQty: int
    var totalBuyNotional: real
    var avgBuyPrice: real
    var totalSellQty: int
    var totalSellNotional: real
    var avgSellPrice: real
    var lastUpdated: Tick

    /** The object's fields as a value. */
    function State(): StatsState
      reads this
    {
      StatsState(totalBuyQty, totalBuyNotional, avgBuyPrice, totalSellQty, totalSellNotional, avgSellPrice, lastUpdated)
    }

    /** The averages agree with the totals. */
    ghost predicate Valid()
      reads this
    {
      Consistent(State())
    }

    /** new AggregationStats(): zero figures, stamped with the current time. */
    constructor(now: Tick)
      ensures State() == Initial(now)
      ensures Valid()
    {
      totalBuyQty, totalBuyNotional, avgBuyPrice := 0, 0.0, 0.0;
      totalSellQty, totalSellNotional, avgSellPrice := 0, 0.0, 0.0;
      lastUpdated := now;
    }

    /** addBuyTrade(qty, price) at time `now`. */
    method AddBuyTrade(qty: int, price: real, now: Tick)
      modifies this
      ensures State() == AfterBuy(old(State()), qty, price, now)
      ensures old(Valid()) ==> Valid()
    {
      var tradeNotional := TradeNotional(qty, price);
      totalBuyNotional := totalBuyNotional + tradeNotional;
      totalBuyQty := totalBuyQty + qty;
      if totalBuyQty > 0 {
        avgBuyPrice := Round8(totalBuyNotional / totalBuyQty as real);
      } else {
        avgBuyPrice := 0.0;
      }
      lastUpdated := now;
    }

    /** addSellTrade(qty, price) at time `now`. */
    method AddSellTrade(qty: int, price: real, now: Tick)
      modifies this
      ensures State() == AfterSell(old(State()), qty, price, now)
      ensures old(Valid()) ==> Valid()
    {
      var tradeNotional := TradeNotional(qty, price);
      totalSellNotional := totalSellNotional + tradeNotional;
      totalSellQty := totalSellQty + qty;
      if totalSellQty > 0 {
        avgSellPrice := Round8(totalSellNotional / totalSellQty as real);
      } else {
        avgSellPrice := 0.0;
      }
      lastUpdated := now;
    }

    /** getNetQty. */
    function NetQty(): (n: int)
      reads this
      ensures n == NetQtyOf(State())
    {
      totalBuyQty - totalSellQty
    }

    /** getNetNotional. */
    function NetNotional(): (n: real)
      reads this
      ensures n == NetNotionalOf(State())
    {
      totalBuyNotional - totalSellNotional
    }

    /** getNetAveragePrice. */
    function NetAveragePrice(): (r: real)
      reads this
      ensures r == NetAveragePriceOf(State())
    {
      var netQty := NetQty();
      if netQty != 0 then Round8(NetNotional() / netQty as real) else 0.0
    }
  }
}

/**
 * AggregationEventHandler: for one aggregation group, route each decoded trade
 * to the statistics object of its key (creating it on first sight), book the
 * trade to the buy or the sell side by its side string, and publish the key and
 * that object on the update ring buffer.
 */
module Aggregation {
  import opened Wrappers
  import opened JavaStrings
  import opened Trades
  import opened AggregationKeys
  import opened KeyGeneration
  import opened AggregationStatistics
  import opened Events

  // ---------------------------------------------------------------------------
  // Side dispatch
  // ---------------------------------------------------------------------------

  /**
   * The side a trade is booked to: BUY when "BUY".equalsIgnoreCase(side), else
   * SELL when "SELL".equalsIgnoreCase(side), else none (the trade is not booked).
   * A null side matches neither.
   */
  function SideOf(side: Option<string>): (r: Option<Side>)
    ensures side.None? ==> r.None?
    ensures r == Some(Buy) ==> |side.value| == 3
    ensures r == Some(Sell) ==> |side.value| == 4
  {
    if side.Some? && EqualsIgnoreCase("BUY", side.value) then Some(Buy)
    else if side.Some? && EqualsIgnoreCase("SELL", side.value) then Some(Sell)
    else None
  }

  /**
   * The side strings that book a trade, spelled out: "BUY" and "SELL" with each
   * letter in either case (and U+017F, the long s, standing for the S of SELL).
   */
  lemma SideOfSpelling(side: string)
    ensures SideOf(Some(side)) == Some(Buy) <==>
      |side| == 3 && side[0] in "Bb" && side[1] in "Uu" && side[2] in "Yy"
    ensures SideOf(Some(side)) == Some(Sell) <==>
      |side| == 4 && side[0] in "Ss\U{017F}" && side[1] in "Ee" && side[2] in "Ll" && side[3] in "Ll"
  {
    MatchesBuy(side);
    MatchesSell(side);
  }

  // ---------------------------------------------------------------------------
  // The handler's map as a value
  // ---------------------------------------------------------------------------

  /** The statistics per key, as values. */
  type StatsByKey = map<Key, StatsState>

  /**
   * One onEvent with a trade: the trade's key gets a fresh entry stamped `now`
   * if it has none, and the trade is booked to that entry's side if it has one.
   */
  function Step(m: StatsByKey, t: Trade, g: AggregationGroup, now: Tick): (r: StatsByKey)
    ensures r.Keys == m.Keys + {GenerateKey(t, g)}
    ensures forall k :: k in m && k != GenerateKey(t, g) ==> r[k] == m[k]
  {
    var k := GenerateKey(t, g);
    m[k := Booked(if k in m then m[k] else Initial(now), t, now)]
  }

  /** One entry after the trade is booked to the side its side string names, if any. */
  function Booked(s: StatsState, t: Trade, now: Tick): (r: StatsState)
    ensures SideOf(t.side).None? ==> r == s
    ensures SideOf(t.side).Some? ==> r.lastUpdated == now
    ensures Consistent(s) ==> Consistent(r)
  {
    match SideOf(t.side)
    case Some(side) => Record(s, side, t.quantity, t.price, now)
    case None => s
  }

  /** Every entry's averages agree with its totals. */
  predicate AllConsistent(m: StatsByKey) {
    forall k :: k in m ==> Consistent(m[k])
  }

  /** One step keeps every entry consistent. */
  lemma StepConsistent(m: StatsByKey, t: Trade, g: AggregationGroup, now: Tick)
    ensures AllConsistent(m) ==> AllConsistent(Step(m, t, g, now))
  {
    var k := GenerateKey(t, g);
    var s := if k in m then m[k] else Initial(now);
    if AllConsistent(m) {
      assert Consistent(s);
      match SideOf(t.side)
      case Some(side) => RecordKeepsConsistent(s, side, t.quantity, t.price, now);
      case None =>
    }
  }

  /** The trades, each with the time of its onEvent, processed in order. */
  function Fold(m: StatsByKey, events: seq<(Trade, Tick)>, g: AggregationGroup): StatsByKey
    decreases |events|
  {
    if events == [] then m
    else Fold(Step(m, events[0].0, g, events[0].1), events[1..], g)
  }

  /** The keys the trades of `events` fall under. */
  function KeysOf(events: seq<(Trade, Tick)>, g: AggregationGroup): set<Key>
    decreases |events|
  {
    if events == [] then {} else {GenerateKey(events[0].0, g)} + KeysOf(events[1..], g)
  }

  /** The bookings of the trades under key `k`, in order; trades with neither side are skipped. */
  function FillsFor(events: seq<(Trade, Tick)>, g: AggregationGroup, k: Key): seq<Fill>
    decreases |events|
  {
    if events == [] then []
    else
      var t := events[0].0;
      var rest := FillsFor(events[1..], g, k);
      if GenerateKey(t, g) == k && SideOf(t.side).Some? then
        [Fill(SideOf(t.side).value, t.quantity, t.price, events[0].1)] + rest
      else rest
  }

  /** The running quantity of `side` in entry `k`, zero for a missing entry. */
  function QtyIn(m: StatsByKey, k: Key, side: Side): int {
    if k in m then TotalQty(m[k], side) else 0
  }

  /** The running notional of `side` in entry `k`, zero for a missing entry. */
  function NotionalIn(m: StatsByKey, k: Key, side: Side): real {
    if k in m then TotalNotional(m[k], side) else 0.0
  }

  /** Processing trades adds exactly their keys to the map. */
  lemma {:induction false} FoldKeys(m: StatsByKey, events: seq<(Trade, Tick)>, g: AggregationGroup)
    ensures Fold(m, events, g).Keys == m.Keys + KeysOf(events, g)
    decreases |events|
  {
    if events != [] {
      FoldKeys(Step(m, events[0].0, g, events[0].1), events[1..], g);
    }
  }

  /** Processing trades keeps every entry consistent. */
  lemma {:induction false} FoldConsistent(m: StatsByKey, events: seq<(Trade, Tick)>, g: AggregationGroup)
    requires AllConsistent(m)
    ensures AllConsistent(Fold(m, events, g))
    decreases |events|
  {
    if events != [] {
      StepConsistent(m, events[0].0, g, events[0].1);
      FoldConsistent(Step(m, events[0].0, g, events[0].1), events[1..], g);
    }
  }

  /** One step adds the trade's quantity and notional to its own key and side only. */
  lemma StepTotals(m: StatsByKey, t: Trade, g: AggregationGroup, now: Tick, k: Key, side: Side)
    ensures QtyIn(Step(m, t, g, now), k, side) ==
      QtyIn(m, k, side) + SideQty(FillsFor([(t, now)], g, k), side)
    ensures NotionalIn(Step(m, t, g, now), k, side) ==
      NotionalIn(m, k, side) + SideNotional(FillsFor([(t, now)], g, k), side)
  {
    var key := GenerateKey(t, g);
    var s := if key in m then m[key] else Initial(now);
    assert FillsFor([(t, now)][1..], g, k) == [];
    if key == k {
      assert QtyIn(m, k, side) == TotalQty(s, side) && NotionalIn(m, k, side) == TotalNotional(s, side);
      match SideOf(t.side)
      case Some(booked) =>
        RecordTotals(s, booked, t.quantity, t.price, now, side);
      case None =>
    }
  }

  /** The bookings under a key split along a split of the trades. */
  lemma FillsForCons(events: seq<(Trade, Tick)>, g: AggregationGroup, k: Key)
    requires events != []
    ensures FillsFor(events, g, k) == FillsFor([events[0]], g, k) + FillsFor(events[1..], g, k)
  {
    assert FillsFor([events[0]][1..], g, k) == [];
  }

  /** Quantities over a concatenation of fills add up. */
  lemma {:induction false} SideQtyAppend(a: seq<Fill>, b: seq<Fill>, side: Side)
    ensures SideQty(a + b, side) == SideQty(a, side) + SideQty(b, side)
    decreases |a|
  {
    if a == [] {
      assert a + b == b;
    } else {
      assert (a + b)[0] == a[0] && (a + b)[1..] == a[1..] + b;
      SideQtyAppend(a[1..], b, side);
    }
  }

  /** Notionals over a concatenation of fills add up. */
  lemma {:induction false} SideNotionalAppend(a: seq<Fill>, b: seq<Fill>, side: Side)
    ensures SideNotional(a + b, side) == SideNotional(a, side) + SideNotional(b, side)
    decreases |a|
  {
    if a == [] {
      assert a + b == b;
    } else {
      assert (a + b)[0] == a[0] && (a + b)[1..] == a[1..] + b;
      SideNotionalAppend(a[1..], b, side);
    }
  }

  /**
   * After processing trades, each side of each entry holds what it held before
   * plus the quantity and notional of exactly the trades routed to that key and
   * booked to that side.
   */
  lemma {:induction false} FoldTotals(m: StatsByKey, events: seq<(Trade, Tick)>, g: AggregationGroup, k: Key, side: Side)
    ensures QtyIn(Fold(m, events, g), k, side) == QtyIn(m, k, side) + SideQty(FillsFor(events, g, k), side)
    ensures NotionalIn(Fold(m, events, g), k, side) ==
      NotionalIn(m, k, side) + SideNotional(FillsFor(events, g, k), side)
    decreases |events|
  {
    if events != [] {
      var (t, now) := events[0];
      var m' := Step(m, t, g, now);
      StepTotals(m, t, g, now, k, side);
      FoldTotals(m', events[1..], g, k, side);
      FillsForCons(events, g, k);
      SideQtyAppend(FillsFor([events[0]], g, k), FillsFor(events[1..], g, k), side);
      SideNotionalAppend(FillsFor([events[0]], g, k), FillsFor(events[1..], g, k), side);
    }
  }

  /**
   * Starting from an empty map, every entry shows exactly the totals of the
   * trades routed to its key, and its averages are those totals' averages; the
   * keys present are exactly the keys of the trades.
   */
  lemma AggregateFromEmpty(events: seq<(Trade, Tick)>, g: AggregationGroup, k: Key)
    ensures k in Fold(map[], events, g) <==> k in KeysOf(events, g)
    ensures k in Fold(map[], events, g) ==>
      var s := Fold(map[], events, g)[k];
      var fills := FillsFor(events, g, k);
      s.totalBuyQty == SideQty(fills, Buy) && s.totalBuyNotional == SideNotional(fills, Buy) &&
      s.avgBuyPrice == AveragePrice(SideNotional(fills, Buy), SideQty(fills, Buy)) &&
      s.totalSellQty == SideQty(fills, Sell) && s.totalSellNotional == SideNotional(fills, Sell) &&
      s.avgSellPrice == AveragePrice(SideNotional(fills, Sell), SideQty(fills, Sell))
  {
    FoldKeys(map[], events, g);
    FoldConsistent(map[], events, g);
    FoldTotals(map[], events, g, k, Buy);
    FoldTotals(map[], events, g, k, Sell);
  }

  // ---------------------------------------------------------------------------
  // The update ring buffer
  // ---------------------------------------------------------------------------

  /**
   * The part of the Disruptor ring buffer of updates the handler uses: a fixed
   * set of preallocated slots, the next sequence to claim, and the sequences
   * published so far, in order.
   */
  class UpdateRingBuffer {
    const slots: array<AggregationUpdateEvent>
    var nextSequence: nat
    var published: seq<nat>

    /** There is at least one slot, and no two slots share an event object. */
    predicate Valid()
      reads this, slots
    {
      slots.Length > 0 &&
      forall i, j :: 0 <= i < slots.Length && 0 <= j < slots.Length && i != j ==> slots[i] != slots[j]
    }

    /** A buffer of `size` fresh, empty slots with nothing claimed or published. */
    constructor(size: nat)
      requires size > 0
      ensures Valid() && slots.Length == size && fresh(slots)
      ensures nextSequence == 0 && published == []
      ensures forall i :: 0 <= i < size ==> fresh(slots[i]) && slots[i].key == None && slots[i].stats == null
    {
      var first := new AggregationUpdateEvent();
      var a := new AggregationUpdateEvent[size](_ => first);
      var i := 0;
      while i < size
        invariant 0 <= i <= size
        invariant forall j :: 0 <= j < i ==> fresh(a[j]) && a[j].key == None && a[j].stats == null
        invariant forall j, l :: 0 <= j < i && 0 <= l < i && j != l ==> a[j] != a[l]
      {
        var e := new AggregationUpdateEvent();
        a[i] := e;
        i := i + 1;
      }
      slots := a;
      nextSequence := 0;
      published := [];
    }

    /** get(sequence): the slot a sequence maps to. */
    function Get(sequence: nat): (e: AggregationUpdateEvent)
      requires Valid()
      reads this, slots
      ensures e in slots[..]
      ensures forall i :: 0 <= i < slots.Length && i != sequence % slots.Length ==> slots[i] != e
    {
      slots[sequence % slots.Length]
    }

    /** next(): claim the next sequence. */
    method Next() returns (sequence: nat)
      modifies this
      ensures sequence == old(nextSequence) && nextSequence == sequence + 1
      ensures published == old(published)
    {
      sequence := nextSequence;
      nextSequence := nextSequence + 1;
    }

    /** publish(sequence): make a claimed slot visible to the consumers. */
    method Publish(sequence: nat)
      modifies this
      ensures published == old(published) + [sequence] && nextSequence == old(nextSequence)
    {
      published := published + [sequence];
    }
  }

  // ---------------------------------------------------------------------------
  // The handler
  // ---------------------------------------------------------------------------

  /**
   * The side dispatch of onEvent: addBuyTrade for a "BUY" side, addSellTrade for
   * a "SELL" side (both compared ignoring case), nothing for any other side.
   */
  method BookOn(stats: AggregationStats, trade: Trade, now: Tick)
    modifies stats
    ensures stats.State() == Booked(old(stats.State()), trade, now)
    ensures old(stats.Valid()) ==> stats.Valid()
  {
    if trade.side.Some? && EqualsIgnoreCase("BUY", trade.side.value) {
      stats.AddBuyTrade(trade.quantity, trade.price, now);
    } else if trade.side.Some? && EqualsIgnoreCase("SELL", trade.side.value) {
      stats.AddSellTrade(trade.quantity, trade.price, now);
    }
  }

  /** The handler for one aggregation group, with its map and the buffer it publishes to. */
  class AggregationEventHandler {
    const group: AggregationGroup
    var aggregationMap: map<Key, AggregationStats>
    const updateRingBuffer: UpdateRingBuffer
    /** The map's entries as values. */
    ghost var model: StatsByKey

    /**
     * `model` holds the state of each stored object, and each object belongs to
     * one key only, so that updating one entry leaves the others alone.
     */
    ghost predicate Valid()
      reads this, aggregationMap.Values, updateRingBuffer, updateRingBuffer.slots
    {
      updateRingBuffer.Valid() &&
      aggregationMap.Keys == model.Keys &&
      (forall k :: k in aggregationMap ==> aggregationMap[k].State() == model[k]) &&
      (forall k1, k2 :: k1 in aggregationMap && k2 in aggregationMap && k1 != k2 ==>
        aggregationMap[k1] != aggregationMap[k2])
    }

    /** A handler for `group` publishing to `updateRingBuffer`, with an empty map. */
    constructor(group: AggregationGroup, updateRingBuffer: UpdateRingBuffer)
      requires updateRingBuffer.Valid()
      ensures Valid() && model == map[]
      ensures this.group == group && this.updateRingBuffer == updateRingBuffer
    {
      this.group := group;
      this.updateRingBuffer := updateRingBuffer;
      aggregationMap := map[];
      model := map[];
    }

    /**
     * The statistics object for `key`: the stored one, or a new one stamped `now`
     * that is stored under `key` first.
     */
    method Locate(key: Key, now: Tick) returns (stats: AggregationStats)
      requires Valid()
      modifies this
      ensures Valid()
      ensures aggregationMap == old(aggregationMap)[key := stats]
      ensures key in old(aggregationMap) ==> stats == old(aggregationMap[key]) && model == old(model)
      ensures key !in old(aggregationMap) ==> fresh(stats) && model == old(model)[key := Initial(now)]
    {
      if key in aggregationMap {
        stats := aggregationMap[key];
      } else {
        stats := new AggregationStats(now);
        aggregationMap := aggregationMap[key := stats];
        model := model[key := Initial(now)];
      }
    }

    /**
     * Books `trade` to the side its side string names on the object stored under
     * `key`; the other entries are left alone.
     */
    method BookTrade(key: Key, stats: AggregationStats, trade: Trade, now: Tick)
      requires Valid() && key in aggregationMap && aggregationMap[key] == stats
      modifies this, stats
      ensures Valid() && aggregationMap == old(aggregationMap)
      ensures model == old(model)[key := Booked(old(model[key]), trade, now)]
    {
      BookOn(stats, trade, now);
      model := model[key := stats.State()];
      assert forall k :: k in aggregationMap && k != key ==> aggregationMap[k] != stats;
    }

    /**
     * The map part of onEvent for a trade whose key is `key`: the object stored
     * under `key` (found or newly created) has the trade booked to it.
     */
    method Aggregate(key: Key, trade: Trade, now: Tick) returns (stats: AggregationStats)
      requires Valid()
      modifies this, aggregationMap.Values
      ensures Valid()
      ensures model == old(model)[key := Booked(if key in old(model) then old(model[key]) else Initial(now), trade, now)]
      ensures aggregationMap == old(aggregationMap)[key := stats]
      ensures key in old(aggregationMap) ==> stats == old(aggregationMap[key])
      ensures key !in old(aggregationMap) ==> fresh(stats)
    {
      ghost var m0 := model;
      ghost var start := if key in m0 then m0[key] else Initial(now);
      stats := Locate(key, now);
      BookTrade(key, stats, trade, now);
      assert model == m0[key := Booked(start, trade, now)];
    }

    /** Writes `key` and `stats` into the next update slot and publishes it. */
    method PublishUpdate(key: Key, stats: AggregationStats)
      requires Valid()
      modifies updateRingBuffer, updateRingBuffer.slots[..]
      ensures Valid()
      ensures updateRingBuffer.nextSequence == old(updateRingBuffer.nextSequence) + 1
      ensures forall i | 0 <= i < updateRingBuffer.slots.Length &&
        i != old(updateRingBuffer.nextSequence) % updateRingBuffer.slots.Length ::
        updateRingBuffer.slots[i].key == old(updateRingBuffer.slots[i].key) &&
        updateRingBuffer.slots[i].stats == old(updateRingBuffer.slots[i].stats)
      ensures updateRingBuffer.published == old(updateRingBuffer.published) + [old(updateRingBuffer.nextSequence)]
      ensures updateRingBuffer.Get(old(updateRingBuffer.nextSequence)).key == Some(key)
      ensures updateRingBuffer.Get(old(updateRingBuffer.nextSequence)).stats == stats
    {
      var updateSeq := updateRingBuffer.Next();
      var updateEvent := updateRingBuffer.Get(updateSeq);
      updateEvent.SetKey(Some(key));
      updateEvent.SetStats(stats);
      updateRingBuffer.Publish(updateSeq);
    }

    /**
     * The work onEvent does for a trade: the map's values become Step of the old
     * ones, the trade's key keeps its object or gets a new one, the next update
     * slot holds the key and the very statistics object stored under it, and
     * that slot's sequence is published.
     */
    method Process(trade: Trade, now: Tick)
      requires Valid()
      modifies this, aggregationMap.Values, updateRingBuffer, updateRingBuffer.slots[..]
      ensures Valid()
      ensures model == Step(old(model), trade, group, now)
      ensures var key := GenerateKey(trade, group);
        key in aggregationMap && aggregationMap == old(aggregationMap)[key := aggregationMap[key]] &&
        (key in old(aggregationMap) ==> aggregationMap[key] == old(aggregationMap[key])) &&
        (key !in old(aggregationMap) ==> fresh(aggregationMap[key]))
      ensures updateRingBuffer.nextSequence == old(updateRingBuffer.nextSequence) + 1
      ensures forall i | 0 <= i < updateRingBuffer.slots.Length &&
        i != old(updateRingBuffer.nextSequence) % updateRingBuffer.slots.Length ::
        updateRingBuffer.slots[i].key == old(updateRingBuffer.slots[i].key) &&
        updateRingBuffer.slots[i].stats == old(updateRingBuffer.slots[i].stats)
      ensures updateRingBuffer.published == old(updateRingBuffer.published) + [old(updateRingBuffer.nextSequence)]
      ensures updateRingBuffer.Get(old(updateRingBuffer.nextSequence)).key == Some(GenerateKey(trade, group))
      ensures updateRingBuffer.Get(old(updateRingBuffer.nextSequence)).stats == aggregationMap[GenerateKey(trade, group)]
    {
      var key := GenerateKey(trade, group);
      var stats := Aggregate(key, trade, now);
      PublishUpdate(key, stats);
    }

    /**
     * onEvent(event) at time `now`: nothing happens when the slot holds no trade;
     * otherwise the trade is processed as Process describes.
     */
    method OnEvent(event: TradeEvent, now: Tick)
      requires Valid()
      modifies this, aggregationMap.Values, updateRingBuffer, updateRingBuffer.slots[..]
      ensures Valid()
      ensures event.trade.None? ==>
        model == old(model) && aggregationMap == old(aggregationMap) &&
        unchanged(updateRingBuffer) &&
        forall i :: 0 <= i < updateRingBuffer.slots.Length ==> unchanged(updateRingBuffer.slots[i])
      ensures event.trade.Some? ==> model == Step(old(model), event.trade.value, group, now)
      ensures event.trade.Some? ==>
        var key := GenerateKey(event.trade.value, group);
        key in aggregationMap && aggregationMap == old(aggregationMap)[key := aggregationMap[key]] &&
        (key in old(aggregationMap) ==> aggregationMap[key] == old(aggregationMap[key])) &&
        (key !in old(aggregationMap) ==> fresh(aggregationMap[key]))
      ensures event.trade.Some? ==>
        updateRingBuffer.nextSequence == old(updateRingBuffer.nextSequence) + 1 &&
        updateRingBuffer.published == old(updateRingBuffer.published) + [old(updateRingBuffer.nextSequence)]
      ensures event.trade.Some? ==>
        forall i | 0 <= i < updateRingBuffer.slots.Length &&
          i != old(updateRingBuffer.nextSequence) % updateRingBuffer.slots.Length ::
          updateRingBuffer.slots[i].key == old(updateRingBuffer.slots[i].key) &&
          updateRingBuffer.slots[i].stats == old(updateRingBuffer.slots[i].stats)
      ensures event.trade.Some? ==>
        var key := GenerateKey(event.trade.value, group);
        updateRingBuffer.Get(old(updateRingBuffer.nextSequence)).key == Some(key) &&
        updateRingBuffer.Get(old(updateRingBuffer.nextSequence)).stats == aggregationMap[key]
    {
      if event.trade.None? {
        return;
      }
      Process(event.trade.value, now);
    }
  }
}

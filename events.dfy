/**
 * The two kinds of ring-buffer slot: TradeEvent, which carries a trade from its
 * serialized form to its decoded form, and AggregationUpdateEvent, which carries
 * a key and the statistics object it now points at to the publishers. Both are
 * mutable holders whose fields the handlers set in place.
 */
module Events {
  import opened Wrappers
  import opened Trades
  import opened AggregationKeys
  import opened AggregationStatistics

  /** The contents of a TradeEvent slot: the wire bytes and the decoded trade, each possibly null. */
  datatype TradeSlot = TradeSlot(protoBytes: Option<Bytes>, trade: Option<Trade>)

  /** A TradeEvent slot. */
  class TradeEvent {
    var protoBytes: Option<Bytes>
    var trade: Option<Trade>

    /** The slot's fields as a value. */
    function State(): TradeSlot
      reads this
    {
      TradeSlot(protoBytes, trade)
    }

    /** A newly allocated slot: both fields null. */
    constructor()
      ensures State() == TradeSlot(None, None)
    {
      protoBytes, trade := None, None;
    }

    /** setProtoBytes: only the bytes change. */
    method SetProtoBytes(bytes: Option<Bytes>)
      modifies this
      ensures State() == old(State()).(protoBytes := bytes)
    {
      protoBytes := bytes;
    }

    /** setTrade: only the trade changes. */
    method SetTrade(t: Option<Trade>)
      modifies this
      ensures State() == old(State()).(trade := t)
    {
      trade := t;
    }

    /** clear: both fields back to null, as in a newly allocated slot. */
    method Clear()
      modifies this
      ensures State() == TradeSlot(None, None)
    {
      protoBytes := None;
      trade := None;
    }
  }

  /** An AggregationUpdateEvent slot. */
  class AggregationUpdateEvent {
    var key: Option<Key>
    var stats: AggregationStats?

    /** A newly allocated slot: both fields null. */
    constructor()
      ensures key == None && stats == null
    {
      key, stats := None, null;
    }

    /** setKey: only the key changes. */
    method SetKey(k: Option<Key>)
      modifies this
      ensures key == k && stats == old(stats)
    {
      key := k;
    }

    /**
     * setStats: the slot now refers to `s` itself (not a copy), so later updates
     * to `s` are visible through the slot.
     */
    method SetStats(s: AggregationStats?)
      modifies this
      ensures stats == s && key == old(key)
    {
      stats := s;
    }

    /** clear: both fields back to null. */
    method Clear()
      modifies this
      ensures key == None && stats == null
    {
      key := None;
      stats := null;
    }
  }
}

/**
 * DeserializationHandler: the first consumer of a TradeEvent decodes the wire
 * bytes into a trade when there are bytes and no trade yet. The protobuf decoder
 * Trade.parseFrom is a parameter: it gives the decoded trade, or None where it
 * would throw InvalidProtocolBufferException.
 */
module Deserialization {
  import opened Wrappers
  import opened Trades
  import opened Events

  /**
   * The slot after onEvent. Bytes present and no trade: the decoded trade is
   * stored, or, when decoding throws, nothing changes. Otherwise nothing changes.
   */
  function Deserialized(s: TradeSlot, parseFrom: Bytes -> Option<Trade>): (r: TradeSlot)
    ensures r.protoBytes == s.protoBytes
    ensures s.trade.Some? || s.protoBytes.None? ==> r == s
    ensures s.trade.None? && s.protoBytes.Some? ==> r.trade == parseFrom(s.protoBytes.value)
  {
    if s.protoBytes.Some? && s.trade.None? then
      match parseFrom(s.protoBytes.value)
      case Some(t) => s.(trade := Some(t))
      case None => s
    else s
  }

  /** Whether onEvent ends by throwing: there was something to decode and the decoder rejected it. */
  predicate Throws(s: TradeSlot, parseFrom: Bytes -> Option<Trade>) {
    s.protoBytes.Some? && s.trade.None? && parseFrom(s.protoBytes.value).None?
  }

  /**
   * Running the handler twice is the same as running it once: once a trade is
   * present it is never replaced, and a rejected payload is rejected again.
   */
  lemma DeserializedIdempotent(s: TradeSlot, parseFrom: Bytes -> Option<Trade>)
    ensures Deserialized(Deserialized(s, parseFrom), parseFrom) == Deserialized(s, parseFrom)
    ensures Throws(Deserialized(s, parseFrom), parseFrom) == Throws(s, parseFrom)
  {
  }

  /**
   * After the handler the slot holds a trade exactly when it held one already or
   * its bytes decode; the handler throws exactly when bytes are present, no trade
   * is, and the bytes do not decode.
   */
  lemma DeserializedHasTrade(s: TradeSlot, parseFrom: Bytes -> Option<Trade>)
    ensures Deserialized(s, parseFrom).trade.Some? <==>
      s.trade.Some? || (s.protoBytes.Some? && parseFrom(s.protoBytes.value).Some?)
    ensures Throws(s, parseFrom) <==> s.trade.None? && Deserialized(s, parseFrom).trade.None? && s.protoBytes.Some?
  {
  }

  /**
   * onEvent on the slot `event`; `thrown` reports the exception Trade.parseFrom
   * propagates, in which case the slot is left as it was.
   */
  method OnEvent(event: TradeEvent, parseFrom: Bytes -> Option<Trade>) returns (thrown: bool)
    modifies event
    ensures event.State() == Deserialized(old(event.State()), parseFrom)
    ensures thrown == Throws(old(event.State()), parseFrom)
  {
    thrown := false;
    if event.protoBytes.Some? && event.trade.None? {
      var decoded := parseFrom(event.protoBytes.value);
      if decoded.None? {
        thrown := true;
        return;
      }
      event.SetTrade(decoded);
    }
  }
}

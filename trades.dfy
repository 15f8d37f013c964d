/**
 * The decoded trade record and its wire form. The record is produced by a
 * protobuf codec that is not part of this model; only the getters the
 * aggregation core calls are represented.
 */
module Trades {
  import opened Wrappers

  newtype byte = x: int | 0 <= x < 256

  /** The serialized form of a trade, as it arrives in a slot. */
  type Bytes = seq<byte>

  /**
   * A decoded trade. The string getters may yield null (Option.None); the side
   * is free text, matched against "BUY" and "SELL" ignoring case; the quantity is
   * a Java long (unbounded here) and the price a BigDecimal (an exact real here).
   */
  datatype Trade = Trade(
    book: Option<string>,
    instrument: Option<string>,
    counterparty: Option<string>,
    side: Option<string>,
    quantity: int,
    price: real)
}

/**
 * AggregationKeyGenerator and AggregationGroup: the grouping level chosen for a
 * handler decides which of a trade's attributes make up its aggregation key.
 */
module KeyGeneration {
  import opened Wrappers
  import opened Trades
  import opened AggregationKeys

  /** BOOK, BOOK_INSTRUMENT, BOOK_INSTRUMENT_COUNTERPARTY: ever finer groupings. */
  datatype AggregationGroup = ByBook | ByBookInstrument | ByBookInstrumentCounterparty

  /** How many leading components (in book, instrument, counterparty order) a group keeps. */
  function Depth(g: AggregationGroup): nat {
    match g
    case ByBook => 1
    case ByBookInstrument => 2
    case ByBookInstrumentCounterparty => 3
  }

  /** The position of a component in the canonical order, from 1. */
  function Rank(f: Field): nat {
    match f
    case Book => 1
    case Instrument => 2
    case Counterparty => 3
  }

  /** Whether group `g` keys on component `f`. */
  predicate Selects(g: AggregationGroup, f: Field) {
    Rank(f) <= Depth(g)
  }

  /** The trade attribute that feeds component `f` of a key. */
  function TradeField(t: Trade, f: Field): Option<string> {
    match f
    case Book => t.book
    case Instrument => t.instrument
    case Counterparty => t.counterparty
  }

  /**
   * generateKey: each component the group selects is copied from the trade
   * (null stays null); every other component is null.
   */
  function GenerateKey(t: Trade, g: AggregationGroup): (k: Key)
    ensures forall f :: Get(k, f) == if Selects(g, f) then TradeField(t, f) else None
  {
    match g
    case ByBook => Key(t.book, None, None)
    case ByBookInstrument => Key(t.book, t.instrument, None)
    case ByBookInstrumentCounterparty => Key(t.book, t.instrument, t.counterparty)
  }

  /** A key cut down to the components group `g` selects. */
  function Project(k: Key, g: AggregationGroup): (p: Key)
    ensures forall f :: Get(p, f) == if Selects(g, f) then Get(k, f) else None
  {
    Key(k.book,
        if Selects(g, Instrument) then k.instrument else None,
        if Selects(g, Counterparty) then k.counterparty else None)
  }

  /**
   * Two trades fall into the same bucket exactly when they agree on every
   * attribute the group selects; their keys then also hash alike.
   */
  lemma SameBucketIffSelectedFieldsAgree(t1: Trade, t2: Trade, g: AggregationGroup)
    ensures GenerateKey(t1, g) == GenerateKey(t2, g) <==>
      forall f :: Selects(g, f) ==> TradeField(t1, f) == TradeField(t2, f)
    ensures GenerateKey(t1, g) == GenerateKey(t2, g) ==>
      HashCode(GenerateKey(t1, g)) == HashCode(GenerateKey(t2, g))
  {
    var k1, k2 := GenerateKey(t1, g), GenerateKey(t2, g);
    if forall f :: Selects(g, f) ==> TradeField(t1, f) == TradeField(t2, f) {
      assert forall f :: Get(k1, f) == Get(k2, f);
      assert Equals(k1, k2);
    }
  }

  /** The key of a coarser group is the finer key with the extra components dropped. */
  lemma CoarserKeyIsProjection(t: Trade, coarse: AggregationGroup, fine: AggregationGroup)
    requires Depth(coarse) <= Depth(fine)
    ensures GenerateKey(t, coarse) == Project(GenerateKey(t, fine), coarse)
  {
    var a, b := GenerateKey(t, coarse), Project(GenerateKey(t, fine), coarse);
    assert forall f :: Get(a, f) == Get(b, f);
    assert Equals(a, b);
  }

  /** Trades in one bucket of a finer group are in one bucket of every coarser group. */
  lemma FinerBucketWithinCoarser(t1: Trade, t2: Trade, coarse: AggregationGroup, fine: AggregationGroup)
    requires Depth(coarse) <= Depth(fine)
    requires GenerateKey(t1, fine) == GenerateKey(t2, fine)
    ensures GenerateKey(t1, coarse) == GenerateKey(t2, coarse)
  {
    CoarserKeyIsProjection(t1, coarse, fine);
    CoarserKeyIsProjection(t2, coarse, fine);
  }

  /** A generated key is well formed exactly when every selected attribute is. */
  lemma GeneratedKeyWellFormed(t: Trade, g: AggregationGroup)
    ensures WellFormed(GenerateKey(t, g)) <==> forall f :: Selects(g, f) ==> WellFormedValue(TradeField(t, f))
  {
    var k := GenerateKey(t, g);
    assert Get(k, Book) == k.book && Get(k, Instrument) == k.instrument && Get(k, Counterparty) == k.counterparty;
  }

  /**
   * A generated key survives toString/fromString exactly when every attribute
   * the group selects is null or a non-empty, `;`-free, unpadded string.
   */
  lemma GeneratedKeyRoundTrip(t: Trade, g: AggregationGroup)
    ensures Parse(Some(ToString(GenerateKey(t, g)))) == Success(GenerateKey(t, g)) <==>
      forall f :: Selects(g, f) ==> WellFormedValue(TradeField(t, f))
  {
    RoundTrip(GenerateKey(t, g));
    GeneratedKeyWellFormed(t, g);
  }
}

# Online trade aggregation: a verified Dafny model

This project models the online aggregation engine of a trade-processing pipeline.
Trades arrive as protobuf bytes in `TradeEvent` ring-buffer slots.

- `DeserializationHandler` decodes each slot's bytes into a `Trade`, once.
- Each `AggregationEventHandler` works for one `AggregationGroup`. It turns every
  decoded trade into an `AggregationKey` (the trade's book, plus its instrument and
  counterparty when the group selects them). It finds or creates the key's
  `AggregationStats` object and books the trade to the buy or the sell side. Then it
  publishes the key and that very object in an `AggregationUpdateEvent` slot.
- `AggregationStats` keeps running quantities and notionals per side. It also keeps
  each side's average price, rounded HALF_UP to eight decimal places, and derives the
  net quantity, net notional and net average price from them.
- `AggregationKey` has a text form, `book=<b>;instrument=<i>;counterparty=<c>`, and a
  parser for it.

Modules, one file each:

| file | module | models |
|---|---|---|
| `wrappers.dfy` | `Wrappers` | `Option` (a nullable value) and `Result` (a value or a thrown exception) |
| `java_strings.dfy` | `JavaStrings` | `String.split`, `split(sep, 2)`, `trim`, `equalsIgnoreCase`, `hashCode`, and Java `int` wrap-around |
| `trades.dfy` | `Trades` | the decoded `Trade` record and its wire bytes |
| `aggregation_key.dfy` | `AggregationKeys` | `AggregationKey`: `equals`, `hashCode`, `toString`, `fromString` |
| `key_generator.dfy` | `KeyGeneration` | `AggregationGroup` and `AggregationKeyGenerator.generateKey` |
| `aggregation_stats.dfy` | `AggregationStatistics` | HALF_UP rounding to 8 places, the statistics as a value, and the mutable `AggregationStats` class |
| `events.dfy` | `Events` | the `TradeEvent` and `AggregationUpdateEvent` slot classes |
| `deserialization.dfy` | `Deserialization` | `DeserializationHandler.onEvent` |
| `aggregation_handler.dfy` | `Aggregation` | the update ring buffer, and the `AggregationEventHandler` class with its map as a value (`Step`, `Fold`) |

How the model is built:

- **Imperative parts are classes.** `AggregationStats`, the two slot classes, the
  update ring buffer and the handler are classes whose methods update fields in place.
- **Each method is proved against a value-level function.**
  - `AddBuyTrade` is proved against `AfterBuy`.
  - The handler's `OnEvent` is proved against `Step`, on a ghost `model` of its map.
  - `FromString`'s loop is proved against `Parse`.
- **Properties are proved as lemmas about those functions.**

The model follows the code, not a stricter reading of the key format or of the code's own comments:

- **`fromString` is lenient.** The code accepts the three parts in any order and
  any number of times. It keeps the last value given for a component, leaves an
  unmentioned component null, and keeps any further `=` inside the value. A text made
  only of `;` gives the all-null key.
  - `ParseTakesLastAssignment` and `SeparatorsOnlyParseToNullKey` state this.
- **The net average price can be positive when sells exceed buys.** The doc comment
  of `getNetAveragePrice` (Code/AggregationStats.java:92) says the result is then
  negative. It is not: net notional over net quantity is positive when both are
  negative. The code's own test expects 7.0 for 100 bought at 10 and 150 sold at 9.
  - `NetAverageSign` gives the actual sign rule.
  - `SellsExceedingBuys` proves the 7.0 example.

## Model

| member | source | states |
|---|---|---|
| JavaStrings.SplitAll | Code/AggregationKey.java:83 | the pieces hold no separator, there is at least one, and joining them with the separator gives back the input |
| JavaStrings.DropTrailingEmpty | Code/AggregationKey.java:83 | String.split's clean-up: the result is a prefix of the pieces that does not end in an empty piece, and every dropped piece is empty |
| JavaStrings.JavaSplit | Code/AggregationKey.java:83 | no piece of `s.split(";")` contains `;` |
| JavaStrings.IndexOf | Code/AggregationKey.java:88 | the position of the first occurrence: that character is there and does not occur before it |
| JavaStrings.SplitAtFirst | Code/AggregationKey.java:88-89 | `split("=", 2)` yields one piece exactly when there is no `=`; otherwise the first piece holds no `=` and piece + `=` + rest is the input |
| JavaStrings.TrimStart | Code/AggregationKey.java:92-93 | the result is a suffix of the input, starts with a non-blank, and only blanks (code at most U+0020) were removed |
| JavaStrings.TrimEnd | Code/AggregationKey.java:92-93 | the result is a prefix of the input, ends with a non-blank, and only blanks were removed |
| JavaStrings.Trim | Code/AggregationKey.java:92-93 | the result is the slice of the input between its leading and its trailing blanks (code at most U+0020): it starts where the leading blanks end, matches the input character by character from there, and only blanks follow it; so it has no blank at either end, and an input with none is returned as it is |
| JavaStrings.MatchesBuy | Code/AggregationEventHandler.java:25 | `"BUY".equalsIgnoreCase(s)` holds exactly when s is B, U, Y with each letter in either case |
| JavaStrings.MatchesSell | Code/AggregationEventHandler.java:27 | `"SELL".equalsIgnoreCase(s)` holds exactly when s is S, E, L, L with each letter in either case, or the long s U+017F as the S |
| JavaStrings.EqualsIgnoreCase | Code/AggregationEventHandler.java:25-27 | `a.equalsIgnoreCase(b)` for a non-null b: a string matches itself, and only strings of equal length match; MatchesBuy and MatchesSell give exactly the strings it accepts against "BUY" and "SELL" |
| JavaStrings.Wrap32 | Code/AggregationKey.java:20 | Java int arithmetic: the result is in the 32-bit range and congruent to the exact value modulo 2^32 |
| JavaStrings.StringHash | Code/AggregationKey.java:20 | String.hashCode is a Java int |
| AggregationKeys.FieldNamed | Code/AggregationKey.java:97-108 | the switch on the trimmed key: a component is selected only by its own name, and no component is selected by any other name |
| AggregationKeys.Get | Code/AggregationKey.java:23-33 | the getter of one component: writing what it returns back into the key changes nothing |
| AggregationKeys.Equals | Code/AggregationKey.java:35-43 | equals holds exactly when the keys are the same triple, i.e. exactly when every component agrees (null equal only to null) |
| AggregationKeys.HashCode | Code/AggregationKey.java:16-21 | the cached Objects.hash is a Java int, and keys that are equal have equal hashes |
| AggregationKeys.ToString | Code/AggregationKey.java:58-63 | the text starts with `book=` and is 31 characters longer than the three components, a null written as nothing; ToStringSegments, ParseToString and RoundTrip characterise it fully |
| AggregationKeys.ToStringSegments | Code/AggregationKey.java:58-63 | toString writes book, instrument, counterparty in that order, a null as nothing after its `=`; with no `;` in any component, splitting on `;` gives exactly those three segments |
| AggregationKeys.ParseSegment | Code/AggregationKey.java:88-109 | one part of the loop: it is rejected as an invalid key-value format, naming the part, exactly when it holds no `=`; a rejected key is trimmed and names no component; an accepted value is null or trimmed and never empty; SegmentOutcome gives the outcome for each split |
| AggregationKeys.Outcomes | Code/AggregationKey.java:87-88 | one outcome per `;`-separated part, in input order, each that part's own parse |
| AggregationKeys.Apply | Code/AggregationKey.java:87-110 | the loop over the parts' outcomes succeeds exactly when every part succeeds; ApplyFailsAtFirstBad and ApplyLastWins say which error and which values result |
| AggregationKeys.Parse | Code/AggregationKey.java:79-111 | fromString succeeds exactly when its argument is neither null nor empty and every `;`-separated part is accepted; NullOrEmptyRejected, ParseRejectsFirstBadSegment, ParseTakesLastAssignment and RoundTrip say what it returns |
| AggregationKeys.ReadPart | Code/AggregationKey.java:88-109 | the loop body for one part (split at the first `=`, trim both sides, switch on the key) gives exactly the part's `ParseSegment` outcome |
| AggregationKeys.FromString | Code/AggregationKey.java:79-112 | the loop over the parts (reassigning book, instrument, counterparty and throwing from inside) returns exactly `Parse(s)`, the outcome the lemmas below characterise |
| AggregationKeys.NullOrEmptyRejected | Code/AggregationKey.java:80-82 | a null or empty input throws "Input string cannot be null or empty." |
| AggregationKeys.SegmentOutcome | Code/AggregationKey.java:88-109 | a part is split at its first `=` only; the trimmed name selects the component, the trimmed rest (other `=` included) is the value, empty becomes null, and an unknown name throws UnexpectedKey with the trimmed name |
| AggregationKeys.NamedSegment | Code/AggregationKey.java:92-106 | a part whose unpadded name is a component's name assigns that component the trimmed value, null when empty |
| AggregationKeys.SegmentWithoutEquals | Code/AggregationKey.java:88-91 | a part with no `=` throws InvalidKeyValueFormat naming that part |
| AggregationKeys.ApplyFailsAtFirstBad | Code/AggregationKey.java:87-110 | the loop stops with the error of the first failing part, whatever follows it |
| AggregationKeys.ApplySucceeds | Code/AggregationKey.java:87-111 | when no part fails the loop returns a key |
| AggregationKeys.ParseRejectsFirstBadSegment | Code/AggregationKey.java:83-110 | fromString throws exactly the error of the first part, in input order, that has no `=` or an unknown key |
| AggregationKeys.ParseAcceptsGoodSegments | Code/AggregationKey.java:83-111 | fromString returns a key when every part has a `=` and a known name |
| AggregationKeys.LastAssignedCons | Code/AggregationKey.java:87-110 | scanning for the last assignment from the end agrees with applying the parts from the front |
| AggregationKeys.ApplyLastWins | Code/AggregationKey.java:87-110 | after the loop, each component holds the value of the last part naming it, or its value before the loop if none does |
| AggregationKeys.ParseTakesLastAssignment | Code/AggregationKey.java:84-111 | a repeated component takes its last value, and a component no part names stays null |
| AggregationKeys.SeparatorsOnlyParseToNullKey | Code/AggregationKey.java:83-111 | a non-empty input made only of `;` has no parts to read and parses to the all-null key (null, null, null) |
| AggregationKeys.ParseWellFormedSegment | Code/AggregationKey.java:88-106 | each `name=value` segment toString writes for a well-formed component is parsed back to that component and value |
| AggregationKeys.SegmentValueWellFormed | Code/AggregationKey.java:92-96 | any value a `;`-free part yields is null, or non-empty, `;`-free and unpadded |
| AggregationKeys.ApplyWellFormed | Code/AggregationKey.java:87-111 | the loop only ever stores such values |
| AggregationKeys.ParseYieldsWellFormed | Code/AggregationKey.java:79-112 | every key fromString returns has well-formed components |
| AggregationKeys.SplitThree | Code/AggregationKey.java:83 | three `;`-free pieces joined with `;`, the last non-empty, split back into exactly those pieces |
| AggregationKeys.ToStringOutcomes | Code/AggregationKey.java:58-110 | the three parts of a well-formed key's text assign book, instrument and counterparty in turn |
| AggregationKeys.ApplyEachComponent | Code/AggregationKey.java:97-111 | assigning book, instrument, counterparty in turn to the all-null start gives the key made of the three values |
| AggregationKeys.ParseToString | Code/AggregationKey.java:58-112 | fromString(toString(k)) == k for every well-formed k |
| AggregationKeys.RoundTrip | Code/AggregationKey.java:58-112 | fromString(toString(k)) == k exactly when every component is null, or non-empty, `;`-free and without blanks at either end |
| AggregationKeys.ToStringInjective | Code/AggregationKey.java:58-63 | different well-formed keys have different texts |
| AggregationKeys.ToStringOfParsedIsCanonical | Code/AggregationKey.java:79-112 | whatever text fromString accepts, the text of its result parses back to the same key |
| AggregationKeys.KnownPart | Code/AggregationKey.java:92-106 | a part made of a component's name, `=`, and a non-empty unpadded value assigns that value |
| AggregationKeys.UnknownPart | Code/AggregationKey.java:92-108 | a part whose unpadded name is no component's name throws UnexpectedKey with that name |
| AggregationKeys.ParseOfThree | Code/AggregationKey.java:83-110 | an input of three `;`-free parts, the last non-empty, is processed as the three parts' outcomes in order |
| AggregationKeys.ApplySecondFails | Code/AggregationKey.java:87-110 | with three parts where the first succeeds and the second fails, the loop throws the second part's error |
| AggregationKeys.ApplyThirdFails | Code/AggregationKey.java:87-110 | with three parts where the first two succeed and the third fails, the loop throws the third part's error |
| AggregationKeys.SecondOfThreeRejected | Code/AggregationKey.java:83-110 | a well-formed first part followed by a bad second part: fromString throws the second part's error |
| AggregationKeys.ThirdOfThreeRejected | Code/AggregationKey.java:83-110 | two well-formed parts followed by a bad third part: fromString throws the third part's error |
| AggregationKeys.EmptyValuesParseToNull | Code/AggregationKeyTest.java:56-63 | "book=BookA;instrument=;counterparty=" parses to (BookA, null, null) |
| AggregationKeys.MalformedPartRejected | Code/AggregationKeyTest.java:83-92 | "book=BookA;instrumentInstrumentX;counterparty=CounterpartyY" throws InvalidKeyValueFormat for its middle part |
| AggregationKeys.UnexpectedKeyRejected | Code/AggregationKeyTest.java:94-103 | "book=BookA;instrument=InstrumentX;foo=bar" throws UnexpectedKey("foo") |
| KeyGeneration.GenerateKey | Code/AggregationKeyGenerator.java:17-28 | every component the group selects is copied from the trade (null stays null), and every other component is null |
| KeyGeneration.Project | Code/AggregationKeyGenerator.java:18-27 | a key cut down to a group keeps the selected components and nulls the rest |
| KeyGeneration.SameBucketIffSelectedFieldsAgree | Code/AggregationKeyGenerator.java:17-28 | two trades get equal keys exactly when they agree on every attribute the group selects, and equal keys hash alike |
| KeyGeneration.CoarserKeyIsProjection | Code/AggregationKeyGenerator.java:19-24 | the key of a coarser group is the finer group's key with the extra components nulled |
| KeyGeneration.FinerBucketWithinCoarser | Code/AggregationKeyGenerator.java:19-24 | trades in one bucket of a finer group share a bucket in every coarser group |
| KeyGeneration.GeneratedKeyWellFormed | Code/AggregationKeyGenerator.java:17-28 | a generated key is well formed exactly when every selected trade attribute is |
| KeyGeneration.GeneratedKeyRoundTrip | Code/AggregationKeyGenerator.java:17-28 | a generated key survives toString/fromString exactly when every attribute the group selects is null, or non-empty, `;`-free and unpadded |
| AggregationStatistics.RoundHalfUp | Code/AggregationStats.java:39 | the result is the nearest integer, and a tie goes away from zero |
| AggregationStatistics.RoundsHalfUpUnique | Code/AggregationStats.java:39 | HALF_UP rounding has only one answer |
| AggregationStatistics.Round8 | Code/AggregationStats.java:39 | `divide(…, 8, HALF_UP)`: the result has at most eight decimal places, and scaled by 10^8 it is the HALF_UP rounding of the exact value |
| AggregationStatistics.Round8Unique | Code/AggregationStats.java:39 | Round8 is the only value with that property |
| AggregationStatistics.Round8Error | Code/AggregationStats.java:39 | rounding moves a value by at most half a unit in the eighth place |
| AggregationStatistics.Round8OnGrid | Code/AggregationStats.java:39 | a value that already has at most eight decimal places is left as it is |
| AggregationStatistics.Round8Negate | Code/AggregationStats.java:99 | HALF_UP is symmetric about zero, which matters for negative net figures |
| AggregationStatistics.AveragePrice | Code/AggregationStats.java:37-42 | a side's average is its notional over its quantity rounded HALF_UP to 8 places while the quantity is positive, and zero otherwise |
| AggregationStatistics.Initial | Code/AggregationStats.java:8-23 | a new object is consistent, and its net quantity, net notional and net average are all zero |
| AggregationStatistics.NetQtyOf | Code/AggregationStats.java:76-78 | the net quantity is positive exactly when more was bought than sold, and zero exactly when as much was bought as sold |
| AggregationStatistics.NetNotionalOf | Code/AggregationStats.java:85-87 | the net notional is positive exactly when more notional was bought than sold, and zero exactly when the two are equal |
| AggregationStatistics.NetAveragePriceOf | Code/AggregationStats.java:96-103 | net notional over net quantity rounded HALF_UP to 8 places, and zero when the net quantity is zero |
| AggregationStatistics.AfterBuy | Code/AggregationStats.java:31-46 | addBuyTrade leaves the sell side untouched and moves the net quantity up by the trade's quantity and the net notional by its notional |
| AggregationStatistics.AfterSell | Code/AggregationStats.java:54-69 | addSellTrade leaves the buy side untouched and moves the net quantity down by the trade's quantity and the net notional by its notional |
| AggregationStatistics.RecordKeepsConsistent | Code/AggregationStats.java:31-69 | a booking keeps each cached average equal to the rounded quotient of its totals, changes only the booked side and the timestamp, and moves the net quantity and net notional by the trade |
| AggregationStatistics.ZeroQuantityOnlyTouchesTime | Code/AggregationStats.java:31-69 | a zero-quantity trade on either side leaves every total and average as it was; only the timestamp moves |
| AggregationStatistics.RecordCommutes | Code/AggregationStats.java:31-69 | two bookings in either order give the same figures |
| AggregationStatistics.NetAverageSign | Code/AggregationStats.java:89-103 | the net average is not negative when net quantity and net notional have the same sign, and not positive otherwise |
| AggregationStatistics.RoundingKeepsSign | Code/AggregationStats.java:39 | HALF_UP rounding to eight places never turns a value's sign around |
| AggregationStatistics.RecordTotals | Code/AggregationStats.java:31-58 | a booking adds exactly its quantity and price × quantity to its own side's totals and leaves the other side's totals alone |
| AggregationStatistics.ReplayQty | Code/AggregationStats.java:31-69 | after a sequence of bookings each side's quantity has grown by the sum of that side's quantities |
| AggregationStatistics.ReplayNotional | Code/AggregationStats.java:31-69 | after a sequence of bookings each side's notional has grown by the sum of that side's price × quantity |
| AggregationStatistics.ReplayConsistent | Code/AggregationStats.java:31-69 | the averages stay consistent with the totals over any sequence of bookings |
| AggregationStatistics.ReplayTime | Code/AggregationStats.java:44-45 | the timestamp is that of the last booking, and unchanged when there is none |
| AggregationStatistics.ReplayFromInitial | Code/AggregationStats.java:21-69 | from a new object, the totals and averages after any sequence of bookings depend only on each side's summed quantity and notional |
| AggregationStatistics.TwoBuysAverage | Code/AggregationStatsTest.java:68-78 | buying 100 at 10 then 50 at 12 gives 150, 1600 and an average of 10.66666667 |
| AggregationStatistics.SellsExceedingBuys | Code/AggregationStatsTest.java:116-130 | buying 100 at 10 and selling 150 at 9 gives a net quantity of -50, a net notional of -350 and a net average of 7 |
| AggregationStatistics.AggregationStats.constructor | Code/AggregationStats.java:21-23 | a new object holds the zero state stamped with the current time, and its averages are consistent |
| AggregationStatistics.AggregationStats.AddBuyTrade | Code/AggregationStats.java:31-46 | the fields become `AfterBuy` of the old ones (buy totals grow by the trade, buy average recomputed, time taken), and consistency is kept |
| AggregationStatistics.AggregationStats.AddSellTrade | Code/AggregationStats.java:54-69 | the same for the sell side |
| AggregationStatistics.AggregationStats.NetQty | Code/AggregationStats.java:76-78 | getNetQty is buys minus sells, computed from the fields |
| AggregationStatistics.AggregationStats.NetNotional | Code/AggregationStats.java:85-87 | getNetNotional is buy notional minus sell notional, computed from the fields |
| AggregationStatistics.AggregationStats.NetAveragePrice | Code/AggregationStats.java:96-103 | getNetAveragePrice is the rounded net quotient, or zero, computed from the fields |
| Events.TradeEvent.constructor | Code/TradeEvent.java:1-3 | a new slot has null bytes and a null trade |
| Events.TradeEvent.SetProtoBytes | Code/TradeEvent.java:8-10 | only the bytes change |
| Events.TradeEvent.SetTrade | Code/TradeEvent.java:14-16 | only the trade changes |
| Events.TradeEvent.Clear | Code/TradeEvent.java:17-20 | both fields become null, whatever they held, so clearing twice is clearing once |
| Events.AggregationUpdateEvent.constructor | Code/AggregationUpdateEvent.java:1-3 | a new slot has a null key and null statistics |
| Events.AggregationUpdateEvent.SetKey | Code/AggregationUpdateEvent.java:8-10 | only the key changes |
| Events.AggregationUpdateEvent.SetStats | Code/AggregationUpdateEvent.java:14-16 | only the statistics reference changes, to the very object given |
| Events.AggregationUpdateEvent.Clear | Code/AggregationUpdateEvent.java:17-20 | both fields become null, whatever they held |
| Deserialization.Deserialized | Code/DeserializationHandler.java:4-9 | the bytes are never changed; a slot with a trade already, or with no bytes, is left as it is; otherwise the trade becomes the decoder's result |
| Deserialization.DeserializedIdempotent | Code/DeserializationHandler.java:5-8 | running the handler twice leaves the slot as running it once, and throws again exactly when the first run threw |
| Deserialization.DeserializedHasTrade | Code/DeserializationHandler.java:5-7 | afterwards the slot holds a trade exactly when it held one or its bytes decode; the handler throws exactly when there were bytes, no trade, and decoding failed, which leaves the trade null |
| Deserialization.OnEvent | Code/DeserializationHandler.java:4-9 | the slot becomes `Deserialized` of its old contents, and the exception is reported exactly in the `Throws` case |
| Aggregation.SideOf | Code/AggregationEventHandler.java:25-29 | the side dispatch: a null side books to neither side, and a side booked to BUY has three characters and one booked to SELL four; SideOfSpelling gives the exact spellings |
| Aggregation.SideOfSpelling | Code/AggregationEventHandler.java:25-29 | a trade is booked to BUY exactly for B/U/Y in either case, to SELL exactly for S/E/L/L in either case (or U+017F for the S), so every other spelling is booked to neither side |
| Aggregation.Booked | Code/AggregationEventHandler.java:24-29 | a trade whose side is neither BUY nor SELL leaves the statistics exactly as they were, timestamp included; a booked trade stamps them with `now`; a consistent entry stays consistent |
| Aggregation.Step | Code/AggregationEventHandler.java:18-29 | one trade adds exactly its key to the map and leaves every other entry as it was |
| Aggregation.StepConsistent | Code/AggregationEventHandler.java:18-29 | one trade keeps every entry of the map consistent |
| Aggregation.FoldKeys | Code/AggregationEventHandler.java:18-23 | after a sequence of trades the map's keys are the old keys plus exactly the trades' keys |
| Aggregation.FoldConsistent | Code/AggregationEventHandler.java:19-29 | every entry stays consistent over any sequence of trades |
| Aggregation.StepTotals | Code/AggregationEventHandler.java:18-29 | one trade adds its quantity and notional to its own key and booked side only |
| Aggregation.FoldTotals | Code/AggregationEventHandler.java:14-29 | after a sequence of trades each side of each entry has grown by exactly the trades routed to that key and booked to that side |
| Aggregation.AggregateFromEmpty | Code/AggregationEventHandler.java:14-29 | from an empty map, an entry exists exactly for the trades' keys, and each entry's totals and averages are those of the trades routed to it |
| Aggregation.UpdateRingBuffer.constructor | Code/AggregationEventHandler.java:6 | the buffer's slots are preallocated, each a fresh empty update event of its own, with nothing claimed or published |
| Aggregation.UpdateRingBuffer.Next | Code/AggregationEventHandler.java:31 | claiming gives the next sequence and advances the cursor; nothing is published |
| Aggregation.UpdateRingBuffer.Publish | Code/AggregationEventHandler.java:37 | publishing appends the sequence to the published ones |
| Aggregation.UpdateRingBuffer.Get | Code/AggregationEventHandler.java:33 | get(sequence) gives one of the preallocated slots, and no other sequence position shares that slot's event object |
| Aggregation.BookOn | Code/AggregationEventHandler.java:24-29 | the statistics become `Booked` of the old ones: addBuyTrade for a BUY side, addSellTrade for a SELL side, no change otherwise |
| Aggregation.AggregationEventHandler.constructor | Code/AggregationEventHandler.java:8-11 | a new handler has its group, its buffer, and an empty map |
| Aggregation.AggregationEventHandler.Locate | Code/AggregationEventHandler.java:19-23 | the stored object is reused; a missing key gets a fresh zero object stored under it; no other entry changes |
| Aggregation.AggregationEventHandler.BookTrade | Code/AggregationEventHandler.java:24-29 | only the entry of the trade's key changes, and it becomes `Booked` of its old value |
| Aggregation.AggregationEventHandler.Aggregate | Code/AggregationEventHandler.java:18-29 | get-or-create followed by the side dispatch |
| Aggregation.AggregationEventHandler.PublishUpdate | Code/AggregationEventHandler.java:31-38 | the cursor advances by one; exactly the claimed sequence is published; its slot holds the key and the given statistics object; every other slot keeps its key and statistics |
| Aggregation.AggregationEventHandler.Process | Code/AggregationEventHandler.java:17-38 | the map's values become `Step` of the old ones; the key keeps its object or gets a fresh one, and every other key keeps its object; the cursor advances by one and that one sequence is published; its slot holds the key and the very object now stored under it; every other slot is left as it was |
| Aggregation.AggregationEventHandler.OnEvent | Code/AggregationEventHandler.java:14-39 | a slot with no trade changes nothing: not the map, not the cursor, not the published sequences, not any update slot; a slot with a trade has every effect Process states, object identity and the untouched slots included |

## Left out

- **Disruptor machinery.** Sequencing, barriers, wait strategies, batching, and the `sequence`/`endOfBatch` parameters of `onEvent` belong to a library this model does not include. Everything is modelled as sequential.
  - The update buffer is reduced to three things: preallocated slots reached by `sequence % size`, a claim cursor, and the list of published sequences.
  - A consumer reading a slot before it is overwritten is not modelled.
- **Concurrency.** Several handlers share one update buffer and one `TradeEvent` slot. That concurrency, and the races it allows, cannot be expressed in a sequential model.
- **`Trade.parseFrom`.** The protobuf decoder is a function parameter. None stands for `InvalidProtocolBufferException`.
- **The clock.** `Instant.now()` is a `Tick` parameter. The Java handler reads the clock twice for a new key: once in the `AggregationStats` constructor and once in `addBuyTrade`/`addSellTrade`. The model passes the same `now` to both.
- **Lifecycle hooks and other classes.** `onStart`/`onShutdown` only print. `AggregationStats.toString` is left out. So are `PersistEventHandler` (database I/O), `AggregationUpdatePublishHandler` and `PVSMain` (wiring and threads).
- **Getters.** Getters are read as the fields themselves.
- **Null inputs and impossible branches.**
  - A null trade or null group throwing `NullPointerException` in `generateKey` cannot arise: a Dafny datatype has no null.
  - The `default` branch of the group switch is unreachable for the same reason.
- **AggregationStatistics.AggregationStats.AddBuyTrade: no `long` overflow.** The `long` quantities are unbounded integers. Java's wrap-around on 2^63 and `BigDecimal` scale (1000 vs 1000.00000000) are not modelled. Amounts are exact rationals compared by value.
- **AggregationStatistics.AggregationStats.AddSellTrade: no `long` overflow,** for the same reason.
- **JavaStrings.StringHash: only the range is stated.** The contract says only that the hash is a Java int. Characters are Unicode scalar values, not UTF-16 code units, so hashes of characters outside the Basic Multilingual Plane differ from Java's.
- **JavaStrings.JavaSplit: only the separator fact is stated.** Its contract says only that no piece holds the separator. What the pieces are is stated by `SplitThree` and `SeparatorsOnlyParseToNullKey`.
- **JavaStrings.MatchesSell: ASCII case folding only.** `equalsIgnoreCase` is modelled by ASCII case folding plus U+017F. Other Unicode case mappings are not modelled, and they cannot match "BUY" or "SELL" except through U+017F.
- **Aggregation.AggregationEventHandler.Process: per-object consistency is not in the invariant.** The handler's invariant does not include each stored object's average-consistency. That property is proved on the value model instead, by `StepConsistent` and `FoldConsistent`, and by `AddBuyTrade`/`AddSellTrade` on each object.

/**
 * AggregationKey: the immutable (book, instrument, counterparty) triple that
 * identifies one bucket of running statistics, with its structural equality,
 * its hash, its canonical text form and the parser for that form.
 */
module AggregationKeys {
  import opened Wrappers
  import opened JavaStrings

  /** The three components of a key, in their canonical order. */
  datatype Field = Book | Instrument | Counterparty

  /** The name a component carries in the text form. */
  function FieldName(f: Field): string {
    match f
    case Book => "book"
    case Instrument => "instrument"
    case Counterparty => "counterparty"
  }

  /** The component a (trimmed) name selects in fromString's switch, if any. */
  function FieldNamed(name: string): (f: Option<Field>)
    ensures f.Some? ==> FieldName(f.value) == name
    ensures f.None? ==> forall g :: FieldName(g) != name
  {
    if name == "book" then Some(Book)
    else if name == "instrument" then Some(Instrument)
    else if name == "counterparty" then Some(Counterparty)
    else None
  }

  /** An aggregation key; a component may be null. */
  datatype Key = Key(book: Option<string>, instrument: Option<string>, counterparty: Option<string>)

  /** The key with no component set. */
  const NullKey := Key(None, None, None)

  /** The component `f` of `k` (the getters): writing it back changes nothing. */
  function Get(k: Key, f: Field): (v: Option<string>)
    ensures Set(k, f, v) == k
  {
    match f
    case Book => k.book
    case Instrument => k.instrument
    case Counterparty => k.counterparty
  }

  /** `k` with component `f` replaced by `v`. */
  function Set(k: Key, f: Field, v: Option<string>): Key {
    match f
    case Book => k.(book := v)
    case Instrument => k.(instrument := v)
    case Counterparty => k.(counterparty := v)
  }

  // ---------------------------------------------------------------------------
  // equals and hashCode
  // ---------------------------------------------------------------------------

  /** equals: component-wise, a null component equal only to a null component. */
  function Equals(a: Key, b: Key): (r: bool)
    ensures r <==> a == b
    ensures r <==> forall f :: Get(a, f) == Get(b, f)
  {
    assert Get(a, Book) == a.book && Get(a, Instrument) == a.instrument && Get(a, Counterparty) == a.counterparty;
    assert Get(b, Book) == b.book && Get(b, Instrument) == b.instrument && Get(b, Counterparty) == b.counterparty;
    a.book == b.book && a.instrument == b.instrument && a.counterparty == b.counterparty
  }

  /** Objects.hashCode of a nullable string. */
  function NullableHash(v: Option<string>): int {
    if v.None? then 0 else StringHash(v.value)
  }

  /**
   * The hash cached at construction, Objects.hash(book, instrument, counterparty):
   * 31-based polynomial over the three component hashes in int arithmetic. It is
   * a function of the three components alone, so keys that are equal have equal
   * hashes.
   */
  function HashCode(k: Key): (h: int)
    ensures -0x8000_0000 <= h < 0x8000_0000
    ensures forall k' :: Equals(k, k') ==> HashCode(k') == h
  {
    var h1 := Wrap32(31 * 1 + NullableHash(k.book));
    var h2 := Wrap32(31 * h1 + NullableHash(k.instrument));
    Wrap32(31 * h2 + NullableHash(k.counterparty))
  }

  // ---------------------------------------------------------------------------
  // toString
  // ---------------------------------------------------------------------------

  /** A null component is written as the empty string. */
  function Render(v: Option<string>): string {
    if v.Some? then v.value else ""
  }

  /** One `name=value` segment of the text form. */
  function Segment(f: Field, v: Option<string>): string {
    FieldName(f) + "=" + Render(v)
  }

  /** toString: `book=<b>;instrument=<i>;counterparty=<c>`. */
  function ToString(k: Key): (r: string)
    ensures |r| == 31 + |Render(k.book)| + |Render(k.instrument)| + |Render(k.counterparty)|
    ensures r[..5] == "book="
  {
    Segment(Book, k.book) + ";" + Segment(Instrument, k.instrument) + ";" + Segment(Counterparty, k.counterparty)
  }

  // ---------------------------------------------------------------------------
  // fromString
  // ---------------------------------------------------------------------------

  /** The IllegalArgumentException fromString throws, by message. */
  datatype KeyError =
    | NullOrEmptyInput              // "Input string cannot be null or empty."
    | InvalidKeyValueFormat(part: string)  // "Invalid key-value format in part: <part>"
    | UnexpectedKey(key: string)    // "Unexpected key: <key>"

  /** What one well-formed segment sets: a component and its (possibly null) value. */
  datatype Assignment = Assignment(field: Field, value: Option<string>)

  /** A trimmed value, null when it is empty. */
  function NullIfEmpty(value: string): Option<string> {
    if value == [] then None else Some(value)
  }

  /**
   * One `;`-separated part: split at its first `=`, trim both sides, turn an empty
   * value into null, and look the key up.
   */
  function ParseSegment(part: string): (r: Result<Assignment, KeyError>)
    ensures r == Failure(InvalidKeyValueFormat(part)) <==> '=' !in part
    ensures r.Failure? && r.error.UnexpectedKey? ==> Unpadded(r.error.key) && FieldNamed(r.error.key).None?
    ensures r.Success? ==> r.value.value != Some([]) && (r.value.value.Some? ==> Unpadded(r.value.value.value))
  {
    match SplitAtFirst(part, '=')
    case None => Failure(InvalidKeyValueFormat(part))
    case Some((name, value)) =>
      var key := Trim(name);
      match FieldNamed(key)
      case None => Failure(UnexpectedKey(key))
      case Some(f) => Success(Assignment(f, NullIfEmpty(Trim(value))))
  }

  /** The outcome of reading one part. */
  type Outcome = Result<Assignment, KeyError>

  /** The outcome of each part, in input order. */
  function Outcomes(parts: seq<string>): (r: seq<Outcome>)
    ensures |r| == |parts| && forall i :: 0 <= i < |parts| ==> r[i] == ParseSegment(parts[i])
  {
    if parts == [] then [] else [ParseSegment(parts[0])] + Outcomes(parts[1..])
  }

  /**
   * The loop of fromString: apply the parts' assignments in order to the
   * components set so far, stopping at the first part that throws.
   */
  function Apply(outcomes: seq<Outcome>, acc: Key): (r: Result<Key, KeyError>)
    ensures r.Success? <==> forall i :: 0 <= i < |outcomes| ==> outcomes[i].Success?
  {
    if outcomes == [] then Success(acc)
    else
      match outcomes[0]
      case Failure(e) => Failure(e)
      case Success(a) => Apply(outcomes[1..], Set(acc, a.field, a.value))
  }

  /** fromString as a function of its (nullable) argument. */
  function Parse(s: Option<string>): (r: Result<Key, KeyError>)
    ensures r.Success? <==>
      (s.Some? && s.value != [] && forall p :: p in JavaSplit(s.value, ';') ==> ParseSegment(p).Success?)
  {
    if s.None? || s.value == [] then Failure(NullOrEmptyInput)
    else Apply(Outcomes(JavaSplit(s.value, ';')), NullKey)
  }

  /**
   * The body of fromString's loop for one part: split it at its first `=`, trim
   * both sides, and switch on the key, giving the assignment the part makes or
   * the exception it throws.
   */
  method ReadPart(part: string) returns (outcome: Outcome)
    ensures outcome == ParseSegment(part)
  {
    var keyValue := SplitAtFirst(part, '=');
    if keyValue.None? {
      return Failure(InvalidKeyValueFormat(part));
    }
    var key := Trim(keyValue.value.0);
    var value := NullIfEmpty(Trim(keyValue.value.1));
    if key == "book" {
      outcome := Success(Assignment(Book, value));
    } else if key == "instrument" {
      outcome := Success(Assignment(Instrument, value));
    } else if key == "counterparty" {
      outcome := Success(Assignment(Counterparty, value));
    } else {
      outcome := Failure(UnexpectedKey(key));
    }
  }

  /**
   * fromString: reject a null or empty input, then walk the `;`-separated parts in
   * order, each setting one component (a later part overrides an earlier one),
   * and throw at the first part that has no `=` or names an unknown key.
   */
  method FromString(s: Option<string>) returns (r: Result<Key, KeyError>)
    ensures r == Parse(s)
  {
    if s.None? || s.value == [] {
      return Failure(NullOrEmptyInput);
    }
    var parts := JavaSplit(s.value, ';');
    var book, instrument, counterparty := None, None, None;
    var i := 0;
    assert parts[0..] == parts;
    while i < |parts|
      invariant 0 <= i <= |parts|
      invariant Apply(Outcomes(parts[i..]), Key(book, instrument, counterparty)) == Parse(s)
    {
      var part := parts[i];
      assert parts[i..][0] == part && parts[i..][1..] == parts[i + 1..];
      var rest := Outcomes(parts[i + 1..]);
      assert Outcomes(parts[i..]) == [ParseSegment(part)] + rest;
      assert ([ParseSegment(part)] + rest)[1..] == rest;
      var outcome := ReadPart(part);
      if outcome.Failure? {
        return Failure(outcome.error);
      }
      match outcome.value.field {
        case Book => book := outcome.value.value;
        case Instrument => instrument := outcome.value.value;
        case Counterparty => counterparty := outcome.value.value;
      }
      i := i + 1;
    }
    return Success(Key(book, instrument, counterparty));
  }

  // ---------------------------------------------------------------------------
  // What fromString accepts and rejects
  // ---------------------------------------------------------------------------

  /** In `a + [c] + b` with no `c` in `a`, the first `c` sits right after `a`. */
  lemma FirstOccurrenceAfter(a: string, b: string, c: char)
    requires c !in a
    ensures c in a + [c] + b && IndexOf(a + [c] + b, c) == |a|
  {
    var s := a + [c] + b;
    assert s[|a|] == c;
    assert forall j :: 0 <= j < |a| ==> s[j] == a[j] && s[j] != c;
    assert s[..|a| + 1][|a|] == c;
  }

  /** `a + [c] + b` determines `a` and `b` when `c` does not occur in `a`. */
  lemma FirstOccurrenceUnique(a: string, b: string, a': string, b': string, c: char)
    requires c !in a && c !in a'
    requires a + [c] + b == a' + [c] + b'
    ensures a == a' && b == b'
  {
    var s := a + [c] + b;
    FirstOccurrenceAfter(a, b, c);
    FirstOccurrenceAfter(a', b', c);
    assert a == s[..|a|] == a';
    assert b == s[|a| + 1..] == b';
  }

  /**
   * A part `name=value` whose first `=` is the one shown: the key is the trimmed
   * name, everything after that `=` (other `=` included) is the value, which is
   * trimmed and becomes null when empty; an unknown key is rejected.
   */
  lemma SegmentOutcome(part: string, name: string, value: string)
    requires part == name + "=" + value && '=' !in name
    ensures FieldNamed(Trim(name)).None? ==> ParseSegment(part) == Failure(UnexpectedKey(Trim(name)))
    ensures FieldNamed(Trim(name)).Some? ==>
      ParseSegment(part) == Success(Assignment(FieldNamed(Trim(name)).value, NullIfEmpty(Trim(value))))
  {
    var kv := SplitAtFirst(part, '=');
    FirstOccurrenceUnique(kv.value.0, kv.value.1, name, value, '=');
  }

  /** A part whose unpadded name selects component `f` assigns its trimmed value, or null, to `f`. */
  lemma NamedSegment(part: string, name: string, value: string, f: Field, v: Option<string>)
    requires part == name + "=" + value && '=' !in name
    requires Unpadded(name) && FieldNamed(name) == Some(f) && NullIfEmpty(Trim(value)) == v
    ensures ParseSegment(part) == Success(Assignment(f, v))
  {
    var kv := SplitAtFirst(part, '=');
    FirstOccurrenceUnique(kv.value.0, kv.value.1, name, value, '=');
  }

  /** A part with no `=` is rejected with InvalidKeyValueFormat naming the part. */
  lemma SegmentWithoutEquals(part: string)
    requires '=' !in part
    ensures ParseSegment(part) == Failure(InvalidKeyValueFormat(part))
  {
  }

  /** The null and the empty string are rejected with NullOrEmptyInput. */
  lemma NullOrEmptyRejected(s: Option<string>)
    requires s.None? || s.value == []
    ensures Parse(s) == Failure(NullOrEmptyInput)
  {
  }

  lemma {:induction false} ApplyFailsAtFirstBad(outcomes: seq<Outcome>, acc: Key, i: nat)
    requires i < |outcomes| && outcomes[i].Failure?
    requires forall j :: 0 <= j < i ==> outcomes[j].Success?
    ensures Apply(outcomes, acc) == Failure(outcomes[i].error)
    decreases i
  {
    if i > 0 {
      var a := outcomes[0].value;
      assert forall j :: 0 <= j < i - 1 ==> outcomes[1..][j] == outcomes[j + 1];
      ApplyFailsAtFirstBad(outcomes[1..], Set(acc, a.field, a.value), i - 1);
    }
  }

  lemma {:induction false} ApplySucceeds(outcomes: seq<Outcome>, acc: Key)
    requires forall j :: 0 <= j < |outcomes| ==> outcomes[j].Success?
    ensures Apply(outcomes, acc).Success?
    decreases |outcomes|
  {
    if outcomes != [] {
      var a := outcomes[0].value;
      assert forall j :: 0 <= j < |outcomes| - 1 ==> outcomes[1..][j] == outcomes[j + 1];
      ApplySucceeds(outcomes[1..], Set(acc, a.field, a.value));
    }
  }

  /**
   * fromString fails exactly with the error of the first part (in input order)
   * that has no `=` or an unknown key.
   */
  lemma ParseRejectsFirstBadSegment(s: string, i: nat)
    requires s != [] && i < |JavaSplit(s, ';')|
    requires ParseSegment(JavaSplit(s, ';')[i]).Failure?
    requires forall j :: 0 <= j < i ==> ParseSegment(JavaSplit(s, ';')[j]).Success?
    ensures Parse(Some(s)) == Failure(ParseSegment(JavaSplit(s, ';')[i]).error)
  {
    ApplyFailsAtFirstBad(Outcomes(JavaSplit(s, ';')), NullKey, i);
  }

  /** fromString succeeds when every part is a known key with a `=`. */
  lemma ParseAcceptsGoodSegments(s: string)
    requires s != []
    requires forall j :: 0 <= j < |JavaSplit(s, ';')| ==> ParseSegment(JavaSplit(s, ';')[j]).Success?
    ensures Parse(Some(s)).Success?
  {
    ApplySucceeds(Outcomes(JavaSplit(s, ';')), NullKey);
  }

  // ---------------------------------------------------------------------------
  // Which part wins
  // ---------------------------------------------------------------------------

  /** What outcome `o` leaves component `f` at, given that it was `d` before. */
  function Assigned(o: Outcome, f: Field, d: Option<string>): Option<string> {
    if o.Success? && o.value.field == f then o.value.value else d
  }

  /**
   * The value the last part naming `f` gives it, scanning from the end; `d` when
   * no part names `f`.
   */
  function LastAssigned(outcomes: seq<Outcome>, f: Field, d: Option<string>): Option<string> {
    if outcomes == [] then d
    else
      var o := outcomes[|outcomes| - 1];
      if o.Success? && o.value.field == f then o.value.value
      else LastAssigned(outcomes[..|outcomes| - 1], f, d)
  }

  lemma {:induction false} LastAssignedCons(outcomes: seq<Outcome>, f: Field, d: Option<string>)
    requires outcomes != []
    ensures LastAssigned(outcomes, f, d) == LastAssigned(outcomes[1..], f, Assigned(outcomes[0], f, d))
    decreases |outcomes|
  {
    var n := |outcomes|;
    if n > 1 {
      var o := outcomes[n - 1];
      assert outcomes[1..][n - 2] == o;
      if !(o.Success? && o.value.field == f) {
        var front := outcomes[..n - 1];
        LastAssignedCons(front, f, d);
        assert front[1..] == outcomes[1..][..n - 2];
      }
    }
  }

  lemma {:induction false} ApplyLastWins(outcomes: seq<Outcome>, acc: Key, k: Key, f: Field)
    requires Apply(outcomes, acc) == Success(k)
    ensures Get(k, f) == LastAssigned(outcomes, f, Get(acc, f))
    decreases |outcomes|
  {
    if outcomes != [] {
      var a := outcomes[0].value;
      var acc' := Set(acc, a.field, a.value);
      ApplyLastWins(outcomes[1..], acc', k, f);
      LastAssignedCons(outcomes, f, Get(acc, f));
      assert Get(acc', f) == Assigned(outcomes[0], f, Get(acc, f));
    }
  }

  /**
   * After a successful fromString each component holds the value of the last part
   * naming it, and stays null when no part names it.
   */
  lemma ParseTakesLastAssignment(s: string, k: Key, f: Field)
    requires Parse(Some(s)) == Success(k)
    ensures Get(k, f) == LastAssigned(Outcomes(JavaSplit(s, ';')), f, None)
  {
    ApplyLastWins(Outcomes(JavaSplit(s, ';')), NullKey, k, f);
  }

  lemma {:induction false} SplitAllOfSeparators(s: string, sep: char)
    requires forall i :: 0 <= i < |s| ==> s[i] == sep
    ensures forall j :: 0 <= j < |SplitAll(s, sep)| ==> SplitAll(s, sep)[j] == []
    decreases |s|
  {
    if s != [] {
      SplitAllOfSeparators(s[1..], sep);
    }
  }

  /** A non-empty input made only of `;` parses to the key with every component null. */
  lemma SeparatorsOnlyParseToNullKey(s: string)
    requires s != [] && forall i :: 0 <= i < |s| ==> s[i] == ';'
    ensures Parse(Some(s)) == Success(NullKey)
  {
    assert s[0] == ';';
    SplitAllOfSeparators(s, ';');
    var parts := SplitAll(s, ';');
    var r := DropTrailingEmpty(parts);
    assert r == [];
  }

  // ---------------------------------------------------------------------------
  // Round trip
  // ---------------------------------------------------------------------------

  /** A component value fromString can give back: null, or non-empty, `;`-free and unpadded. */
  predicate WellFormedValue(v: Option<string>) {
    v.None? || (v.value != [] && ';' !in v.value && Unpadded(v.value))
  }

  /** Every component is well formed. */
  predicate WellFormed(k: Key) {
    WellFormedValue(k.book) && WellFormedValue(k.instrument) && WellFormedValue(k.counterparty)
  }

  lemma {:induction false} SplitAllWithoutSeparator(a: string, sep: char)
    requires sep !in a
    ensures SplitAll(a, sep) == [a]
    decreases |a|
  {
    if a != [] {
      SplitAllWithoutSeparator(a[1..], sep);
      assert [a[0]] + a[1..] == a;
    }
  }

  lemma {:induction false} SplitAllAtFirstSeparator(a: string, b: string, sep: char)
    requires sep !in a
    ensures SplitAll(a + [sep] + b, sep) == [a] + SplitAll(b, sep)
    decreases |a|
  {
    var s := a + [sep] + b;
    if a == [] {
      assert s[1..] == b;
    } else {
      assert s[1..] == a[1..] + [sep] + b;
      SplitAllAtFirstSeparator(a[1..], b, sep);
      assert [a[0]] + a[1..] == a;
    }
  }

  /** Three `;`-free pieces joined by `;`, the last non-empty, split back into themselves. */
  lemma SplitThree(a: string, b: string, c: string)
    requires ';' !in a && ';' !in b && ';' !in c && c != []
    ensures JavaSplit(a + ";" + b + ";" + c, ';') == [a, b, c]
  {
    var s := a + ";" + b + ";" + c;
    assert s == a + [';'] + (b + [';'] + c);
    assert s[|a|] == ';';
    SplitAllAtFirstSeparator(a, b + [';'] + c, ';');
    SplitAllAtFirstSeparator(b, c, ';');
    SplitAllWithoutSeparator(c, ';');
  }

  /**
   * toString writes the three components in the fixed order book, instrument,
   * counterparty, a null one as nothing after its `=`; when no component holds a
   * `;`, splitting the text gives back exactly those three segments.
   */
  lemma ToStringSegments(k: Key)
    requires ';' !in Render(k.book) && ';' !in Render(k.instrument) && ';' !in Render(k.counterparty)
    ensures JavaSplit(ToString(k), ';') ==
      [Segment(Book, k.book), Segment(Instrument, k.instrument), Segment(Counterparty, k.counterparty)]
  {
    SplitThree(Segment(Book, k.book), Segment(Instrument, k.instrument), Segment(Counterparty, k.counterparty));
  }

  /** A component name holds no `=`, survives trimming and selects its component. */
  lemma FieldNameReadsBack(f: Field)
    ensures '=' !in FieldName(f) && Unpadded(FieldName(f)) && FieldNamed(FieldName(f)) == Some(f)
  {
    match f
    case Book => assert "book"[0] == 'b' && "book"[3] == 'k';
    case Instrument => assert "instrument"[0] == 'i' && "instrument"[9] == 't';
    case Counterparty => assert "counterparty"[0] == 'c' && "counterparty"[11] == 'y';
  }

  /** A well-formed value is read back from its rendering. */
  lemma RenderReadsBack(v: Option<string>)
    requires WellFormedValue(v)
    ensures NullIfEmpty(Trim(Render(v))) == v
  {
  }

  lemma ParseWellFormedSegment(f: Field, v: Option<string>)
    requires WellFormedValue(v)
    ensures ParseSegment(Segment(f, v)) == Success(Assignment(f, v))
  {
    FieldNameReadsBack(f);
    RenderReadsBack(v);
    NamedSegment(Segment(f, v), FieldName(f), Render(v), f, v);
  }

  /** A part without `;` that parses gives a well-formed value. */
  lemma SegmentValueWellFormed(part: string)
    requires ';' !in part && ParseSegment(part).Success?
    ensures WellFormedValue(ParseSegment(part).value.value)
  {
    var kv := SplitAtFirst(part, '=').value;
    assert forall c :: c in kv.1 ==> c in part;
    assert ';' !in Trim(kv.1);
  }

  lemma {:induction false} ApplyWellFormed(outcomes: seq<Outcome>, acc: Key, k: Key)
    requires forall i :: 0 <= i < |outcomes| && outcomes[i].Success? ==> WellFormedValue(outcomes[i].value.value)
    requires WellFormed(acc)
    requires Apply(outcomes, acc) == Success(k)
    ensures WellFormed(k)
    decreases |outcomes|
  {
    if outcomes != [] {
      var a := outcomes[0].value;
      assert forall i :: 0 <= i < |outcomes| - 1 ==> outcomes[1..][i] == outcomes[i + 1];
      ApplyWellFormed(outcomes[1..], Set(acc, a.field, a.value), k);
    }
  }

  /** Every key fromString returns is well formed. */
  lemma ParseYieldsWellFormed(s: Option<string>, k: Key)
    requires Parse(s) == Success(k)
    ensures WellFormed(k)
  {
    var parts := JavaSplit(s.value, ';');
    forall i | 0 <= i < |parts| && ParseSegment(parts[i]).Success?
      ensures WellFormedValue(ParseSegment(parts[i]).value.value)
    {
      SegmentValueWellFormed(parts[i]);
    }
    ApplyWellFormed(Outcomes(parts), NullKey, k);
  }

  /** The three parts of a well-formed key's text each assign their own component. */
  lemma ToStringOutcomes(k: Key)
    requires WellFormed(k)
    ensures Outcomes(JavaSplit(ToString(k), ';')) ==
      [Success(Assignment(Book, k.book)), Success(Assignment(Instrument, k.instrument)),
       Success(Assignment(Counterparty, k.counterparty))]
  {
    ToStringSegments(k);
    ParseWellFormedSegment(Book, k.book);
    ParseWellFormedSegment(Instrument, k.instrument);
    ParseWellFormedSegment(Counterparty, k.counterparty);
    OutcomesOfThree(JavaSplit(ToString(k), ';'), Success(Assignment(Book, k.book)),
      Success(Assignment(Instrument, k.instrument)), Success(Assignment(Counterparty, k.counterparty)));
  }

  lemma OutcomesOfThree(parts: seq<string>, o1: Outcome, o2: Outcome, o3: Outcome)
    requires |parts| == 3
    requires ParseSegment(parts[0]) == o1 && ParseSegment(parts[1]) == o2 && ParseSegment(parts[2]) == o3
    ensures Outcomes(parts) == [o1, o2, o3]
  {
  }

  /** Applying one assignment per component, in order, gives the key made of them. */
  lemma ApplyEachComponent(b: Option<string>, i: Option<string>, c: Option<string>)
    ensures Apply([Success(Assignment(Book, b)), Success(Assignment(Instrument, i)),
                   Success(Assignment(Counterparty, c))], NullKey) == Success(Key(b, i, c))
  {
    var outs: seq<Outcome> := [Success(Assignment(Book, b)), Success(Assignment(Instrument, i)),
                               Success(Assignment(Counterparty, c))];
    assert outs[1..] == [outs[1], outs[2]] && outs[1..][1..] == [outs[2]] && outs[1..][1..][1..] == [];
    calc {
      Apply(outs, NullKey);
      Apply(outs[1..], Key(b, None, None));
      Apply(outs[1..][1..], Key(b, i, None));
      Apply(outs[1..][1..][1..], Key(b, i, c));
    }
  }

  lemma ParseToString(k: Key)
    requires WellFormed(k)
    ensures Parse(Some(ToString(k))) == Success(k)
  {
    ToStringOutcomes(k);
    ApplyEachComponent(k.book, k.instrument, k.counterparty);
  }

  /**
   * fromString(toString(k)) == k exactly when every component of `k` is null or a
   * non-empty, `;`-free string with no blank at either end.
   */
  lemma RoundTrip(k: Key)
    ensures Parse(Some(ToString(k))) == Success(k) <==> WellFormed(k)
  {
    if WellFormed(k) {
      ParseToString(k);
    }
    if Parse(Some(ToString(k))) == Success(k) {
      ParseYieldsWellFormed(Some(ToString(k)), k);
    }
  }

  /** toString tells well-formed keys apart. */
  lemma ToStringInjective(k1: Key, k2: Key)
    requires WellFormed(k1) && WellFormed(k2) && ToString(k1) == ToString(k2)
    ensures k1 == k2
  {
    RoundTrip(k1);
    RoundTrip(k2);
  }

  /** Whatever text fromString accepts, toString of the result is parsed back to the same key. */
  lemma ToStringOfParsedIsCanonical(s: Option<string>, k: Key)
    requires Parse(s) == Success(k)
    ensures Parse(Some(ToString(k))) == Success(k)
  {
    ParseYieldsWellFormed(s, k);
    RoundTrip(k);
  }

  // ---------------------------------------------------------------------------
  // The documented examples
  // ---------------------------------------------------------------------------

  /** The text of the key with only book "BookA" set, which is well formed. */
  lemma BookAOnlyText(s: string, k: Key)
    requires s == "book=BookA" + ";" + "instrument=" + ";" + "counterparty=" && k == Key(Some("BookA"), None, None)
    ensures ToString(k) == s && WellFormed(k)
  {
    assert Segment(Book, k.book) == "book=BookA";
    assert Segment(Instrument, None) == "instrument=";
    assert Segment(Counterparty, None) == "counterparty=";
  }

  /** "book=BookA;instrument=;counterparty=" parses to (BookA, null, null). */
  lemma EmptyValuesParseToNull(s: string)
    requires s == "book=BookA;instrument=;counterparty="
    ensures Parse(Some(s)) == Success(Key(Some("BookA"), None, None))
  {
    var k := Key(Some("BookA"), None, None);
    assert s == "book=BookA" + ";" + "instrument=" + ";" + "counterparty=";
    BookAOnlyText(s, k);
    ParseToString(k);
  }

  /** Three `;`-free parts, the last non-empty, are read as their three outcomes in order. */
  lemma ParseOfThree(p0: string, p1: string, p2: string, o0: Outcome, o1: Outcome, o2: Outcome)
    requires ';' !in p0 && ';' !in p1 && ';' !in p2 && p2 != []
    requires ParseSegment(p0) == o0 && ParseSegment(p1) == o1 && ParseSegment(p2) == o2
    ensures Parse(Some(p0 + ";" + p1 + ";" + p2)) == Apply([o0, o1, o2], NullKey)
  {
    SplitThree(p0, p1, p2);
    OutcomesOfThree([p0, p1, p2], o0, o1, o2);
  }

  /** Applying three outcomes whose second is the first failure fails with its error. */
  lemma ApplySecondFails(o0: Outcome, o1: Outcome, o2: Outcome)
    requires o0.Success? && o1.Failure?
    ensures Apply([o0, o1, o2], NullKey) == Failure(o1.error)
  {
    ApplyFailsAtFirstBad([o0, o1, o2], NullKey, 1);
  }

  /** Applying three outcomes whose third is the first failure fails with its error. */
  lemma ApplyThirdFails(o0: Outcome, o1: Outcome, o2: Outcome)
    requires o0.Success? && o1.Success? && o2.Failure?
    ensures Apply([o0, o1, o2], NullKey) == Failure(o2.error)
  {
    ApplyFailsAtFirstBad([o0, o1, o2], NullKey, 2);
  }

  /**
   * Of three `;`-free parts, the last non-empty, a well-formed first one followed
   * by a bad second one is rejected with the second part's error.
   */
  lemma SecondOfThreeRejected(p0: string, p1: string, p2: string, o0: Outcome, o1: Outcome, o2: Outcome)
    requires ';' !in p0 && ';' !in p1 && ';' !in p2 && p2 != []
    requires ParseSegment(p0) == o0 && ParseSegment(p1) == o1 && ParseSegment(p2) == o2
    requires o0.Success? && o1.Failure?
    ensures Parse(Some(p0 + ";" + p1 + ";" + p2)) == Failure(o1.error)
  {
    ParseOfThree(p0, p1, p2, o0, o1, o2);
    ApplySecondFails(o0, o1, o2);
  }

  /** Of three such parts, two well-formed ones followed by a bad one are rejected with the third part's error. */
  lemma ThirdOfThreeRejected(p0: string, p1: string, p2: string, o0: Outcome, o1: Outcome, o2: Outcome)
    requires ';' !in p0 && ';' !in p1 && ';' !in p2 && p2 != []
    requires ParseSegment(p0) == o0 && ParseSegment(p1) == o1 && ParseSegment(p2) == o2
    requires o0.Success? && o1.Success? && o2.Failure?
    ensures Parse(Some(p0 + ";" + p1 + ";" + p2)) == Failure(o2.error)
  {
    ParseOfThree(p0, p1, p2, o0, o1, o2);
    ApplyThirdFails(o0, o1, o2);
  }

  /** A part `name=value` with a field's name and a non-empty unpadded value assigns that value. */
  lemma KnownPart(p: string, f: Field, value: string)
    requires p == FieldName(f) + "=" + value && value != [] && Unpadded(value)
    ensures ParseSegment(p) == Success(Assignment(f, Some(value)))
  {
    FieldNameReadsBack(f);
    NamedSegment(p, FieldName(f), value, f, Some(value));
  }

  /** A part `name=value` whose unpadded name is no field name is rejected with UnexpectedKey. */
  lemma UnknownPart(p: string, name: string, value: string)
    requires p == name + "=" + value && '=' !in name
    requires Unpadded(name) && forall g :: FieldName(g) != name
    ensures ParseSegment(p) == Failure(UnexpectedKey(name))
  {
    var kv := SplitAtFirst(p, '=');
    FirstOccurrenceUnique(kv.value.0, kv.value.1, name, value, '=');
  }

  /** "book=BookA;instrumentInstrumentX;counterparty=CounterpartyY" is rejected for its middle part. */
  lemma MalformedPartRejected(p0: string, p1: string, p2: string)
    requires p0 == "book=BookA" && p1 == "instrumentInstrumentX" && p2 == "counterparty=CounterpartyY"
    ensures Parse(Some(p0 + ";" + p1 + ";" + p2)) == Failure(InvalidKeyValueFormat("instrumentInstrumentX"))
  {
    assert ';' !in p0 && ';' !in p1 && ';' !in p2 && '=' !in p1;
    assert p0 == FieldName(Book) + "=" + "BookA";
    KnownPart(p0, Book, "BookA");
    SegmentWithoutEquals(p1);
    var o0, o1, o2 := ParseSegment(p0), ParseSegment(p1), ParseSegment(p2);
    SecondOfThreeRejected(p0, p1, p2, o0, o1, o2);
  }

  /** The part "foo=bar" splits at its `=` into a name that is no component's. */
  lemma FooIsNoField(p: string, name: string, value: string)
    requires p == "foo=bar" && name == "foo" && value == "bar"
    ensures p == name + "=" + value && ';' !in p
    ensures '=' !in name && Unpadded(name) && forall g :: FieldName(g) != name
  {
    assert |name| == 3 && name[0] == 'f' && name[2] == 'o';
    assert forall g :: |FieldName(g)| > 3;
  }

  /** "book=BookA;instrument=InstrumentX;foo=bar" is rejected for the unknown key "foo". */
  lemma UnexpectedKeyRejected(p0: string, p1: string, p2: string)
    requires p0 == "book=BookA" && p1 == "instrument=InstrumentX" && p2 == "foo=bar"
    ensures Parse(Some(p0 + ";" + p1 + ";" + p2)) == Failure(UnexpectedKey("foo"))
  {
    assert ';' !in p0 && ';' !in p1;
    assert p0 == FieldName(Book) + "=" + "BookA" && p1 == FieldName(Instrument) + "=" + "InstrumentX";
    KnownPart(p0, Book, "BookA");
    KnownPart(p1, Instrument, "InstrumentX");
    FooIsNoField(p2, "foo", "bar");
    UnknownPart(p2, "foo", "bar");
    var o0, o1, o2 := ParseSegment(p0), ParseSegment(p1), ParseSegment(p2);
    ThirdOfThreeRejected(p0, p1, p2, o0, o1, o2);
  }
}

/**
 * The few java.lang.String operations the aggregation key relies on, written out
 * so that their edge cases are part of the model: split on a character (all pieces,
 * and the trailing-empty-dropping form of String.split), split at the first
 * occurrence of a character (String.split with limit 2), trim, equalsIgnoreCase
 * and hashCode.
 */
module JavaStrings {
  import opened Wrappers

  // ---------------------------------------------------------------------------
  // Splitting
  // ---------------------------------------------------------------------------

  /** The pieces of `parts` put back together with `sep` between them. */
  function Join(parts: seq<string>, sep: char): string
    requires |parts| >= 1
  {
    if |parts| == 1 then parts[0] else parts[0] + [sep] + Join(parts[1..], sep)
  }

  /**
   * Every piece of `s` between two occurrences of `sep` (or an end of `s`), empty
   * pieces included. The pieces hold no `sep` and join back to `s`.
   */
  function SplitAll(s: string, sep: char): (parts: seq<string>)
    ensures |parts| >= 1
    ensures forall i :: 0 <= i < |parts| ==> sep !in parts[i]
    ensures Join(parts, sep) == s
    decreases |s|
  {
    if s == [] then [[]]
    else
      var rest := SplitAll(s[1..], sep);
      if s[0] == sep then
        assert Join([[]] + rest, sep) == [sep] + Join(rest, sep) by {
          assert ([[]] + rest)[1..] == rest;
        }
        [[]] + rest
      else
        var parts := [[s[0]] + rest[0]] + rest[1..];
        assert Join(parts, sep) == [s[0]] + Join(rest, sep) by {
          if |rest| > 1 {
            assert parts[1..] == rest[1..];
          }
        }
        parts
  }

  /** The longest prefix of `parts` that does not end in an empty piece. */
  function DropTrailingEmpty(parts: seq<string>): (r: seq<string>)
    ensures |r| <= |parts| && r == parts[..|r|]
    ensures r == [] || r[|r| - 1] != []
    ensures forall i :: |r| <= i < |parts| ==> parts[i] == []
  {
    if parts == [] || parts[|parts| - 1] != [] then parts
    else DropTrailingEmpty(parts[..|parts| - 1])
  }

  /**
   * Java's `s.split(sep)` for a separator that is not a regular-expression
   * metacharacter: with no occurrence the answer is `[s]` itself; otherwise all
   * pieces, with trailing empty pieces removed.
   */
  function JavaSplit(s: string, sep: char): (parts: seq<string>)
    ensures forall i :: 0 <= i < |parts| ==> sep !in parts[i]
  {
    if sep !in s then [s] else DropTrailingEmpty(SplitAll(s, sep))
  }

  /** The position of the first `c` in `s`. */
  function IndexOf(s: string, c: char): (i: nat)
    requires c in s
    ensures i < |s| && s[i] == c && c !in s[..i]
  {
    if s[0] == c then 0 else 1 + IndexOf(s[1..], c)
  }

  /**
   * Java's `s.split(sep, 2)`: with no `sep` in `s` a single piece (None here);
   * otherwise the text before the first `sep` and everything after it.
   */
  function SplitAtFirst(s: string, sep: char): (r: Option<(string, string)>)
    ensures r.None? <==> sep !in s
    ensures r.Some? ==> sep !in r.value.0 && s == r.value.0 + [sep] + r.value.1
  {
    if sep !in s then None
    else
      var i := IndexOf(s, sep);
      assert s == s[..i] + [sep] + s[i + 1..];
      Some((s[..i], s[i + 1..]))
  }

  // ---------------------------------------------------------------------------
  // Trimming
  // ---------------------------------------------------------------------------

  /** Java's trim() removes every character whose code is at most U+0020. */
  predicate IsBlank(c: char) {
    c <= ' '
  }

  /** Neither the first nor the last character is blank. */
  predicate Unpadded(s: string) {
    s == [] || (!IsBlank(s[0]) && !IsBlank(s[|s| - 1]))
  }

  /** `s` without its leading blanks. */
  function TrimStart(s: string): (r: string)
    ensures |r| <= |s| && r == s[|s| - |r|..]
    ensures r == [] || !IsBlank(r[0])
    ensures forall i :: 0 <= i < |s| - |r| ==> IsBlank(s[i])
  {
    if s != [] && IsBlank(s[0]) then TrimStart(s[1..]) else s
  }

  /** `s` without its trailing blanks. */
  function TrimEnd(s: string): (r: string)
    ensures |r| <= |s| && r == s[..|r|]
    ensures r == [] || !IsBlank(r[|r| - 1])
    ensures forall i :: |r| <= i < |s| ==> IsBlank(s[i])
  {
    if s != [] && IsBlank(s[|s| - 1]) then TrimEnd(s[..|s| - 1]) else s
  }

  /**
   * Cutting trailing blanks off a suffix of `s` leaves a slice of `s` with only
   * blanks after it.
   */
  lemma TrimSlice(s: string, t: string, u: string)
    requires |t| <= |s| && t == s[|s| - |t|..]
    requires |u| <= |t| && u == t[..|u|]
    requires forall i :: |u| <= i < |t| ==> IsBlank(t[i])
    ensures var k := |s| - |t|;
      k + |u| <= |s| && (forall i {:trigger u[i]} :: 0 <= i < |u| ==> u[i] == s[k + i]) &&
      forall i :: k + |u| <= i < |s| ==> IsBlank(s[i])
  {
    var k := |s| - |t|;
    forall i | 0 <= i < |u|
      ensures u[i] == s[k + i]
    {
      assert u[i] == t[i];
    }
    forall i | k + |u| <= i < |s|
      ensures IsBlank(s[i])
    {
      assert s[i] == t[i - k];
    }
  }

  /** Trimming both ends of `s` leaves no blank at either end and only characters of `s`. */
  lemma TrimBothEnds(s: string)
    ensures var r := TrimEnd(TrimStart(s));
      Unpadded(r) && (forall c :: c in r ==> c in s) && (Unpadded(s) ==> r == s)
  {
    var t := TrimStart(s);
    var u := TrimEnd(t);
    assert forall c :: c in u ==> c in t;
    assert u != [] ==> !IsBlank(u[0]) by {
      if u != [] { assert u[0] == t[0]; }
    }
  }

  /**
   * Java's `s.trim()`: the result has no blank at either end, keeps only
   * characters of `s`, and is `s` itself when `s` has no blank at either end.
   * It is the slice of `s` between its leading and its trailing blanks.
   */
  function Trim(s: string): (r: string)
    ensures Unpadded(r)
    ensures forall c :: c in r ==> c in s
    ensures Unpadded(s) ==> r == s
    ensures var k := |s| - |TrimStart(s)|;
      k + |r| <= |s| && (forall i {:trigger r[i]} :: 0 <= i < |r| ==> r[i] == s[k + i]) &&
      (forall i :: 0 <= i < k ==> IsBlank(s[i])) &&
      (forall i :: k + |r| <= i < |s| ==> IsBlank(s[i]))
  {
    var t := TrimStart(s);
    var u := TrimEnd(t);
    TrimBothEnds(s);
    TrimSlice(s, t, u);
    u
  }

  // ---------------------------------------------------------------------------
  // equalsIgnoreCase
  // ---------------------------------------------------------------------------

  /**
   * Character.toUpperCase on the characters that matter for the side names: the
   * ASCII letters, and U+017F (long s), whose upper case is 'S'. Every other
   * character is left as it is.
   */
  function ToUpper(c: char): char {
    if 'a' <= c <= 'z' then (c as int - 32) as char
    else if c == '\U{017F}' then 'S'
    else c
  }

  /** Character.toLowerCase on the ASCII letters; every other character is left as it is. */
  function ToLower(c: char): char {
    if 'A' <= c <= 'Z' then (c as int + 32) as char else c
  }

  /** The per-character test of String.regionMatches with ignoreCase set. */
  predicate CharsEqualIgnoreCase(a: char, b: char) {
    a == b || ToUpper(a) == ToUpper(b) || ToLower(ToUpper(a)) == ToLower(ToUpper(b))
  }

  /** `a.equalsIgnoreCase(b)` for a non-null `b`. */
  predicate EqualsIgnoreCase(a: string, b: string)
    ensures a == b ==> EqualsIgnoreCase(a, b)
    ensures EqualsIgnoreCase(a, b) ==> |a| == |b|
  {
    |a| == |b| && forall i :: 0 <= i < |a| ==> CharsEqualIgnoreCase(a[i], b[i])
  }

  /** The strings equal to "BUY" ignoring case: each letter in either case. */
  lemma MatchesBuy(s: string)
    ensures EqualsIgnoreCase("BUY", s) <==>
      |s| == 3 && s[0] in "Bb" && s[1] in "Uu" && s[2] in "Yy"
  {
    if |s| == 3 && s[0] in "Bb" && s[1] in "Uu" && s[2] in "Yy" {
      assert CharsEqualIgnoreCase('B', s[0]) && CharsEqualIgnoreCase('U', s[1]) && CharsEqualIgnoreCase('Y', s[2]);
      assert forall i :: 0 <= i < 3 ==> CharsEqualIgnoreCase("BUY"[i], s[i]) by {
        forall i | 0 <= i < 3 ensures CharsEqualIgnoreCase("BUY"[i], s[i]) {
          if i == 0 {} else if i == 1 {} else {}
        }
      }
    }
    if EqualsIgnoreCase("BUY", s) {
      assert CharsEqualIgnoreCase("BUY"[0], s[0]) && CharsEqualIgnoreCase("BUY"[1], s[1]) && CharsEqualIgnoreCase("BUY"[2], s[2]);
    }
  }

  /** The strings equal to "SELL" ignoring case: each letter in either case, and U+017F for the S. */
  lemma MatchesSell(s: string)
    ensures EqualsIgnoreCase("SELL", s) <==>
      |s| == 4 && s[0] in "Ss\U{017F}" && s[1] in "Ee" && s[2] in "Ll" && s[3] in "Ll"
  {
    if |s| == 4 && s[0] in "Ss\U{017F}" && s[1] in "Ee" && s[2] in "Ll" && s[3] in "Ll" {
      assert CharsEqualIgnoreCase('S', s[0]) && CharsEqualIgnoreCase('E', s[1]) && CharsEqualIgnoreCase('L', s[2]) && CharsEqualIgnoreCase('L', s[3]);
      assert forall i :: 0 <= i < 4 ==> CharsEqualIgnoreCase("SELL"[i], s[i]) by {
        forall i | 0 <= i < 4 ensures CharsEqualIgnoreCase("SELL"[i], s[i]) {
          if i == 0 {} else if i == 1 {} else if i == 2 {} else {}
        }
      }
    }
    if EqualsIgnoreCase("SELL", s) {
      assert CharsEqualIgnoreCase("SELL"[0], s[0]) && CharsEqualIgnoreCase("SELL"[1], s[1]);
      assert CharsEqualIgnoreCase("SELL"[2], s[2]) && CharsEqualIgnoreCase("SELL"[3], s[3]);
    }
  }

  // ---------------------------------------------------------------------------
  // hashCode
  // ---------------------------------------------------------------------------

  /** Java int arithmetic: `x` wrapped into the two's-complement 32-bit range. */
  function Wrap32(x: int): (r: int)
    ensures -0x8000_0000 <= r < 0x8000_0000
    ensures (r - x) % 0x1_0000_0000 == 0
  {
    (x + 0x8000_0000) % 0x1_0000_0000 - 0x8000_0000
  }

  /** String.hashCode: s[0]*31^(n-1) + ... + s[n-1], in int arithmetic. */
  function StringHash(s: string): (h: int)
    ensures -0x8000_0000 <= h < 0x8000_0000
  {
    if s == [] then 0 else Wrap32(31 * StringHash(s[..|s| - 1]) + s[|s| - 1] as int)
  }
}

/**
 * The string primitives of JavaScript that the application relies on:
 * `trim`, `includes`, `startsWith`, `toLowerCase`, `split(sep)[0]`,
 * `split("\n")`, the decimal digits of `Number.parseInt` and of `toString`.
 * Strings are sequences of Unicode scalar values; `Utf16Length` gives the
 * `length` JavaScript reports for them.
 */
module Text {

  // ---------------------------------------------------------------------
  // Whitespace and trim
  // ---------------------------------------------------------------------

  /** The code points `String.prototype.trim` removes (WhiteSpace and LineTerminator). */
  predicate IsSpace(c: char) {
    || c == ' ' || c == '\t' || c == '\n' || c == '\r' || c == '\U{B}' || c == '\U{C}'
    || c == '\U{A0}' || c == '\U{1680}' || ('\U{2000}' <= c <= '\U{200A}')
    || c == '\U{2028}' || c == '\U{2029}' || c == '\U{202F}' || c == '\U{205F}'
    || c == '\U{3000}' || c == '\U{FEFF}'
  }

  /** Every character is whitespace (the empty string included). */
  predicate Blank(s: string) {
    forall c :: c in s ==> IsSpace(c)
  }

  /** Two blank strings together are blank. */
  lemma BlankAppend(a: string, b: string)
    requires Blank(a) && Blank(b)
    ensures Blank(a + b)
  {
    forall c | c in a + b ensures IsSpace(c) {
      assert c in a || c in b;
    }
  }

  /** How many whitespace characters `s` starts with. */
  function LeadingSpaces(s: string): (n: nat)
    ensures n <= |s| && (n < |s| ==> !IsSpace(s[n]))
  {
    if s != [] && IsSpace(s[0]) then 1 + LeadingSpaces(s[1..]) else 0
  }

  /** The leading run is whitespace. */
  lemma {:induction false} LeadingSpacesBlank(s: string)
    ensures Blank(s[..LeadingSpaces(s)])
  {
    if s != [] && IsSpace(s[0]) {
      var n := LeadingSpaces(s[1..]);
      LeadingSpacesBlank(s[1..]);
      assert s[..n + 1] == [s[0]] + s[1..][..n];
      BlankAppend([s[0]], s[1..][..n]);
    } else {
      assert s[..0] == [];
    }
  }

  /** The length of `s` without its trailing whitespace. */
  function KeptLength(s: string): (n: nat)
    ensures n <= |s| && (n > 0 ==> !IsSpace(s[n - 1]))
  {
    if s != [] && IsSpace(s[|s| - 1]) then KeptLength(s[..|s| - 1]) else |s|
  }

  /** The trailing run is whitespace. */
  lemma {:induction false} TrailingSpacesBlank(s: string)
    ensures Blank(s[KeptLength(s)..])
  {
    if s != [] && IsSpace(s[|s| - 1]) {
      var n := KeptLength(s[..|s| - 1]);
      TrailingSpacesBlank(s[..|s| - 1]);
      assert s[n..] == s[..|s| - 1][n..] + [s[|s| - 1]];
      BlankAppend(s[..|s| - 1][n..], [s[|s| - 1]]);
    } else {
      assert s[|s|..] == [];
    }
  }

  /** `String.prototype.trimStart`. */
  function TrimStart(s: string): string {
    s[LeadingSpaces(s)..]
  }

  /** `String.prototype.trimEnd`. */
  function TrimEnd(s: string): string {
    s[..KeptLength(s)]
  }

  /** `String.prototype.trim`. */
  function Trim(s: string): string {
    TrimEnd(TrimStart(s))
  }

  /** The trimmed string is the slice `s[i..j]`, with only whitespace outside it. */
  lemma TrimSlice(s: string) returns (i: nat, j: nat)
    ensures i <= j <= |s| && Trim(s) == s[i..j]
    ensures Blank(s[..i]) && Blank(s[j..])
  {
    var t := TrimStart(s);
    i := LeadingSpaces(s);
    j := i + KeptLength(t);
    LeadingSpacesBlank(s);
    TrailingSpacesBlank(t);
    assert t[..KeptLength(t)] == s[i..j];
    assert t[KeptLength(t)..] == s[j..];
  }

  /** The trimmed string neither starts nor ends with whitespace. */
  lemma TrimEdges(s: string)
    ensures Trim(s) != [] ==> !IsSpace(Trim(s)[0]) && !IsSpace(Trim(s)[|Trim(s)| - 1])
  {
    var t := TrimStart(s);
    if Trim(s) != [] {
      assert Trim(s)[0] == t[0] == s[LeadingSpaces(s)];
      assert Trim(s)[|Trim(s)| - 1] == t[KeptLength(t) - 1];
    }
  }

  /** `!s.trim()` holds exactly for blank strings. */
  lemma TrimEmptyIffBlank(s: string)
    ensures Trim(s) == [] <==> Blank(s)
  {
    var i, j := TrimSlice(s);
    if Trim(s) == [] {
      assert s == s[..i] + s[j..];
      BlankAppend(s[..i], s[j..]);
    } else {
      TrimEdges(s);
      assert s[i] == Trim(s)[0];
      assert s[i] in s;
    }
  }

  /** Trimming twice is trimming once. */
  lemma TrimIdempotent(s: string)
    ensures Trim(Trim(s)) == Trim(s)
  {
    TrimEdges(s);
    var t := Trim(s);
    assert LeadingSpaces(t) == 0;
    assert TrimStart(t) == t;
    assert KeptLength(t) == |t|;
  }

  // ---------------------------------------------------------------------
  // Substrings
  // ---------------------------------------------------------------------

  /** `s.startsWith(p)`. */
  predicate StartsWith(s: string, p: string) {
    |p| <= |s| && s[..|p|] == p
  }

  /** `w` occurs in `s` at position `i`. */
  predicate OccursAt(s: string, w: string, i: int) {
    0 <= i && i + |w| <= |s| && s[i..i + |w|] == w
  }

  /** `s.includes(w)`, searched from the left. */
  predicate Contains(s: string, w: string)
    decreases |s|
  {
    StartsWith(s, w) || (s != [] && Contains(s[1..], w))
  }

  /** The search finds `w` exactly when it occurs somewhere. */
  lemma {:induction false} ContainsIff(s: string, w: string)
    ensures Contains(s, w) <==> exists i :: OccursAt(s, w, i)
    decreases |s|
  {
    if StartsWith(s, w) {
      assert OccursAt(s, w, 0);
    } else if s == [] {
    } else {
      ContainsIff(s[1..], w);
      if exists i :: OccursAt(s[1..], w, i) {
        var i :| OccursAt(s[1..], w, i);
        assert s[1..][i..i + |w|] == s[i + 1..i + 1 + |w|];
        assert OccursAt(s, w, i + 1);
      }
      if exists i :: OccursAt(s, w, i) {
        var i :| OccursAt(s, w, i);
        assert i != 0;
        assert s[1..][i - 1..i - 1 + |w|] == s[i..i + |w|];
        assert OccursAt(s[1..], w, i - 1);
      }
    }
  }

  /** What occurs in a piece occurs in any string built around it. */
  lemma ContainsInMiddle(a: string, b: string, c: string, w: string)
    requires Contains(b, w)
    ensures Contains(a + b + c, w)
  {
    ContainsIff(b, w);
    var i :| OccursAt(b, w, i);
    assert (a + b + c)[|a| + i..|a| + i + |w|] == b[i..i + |w|];
    assert OccursAt(a + b + c, w, |a| + i);
    ContainsIff(a + b + c, w);
  }

  /** What the lower-cased slice of a text contains, the lower-cased text contains. */
  lemma LowerSliceContains(s: string, i: int, j: int, w: string)
    requires 0 <= i <= j <= |s| && Contains(ToLower(s[i..j]), w)
    ensures Contains(ToLower(s), w)
  {
    var pre, mid, post := s[..i], s[i..j], s[j..];
    assert s[..j] == pre + mid;
    assert s == s[..j] + post;
    ToLowerAppend(s[..j], post);
    ToLowerAppend(pre, mid);
    ContainsInMiddle(ToLower(pre), ToLower(mid), ToLower(post), w);
  }

  /** A concrete witness is enough to show `s.includes(w)`. */
  lemma ContainsAt(s: string, w: string, i: int)
    requires OccursAt(s, w, i)
    ensures Contains(s, w)
  {
    ContainsIff(s, w);
  }

  // ---------------------------------------------------------------------
  // Lower-casing
  // ---------------------------------------------------------------------

  /**
   * The one-to-one part of `toLowerCase`: ASCII and Latin-1 capitals and the
   * Turkish capitals Ğ and Ş.  It is also the per-character folding that a
   * case-insensitive regular expression uses on these letters.
   */
  function LowerChar(c: char): (r: char)
    ensures r == '*' <==> c == '*'
  {
    if 'A' <= c <= 'Z' then (c as int + 32) as char
    else if '\U{C0}' <= c <= '\U{DE}' && c != '\U{D7}' then (c as int + 32) as char
    else if c == '\U{11E}' then '\U{11F}'
    else if c == '\U{15E}' then '\U{15F}'
    else c
  }

  /** `toLowerCase` of one character: capital dotted İ becomes "i" plus a combining dot. */
  function LowerOf(c: char): string {
    if c == '\U{130}' then "i\U{307}" else [LowerChar(c)]
  }

  /** `String.prototype.toLowerCase` on the letters described at `LowerChar`. */
  function ToLower(s: string): string {
    if s == [] then [] else LowerOf(s[0]) + ToLower(s[1..])
  }

  /** Lower-casing works character by character, so it distributes over concatenation. */
  lemma {:induction false} ToLowerAppend(a: string, b: string)
    ensures ToLower(a + b) == ToLower(a) + ToLower(b)
  {
    if a != [] {
      assert (a + b)[1..] == a[1..] + b;
      ToLowerAppend(a[1..], b);
    } else {
      assert a + b == b;
    }
  }

  /** A text whose every character is its own lower case is its own lower case. */
  lemma {:induction false} ToLowerUnchanged(s: string)
    requires forall c :: c in s ==> LowerOf(c) == [c]
    ensures ToLower(s) == s
  {
    if s != [] {
      assert s[0] in s;
      assert forall c :: c in s[1..] ==> c in s;
      ToLowerUnchanged(s[1..]);
    }
  }

  /** Per-character folding of a whole string. */
  function Fold(s: string): (r: string)
    ensures |r| == |s|
  {
    seq(|s|, i requires 0 <= i < |s| => LowerChar(s[i]))
  }

  /** `w` occurs at `i` in `s` when both are folded (a case-insensitive match). */
  predicate FoldOccursAt(s: string, w: string, i: int) {
    0 <= i && i + |w| <= |s| && Fold(s[i..i + |w|]) == Fold(w)
  }

  // ---------------------------------------------------------------------
  // Splitting
  // ---------------------------------------------------------------------

  /** `s.split(c)[0]`: the text before the first `c`, or all of `s`. */
  function PrefixBefore(s: string, c: char): (r: string)
    ensures |r| <= |s| && r == s[..|r|]
    ensures c !in r
    ensures |r| < |s| ==> s[|r|] == c
  {
    if s == [] || s[0] == c then [] else [s[0]] + PrefixBefore(s[1..], c)
  }

  /** `s.split("\n")`: the pieces between line feeds, at least one. */
  function SplitLines(s: string): (r: seq<string>)
    ensures |r| >= 1
    ensures forall k :: 0 <= k < |r| ==> '\n' !in r[k]
    decreases |s|
  {
    var p := PrefixBefore(s, '\n');
    if |p| == |s| then [s] else [p] + SplitLines(s[|p| + 1..])
  }

  /** `parts.join("\n")`. */
  function JoinLines(parts: seq<string>): string
    requires |parts| >= 1
  {
    if |parts| == 1 then parts[0] else parts[0] + "\n" + JoinLines(parts[1..])
  }

  /** Joining the pieces again gives back the text. */
  lemma {:induction false} JoinSplitLines(s: string)
    ensures JoinLines(SplitLines(s)) == s
    decreases |s|
  {
    var p := PrefixBefore(s, '\n');
    if |p| < |s| {
      JoinSplitLines(s[|p| + 1..]);
      assert s == p + "\n" + s[|p| + 1..];
    }
  }

  /** Splitting pieces that hold no line feed, once joined, gives back the pieces. */
  lemma {:induction false} SplitJoinLines(parts: seq<string>)
    requires |parts| >= 1
    requires forall k :: 0 <= k < |parts| ==> '\n' !in parts[k]
    ensures SplitLines(JoinLines(parts)) == parts
    decreases |parts|
  {
    if |parts| == 1 {
      PrefixWithoutSeparator(parts[0], '\n');
    } else {
      var head, tail := parts[0], parts[1..];
      var rest := JoinLines(tail);
      var s := JoinLines(parts);
      var b := "\n" + rest;
      assert s == head + b;
      PrefixBeforeAt(head, b, '\n');
      assert s[|head| + 1..] == rest;
      SplitJoinLines(tail);
      assert SplitLines(s) == [head] + SplitLines(rest);
      assert parts == [head] + tail;
    }
  }

  lemma {:induction false} PrefixWithoutSeparator(s: string, c: char)
    requires c !in s
    ensures PrefixBefore(s, c) == s
  {
    if s != [] {
      assert c !in s[1..];
      PrefixWithoutSeparator(s[1..], c);
    }
  }

  lemma {:induction false} PrefixBeforeAt(a: string, b: string, c: char)
    requires c !in a && b != [] && b[0] == c
    ensures PrefixBefore(a + b, c) == a
  {
    if a != [] {
      assert (a + b)[1..] == a[1..] + b;
      assert c !in a[1..];
      PrefixBeforeAt(a[1..], b, c);
    } else {
      assert a + b == b;
    }
  }

  // ---------------------------------------------------------------------
  // Decimal digits
  // ---------------------------------------------------------------------

  predicate IsDigit(c: char) {
    '0' <= c <= '9'
  }

  /** The regular expression `/^\d*$/`. */
  predicate AllDigits(s: string) {
    forall i :: 0 <= i < |s| ==> IsDigit(s[i])
  }

  /** `Number.parseInt` of a string of ASCII digits (empty gives 0 here; callers treat "" apart). */
  function DigitsValue(s: string): nat
    requires AllDigits(s)
  {
    if s == [] then 0 else DigitsValue(s[..|s| - 1]) * 10 + (s[|s| - 1] as int - '0' as int)
  }

  function DigitChar(d: nat): (c: char)
    requires d < 10
    ensures IsDigit(c) && c as int - '0' as int == d
  {
    ('0' as int + d) as char
  }

  /** `Number.prototype.toString()` of a non-negative integer. */
  function NatToString(n: nat): (r: string)
    ensures |r| >= 1
  {
    if n < 10 then [DigitChar(n)] else NatToString(n / 10) + [DigitChar(n % 10)]
  }

  /** `parseInt` reads back what `toString` wrote. */
  lemma {:induction false} ParseNatToString(n: nat)
    ensures AllDigits(NatToString(n)) && DigitsValue(NatToString(n)) == n
  {
    if n >= 10 {
      ParseNatToString(n / 10);
      var s := NatToString(n);
      assert s[..|s| - 1] == NatToString(n / 10);
    }
  }

  // ---------------------------------------------------------------------
  // Length in UTF-16 code units
  // ---------------------------------------------------------------------

  /** A character above U+FFFF is stored as a surrogate pair. */
  predicate Supplementary(c: char) {
    c as int > 0xFFFF
  }

  /** `String.prototype.length`: UTF-16 code units, two for a supplementary character. */
  function Utf16Length(s: string): (n: nat)
    ensures |s| <= n <= 2 * |s|
    ensures n == |s| <==> forall c :: c in s ==> !Supplementary(c)
  {
    if s == [] then 0 else (if Supplementary(s[0]) then 2 else 1) + Utf16Length(s[1..])
  }

  /** The code units of two strings add up. */
  lemma {:induction false} Utf16LengthAppend(a: string, b: string)
    ensures Utf16Length(a + b) == Utf16Length(a) + Utf16Length(b)
  {
    if a != [] {
      assert (a + b)[0] == a[0] && (a + b)[1..] == a[1..] + b;
      Utf16LengthAppend(a[1..], b);
    } else {
      assert a + b == b;
    }
  }

  /** Three emoji are three characters but six code units. */
  lemma SurrogatePairsCountTwice()
    ensures |"\U{1F600}\U{1F600}\U{1F600}"| == 3
    ensures Utf16Length("\U{1F600}\U{1F600}\U{1F600}") == 6
  {
    var e := "\U{1F600}\U{1F600}\U{1F600}";
    assert e[1..] == "\U{1F600}\U{1F600}" && e[1..][1..] == "\U{1F600}";
  }
}

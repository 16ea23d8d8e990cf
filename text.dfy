/**
 * String helpers shared by the models: JavaScript's notion of white space,
 * `String.prototype.trim`, `startsWith`, `slice(0, n)`, `indexOf`, `split` and
 * the decimal rendering of an integer inside a template string.
 */
module Text {
  import opened Wrappers
  import opened Seqs

  /**
   * The characters matched by JavaScript's `\s` class and removed by `trim`:
   * the WhiteSpace and LineTerminator productions of ECMAScript
   * (tab, line feed, vertical tab, form feed, carriage return, space, no-break
   * space, the byte order mark and the Unicode space separators).
   */
  predicate IsWhitespace(c: char) {
    || c == '\t' || c == '\n' || c == '\U{000B}' || c == '\U{000C}' || c == '\r' || c == ' '
    || c == '\U{00A0}' || c == '\U{1680}' || ('\U{2000}' <= c <= '\U{200A}')
    || c == '\U{2028}' || c == '\U{2029}' || c == '\U{202F}' || c == '\U{205F}'
    || c == '\U{3000}' || c == '\U{FEFF}'
  }

  /** Every character of `s` is white space (so `s.trim()` is empty). */
  predicate AllWhitespace(s: string) {
    forall i :: 0 <= i < |s| ==> IsWhitespace(s[i])
  }

  /** Neither end of `s` is white space: `trim` leaves `s` as it is. */
  predicate IsTrimmed(s: string) {
    s == [] || (!IsWhitespace(s[0]) && !IsWhitespace(s[|s| - 1]))
  }

  /**
   * `String.prototype.trim`: drops white space from both ends. The result has
   * no white space at either end, it is empty exactly when `s` is all white
   * space, and a string with no white space at its ends is returned unchanged.
   */
  function Trim(s: string): (r: string)
    ensures IsTrimmed(r)
    ensures |r| <= |s|
    ensures r == [] <==> AllWhitespace(s)
    ensures IsTrimmed(s) ==> r == s
    decreases |s|
  {
    if s != [] && IsWhitespace(s[0]) then
      assert forall i :: 0 <= i < |s| - 1 ==> s[1..][i] == s[i + 1];
      Trim(s[1..])
    else if s != [] && IsWhitespace(s[|s| - 1]) then
      assert forall i :: 0 <= i < |s| - 1 ==> s[..|s| - 1][i] == s[i];
      Trim(s[..|s| - 1])
    else s
  }

  /** The piece `s[a..b]` with only white space around it in `s`. */
  predicate WhitespaceAround(s: string, a: nat, b: nat) {
    a <= b <= |s| && AllWhitespace(s[..a]) && AllWhitespace(s[b..])
  }

  /** A piece of `s[1..]` with white space around it, seen in `s` when `s[0]` is white space. */
  lemma WhitespaceAroundFront(s: string, a: nat, b: nat)
    requires s != [] && IsWhitespace(s[0]) && WhitespaceAround(s[1..], a, b)
    ensures WhitespaceAround(s, a + 1, b + 1) && s[1..][a..b] == s[a + 1..b + 1]
  {
    var t := s[1..];
    assert s[..a + 1] == [s[0]] + t[..a];
    assert s[b + 1..] == t[b..];
  }

  /** A piece of `s[..|s| - 1]` with white space around it, seen in `s` when its last character is white space. */
  lemma WhitespaceAroundBack(s: string, a: nat, b: nat)
    requires s != [] && IsWhitespace(s[|s| - 1]) && WhitespaceAround(s[..|s| - 1], a, b)
    ensures WhitespaceAround(s, a, b) && s[..|s| - 1][a..b] == s[a..b]
  {
    var t := s[..|s| - 1];
    assert s[..a] == t[..a];
    assert s[b..] == t[b..] + [s[|s| - 1]];
  }

  /**
   * `trim` removes white space from the two ends and nothing else: its result
   * is the piece `s[a..b]` of the input, with only white space before `a` and
   * after `b`.
   */
  lemma {:induction false} TrimKeepsMiddle(s: string)
    ensures exists a: nat, b: nat :: WhitespaceAround(s, a, b) && Trim(s) == s[a..b]
    decreases |s|
  {
    if s != [] && IsWhitespace(s[0]) {
      var t := s[1..];
      TrimKeepsMiddle(t);
      var a: nat, b: nat :| WhitespaceAround(t, a, b) && Trim(t) == t[a..b];
      WhitespaceAroundFront(s, a, b);
      assert WhitespaceAround(s, a + 1, b + 1) && Trim(s) == s[a + 1..b + 1];
    } else if s != [] && IsWhitespace(s[|s| - 1]) {
      var t := s[..|s| - 1];
      TrimKeepsMiddle(t);
      var a: nat, b: nat :| WhitespaceAround(t, a, b) && Trim(t) == t[a..b];
      WhitespaceAroundBack(s, a, b);
      assert WhitespaceAround(s, a, b) && Trim(s) == s[a..b];
    } else {
      assert s[..0] == [] && s[|s|..] == [] && s[0..|s|] == s;
      assert WhitespaceAround(s, 0, |s|) && Trim(s) == s[0..|s|];
    }
  }

  /** `s.startsWith(p)`. */
  predicate StartsWith(s: string, p: string) {
    |p| <= |s| && s[..|p|] == p
  }

  /** `s.slice(0, n)`: the first `n` characters, or all of `s` when it is shorter. */
  function Take(s: string, n: nat): (r: string)
    ensures |r| == if n <= |s| then n else |s|
    ensures StartsWith(s, r)
  {
    if n <= |s| then s[..n] else s
  }

  /** `sep` occurs in `s` starting at index `k`. */
  predicate OccursAt(s: string, sep: string, k: int) {
    0 <= k && k + |sep| <= |s| && s[k..k + |sep|] == sep
  }

  /** `s.indexOf(sep, from)`: the first occurrence of `sep` at or after `from`. */
  function IndexOfFrom(s: string, sep: string, from: nat): (r: Option<nat>)
    ensures r.Some? ==> from <= r.value && OccursAt(s, sep, r.value)
    ensures r.Some? ==> forall k :: from <= k < r.value ==> !OccursAt(s, sep, k)
    ensures r.None? ==> forall k :: from <= k ==> !OccursAt(s, sep, k)
    decreases |s| - from
  {
    if from + |sep| > |s| then None
    else if s[from..from + |sep|] == sep then Some(from)
    else IndexOfFrom(s, sep, from + 1)
  }

  /** `s.indexOf(sep)`. */
  function IndexOf(s: string, sep: string): Option<nat> {
    IndexOfFrom(s, sep, 0)
  }

  /** `s.includes(sep)`. */
  predicate Contains(s: string, sep: string) {
    IndexOf(s, sep).Some?
  }

  /** `s.replace(pattern, rep)` with a string pattern: only the first occurrence is replaced. */
  function ReplaceFirst(s: string, pattern: string, rep: string): string {
    match IndexOf(s, pattern)
    case None => s
    case Some(k) => s[..k] + rep + s[k + |pattern|..]
  }

  /** `parts.join(sep)`. */
  function Join(parts: seq<string>, sep: string): string
    requires |parts| >= 1
  {
    if |parts| == 1 then parts[0] else parts[0] + sep + Join(parts[1..], sep)
  }

  /**
   * `s.split(sep)` for a non-empty separator: the pieces between the
   * non-overlapping occurrences of `sep`, found left to right.
   */
  function Split(s: string, sep: string): (parts: seq<string>)
    requires sep != []
    ensures |parts| >= 1
    decreases |s|
  {
    match IndexOf(s, sep)
    case None => [s]
    case Some(k) => [s[..k]] + Split(s[k + |sep|..], sep)
  }

  /** The text before the first occurrence of `sep` does not contain `sep`. */
  lemma PrefixBeforeFirstOccurrence(s: string, sep: string, k: nat)
    requires sep != [] && IndexOf(s, sep) == Some(k)
    ensures !Contains(s[..k], sep)
  {
    var head := s[..k];
    var h := IndexOf(head, sep);
    if h.Some? {
      assert OccursAt(head, sep, h.value);
      assert head[h.value..h.value + |sep|] == s[h.value..h.value + |sep|];
      assert OccursAt(s, sep, h.value);
      assert false;
    }
  }

  /** Joining the pieces of `s.split(sep)` with `sep` gives `s` back. */
  lemma {:induction false} SplitJoin(s: string, sep: string)
    requires sep != []
    ensures Join(Split(s, sep), sep) == s
    decreases |s|
  {
    match IndexOf(s, sep)
    case None =>
    case Some(k) =>
      var rest := s[k + |sep|..];
      var tail := Split(rest, sep);
      var parts := Split(s, sep);
      assert parts == [s[..k]] + tail;
      assert parts[0] == s[..k] && parts[1..] == tail && |parts| >= 2;
      assert Join(parts, sep) == s[..k] + sep + Join(tail, sep);
      SplitJoin(rest, sep);
      assert OccursAt(s, sep, k);
      SliceThree(s, k, k + |sep|);
  }

  /** No piece of `s.split(sep)` contains `sep`. */
  lemma {:induction false} SplitPieces(s: string, sep: string)
    requires sep != []
    ensures forall i :: 0 <= i < |Split(s, sep)| ==> !Contains(Split(s, sep)[i], sep)
    decreases |s|
  {
    match IndexOf(s, sep)
    case None =>
    case Some(k) =>
      var rest := s[k + |sep|..];
      SplitPieces(rest, sep);
      PrefixBeforeFirstOccurrence(s, sep, k);
      var parts := Split(s, sep);
      forall i | 0 <= i < |parts| ensures !Contains(parts[i], sep) {
        if i > 0 { assert parts[i] == Split(rest, sep)[i - 1]; }
      }
  }

  /** `s.split(sep)` has a single piece exactly when `sep` does not occur in `s`. */
  lemma SplitSingle(s: string, sep: string)
    requires sep != []
    ensures |Split(s, sep)| == 1 <==> !Contains(s, sep)
  {
    if Contains(s, sep) {
      var k := IndexOf(s, sep).value;
      assert Split(s, sep) == [s[..k]] + Split(s[k + |sep|..], sep);
    }
  }

  /** The character of a decimal digit `0 <= d < 10`. */
  function DigitChar(d: nat): (c: char)
    requires d < 10
    ensures '0' <= c <= '9' && DigitValue(c) == d
  {
    ('0' as int + d) as char
  }

  /** The value of a decimal digit character. */
  function DigitValue(c: char): nat {
    if '0' <= c <= '9' then (c as int - '0' as int) as nat else 0
  }

  predicate IsDigit(c: char) {
    '0' <= c <= '9'
  }

  /** The decimal digits of a natural number, most significant first, without leading zeros. */
  function NatDigits(n: nat): (r: string)
    ensures |r| >= 1 && (forall i :: 0 <= i < |r| ==> IsDigit(r[i]))
    ensures r[0] == '0' ==> n == 0
  {
    if n < 10 then [DigitChar(n)] else NatDigits(n / 10) + [DigitChar(n % 10)]
  }

  /** The value of a string of decimal digits. */
  function DigitsValue(s: string): nat {
    if s == [] then 0 else DigitsValue(s[..|s| - 1]) * 10 + DigitValue(s[|s| - 1])
  }

  /** The decimal rendering of an integer, as in `${n}` for a whole number. */
  function DecimalString(n: int): (r: string)
    ensures |r| >= 1
  {
    if n < 0 then "-" + NatDigits(-n) else NatDigits(n)
  }

  /** Reads back what `DecimalString` writes. */
  function ParseDecimal(s: string): int {
    if s != [] && s[0] == '-' then -(DigitsValue(s[1..]) as int) else DigitsValue(s)
  }

  lemma {:induction false} NatDigitsRoundTrip(n: nat)
    ensures DigitsValue(NatDigits(n)) == n
  {
    var r := NatDigits(n);
    if n < 10 {
      assert r == [DigitChar(n)] && r[..0] == [];
    } else {
      var q, d := n / 10, n % 10;
      assert n == q * 10 + d;
      NatDigitsRoundTrip(q);
      assert r == NatDigits(q) + [DigitChar(d)];
      assert r[..|r| - 1] == NatDigits(q);
      assert DigitsValue(r) == DigitsValue(NatDigits(q)) * 10 + DigitValue(DigitChar(d));
    }
  }

  /** `DecimalString` is injective: the integer can be read back from it. */
  lemma DecimalRoundTrip(n: int)
    ensures ParseDecimal(DecimalString(n)) == n
  {
    if n < 0 {
      NatDigitsRoundTrip(-n);
      assert DecimalString(n)[1..] == NatDigits(-n);
    } else {
      NatDigitsRoundTrip(n);
    }
  }
}

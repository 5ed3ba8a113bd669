/**
 * The string built-ins of JavaScript that the ledger relies on: the
 * whitespace class `\s` (which is also the set `String.prototype.trim`
 * strips), `trim`, `split`, and case mapping restricted to ASCII.
 */
module Text {

  /** JavaScript's `\s`: the WhiteSpace and LineTerminator code points. */
  predicate IsSpace(c: char) {
    var n := c as int;
    n == 0x09 || n == 0x0A || n == 0x0B || n == 0x0C || n == 0x0D || n == 0x20
    || n == 0xA0 || n == 0x1680 || (0x2000 <= n <= 0x200A)
    || n == 0x2028 || n == 0x2029 || n == 0x202F || n == 0x205F
    || n == 0x3000 || n == 0xFEFF
  }

  /** The characters that the regular-expression `.` does not match. */
  predicate IsLineTerminator(c: char) {
    c == '\n' || c == '\r' || c as int == 0x2028 || c as int == 0x2029
  }

  predicate IsDigit(c: char) { '0' <= c <= '9' }

  predicate IsAsciiLetter(c: char) { 'a' <= c <= 'z' || 'A' <= c <= 'Z' }

  predicate IsAsciiUpper(c: char) { 'A' <= c <= 'Z' }

  predicate IsAsciiLower(c: char) { 'a' <= c <= 'z' }

  function LowerChar(c: char): (r: char)
    ensures !IsAsciiUpper(r)
    ensures IsAsciiUpper(c) ==> r as int == c as int + 32
    ensures !IsAsciiUpper(c) ==> r == c
  {
    if IsAsciiUpper(c) then (c as int + 32) as char else c
  }

  function UpperChar(c: char): (r: char)
    ensures !IsAsciiLower(r)
    ensures IsAsciiLower(c) ==> r as int == c as int - 32
    ensures !IsAsciiLower(c) ==> r == c
  {
    if IsAsciiLower(c) then (c as int - 32) as char else c
  }

  /** `toLowerCase`, on the ASCII range. */
  function ToLower(s: string): (r: string)
    ensures |r| == |s|
    ensures forall i :: 0 <= i < |s| ==> r[i] == LowerChar(s[i])
  {
    seq(|s|, i requires 0 <= i < |s| => LowerChar(s[i]))
  }

  /** `toUpperCase`, on the ASCII range. */
  function ToUpper(s: string): (r: string)
    ensures |r| == |s|
    ensures forall i :: 0 <= i < |s| ==> r[i] == UpperChar(s[i])
  {
    seq(|s|, i requires 0 <= i < |s| => UpperChar(s[i]))
  }

  /** The character classes the line patterns are built from. */
  datatype CharClass = Space | DigitOrComma | Digit | Letter

  predicate InClass(c: char, cls: CharClass) {
    match cls
    case Space => IsSpace(c)
    case DigitOrComma => IsDigit(c) || c == ','
    case Digit => IsDigit(c)
    case Letter => IsAsciiLetter(c)
  }

  predicate AllIn(s: string, cls: CharClass) {
    forall k :: 0 <= k < |s| ==> InClass(s[k], cls)
  }

  /** The end of the longest run of `cls` characters that starts at `i`. */
  function Span(s: string, i: nat, cls: CharClass): (j: nat)
    requires i <= |s|
    ensures i <= j <= |s|
    ensures forall k :: i <= k < j ==> InClass(s[k], cls)
    ensures j == |s| || !InClass(s[j], cls)
    decreases |s| - i
  {
    if i < |s| && InClass(s[i], cls) then Span(s, i + 1, cls) else i
  }

  /** One past the last non-space character before `j`, not going below `lo`. */
  function SkipSpacesBack(s: string, lo: nat, j: nat): (k: nat)
    requires lo <= j <= |s|
    ensures lo <= k <= j
    ensures forall m :: k <= m < j ==> IsSpace(s[m])
    ensures k == lo || !IsSpace(s[k - 1])
    decreases j
  {
    if lo < j && IsSpace(s[j - 1]) then SkipSpacesBack(s, lo, j - 1) else j
  }

  /**
   * `String.prototype.trim`: the result is the slice of `s` left after
   * removing every leading and every trailing whitespace character.
   */
  function Trim(s: string): (r: string)
    ensures |r| <= |s|
    ensures r == [] || (!IsSpace(r[0]) && !IsSpace(r[|r| - 1]))
    ensures var i := Span(s, 0, Space);
              i + |r| <= |s| && s[i..i + |r|] == r
              && (forall k :: 0 <= k < i ==> IsSpace(s[k]))
              && (forall k :: i + |r| <= k < |s| ==> IsSpace(s[k]))
    ensures r == [] <==> forall k :: 0 <= k < |s| ==> IsSpace(s[k])
  {
    var i := Span(s, 0, Space);
    var j := SkipSpacesBack(s, i, |s|);
    assert s[i..i + |s[i..j]|] == s[i..j];
    s[i..j]
  }

  /** Joins `parts` with the separator `sep` between consecutive parts. */
  function Join(parts: seq<string>, sep: char): string {
    if |parts| == 0 then []
    else if |parts| == 1 then parts[0]
    else parts[0] + [sep] + Join(parts[1..], sep)
  }

  /** Index of the first occurrence of `c` in `s`. */
  function IndexOf(s: string, c: char): (i: nat)
    requires c in s
    ensures i < |s| && s[i] == c && c !in s[..i]
  {
    if s[0] == c then 0 else IndexOf(s[1..], c) + 1
  }

  /**
   * `String.prototype.split` with a one-character separator: always at
   * least one part, no part holds the separator, and joining the parts back
   * gives the original string.
   */
  function Split(s: string, sep: char): (parts: seq<string>)
    ensures |parts| >= 1
    ensures forall k :: 0 <= k < |parts| ==> sep !in parts[k]
    ensures Join(parts, sep) == s
    decreases |s|
  {
    if sep !in s then [s]
    else
      var i := IndexOf(s, sep);
      var rest := Split(s[i + 1..], sep);
      assert s == s[..i] + [sep] + s[i + 1..];
      [s[..i]] + rest
  }
}

/**
 * The line parser and date helpers of src/helpers.js.
 *
 * A spending line is matched by the pattern
 *   `^(.+?)\s+([\d,]+(?:\.\d+)?)\s*([A-Za-z]{3})?$`
 * and the older index.js handler uses the narrower `^(.+?)\s+([\d,]+)$`.
 * Both are given a declarative meaning here (`MatchesAt`): the category
 * group ends at a split point `k`, and the rest of the line decomposes into
 * the pieces of a `Tail`. A deterministic parser (`ParseTail`) is proved
 * sound and complete for that meaning, and the lazy `(.+?)` is the least
 * split point at which the rest of the line matches.
 */
module Helpers {
  import opened Common
  import opened Text

  // ---------------------------------------------------------------------
  // The tail of the line pattern
  // ---------------------------------------------------------------------

  /**
   * Where the pieces of a tail `\s+([\d,]+(?:\.\d+)?)\s*([A-Za-z]{3})?` lie
   * in a line: the whitespace gap runs up to `intStart`, the integral part of
   * the amount (digits and commas) up to `intEnd`, the optional fraction (a
   * point and digits) up to `fracEnd`, the optional whitespace pad up to
   * `codeStart`, and the optional three-letter currency code from there to
   * the end of the line.
   */
  datatype Cuts = Cuts(intStart: nat, intEnd: nat, fracEnd: nat, codeStart: nat)

  /** The tail pattern matches `s[k..]`, its pieces lying at the cuts `x`. */
  predicate IsTail(s: string, k: nat, x: Cuts) {
    && k < x.intStart < x.intEnd <= x.fracEnd <= x.codeStart <= |s|
    && (forall j :: k <= j < x.intStart ==> IsSpace(s[j]))
    && (forall j :: x.intStart <= j < x.intEnd ==> InClass(s[j], DigitOrComma))
    && (x.fracEnd == x.intEnd
        || (x.intEnd + 2 <= x.fracEnd && s[x.intEnd] == '.'
            && forall j :: x.intEnd < j < x.fracEnd ==> IsDigit(s[j])))
    && (forall j :: x.fracEnd <= j < x.codeStart ==> IsSpace(s[j]))
    && (x.codeStart == |s|
        || (x.codeStart + 3 == |s| && forall j :: x.codeStart <= j < |s| ==> IsAsciiLetter(s[j])))
  }

  /**
   * Where a greedy, left-to-right reading of `s[k..]` cuts it: each run as
   * long as it goes, the fraction only when a point is followed by a digit.
   */
  function GreedyCuts(s: string, k: nat): (x: Cuts)
    requires k <= |s|
    ensures k <= x.intStart <= x.intEnd <= x.fracEnd <= x.codeStart <= |s|
  {
    var a := Span(s, k, Space);
    var b := Span(s, a, DigitOrComma);
    var c := if b + 1 < |s| && s[b] == '.' && IsDigit(s[b + 1]) then Span(s, b + 1, Digit) else b;
    Cuts(a, b, c, Span(s, c, Space))
  }

  /** Greedy reading of the tail `s[k..]`. */
  function ParseTail(s: string, k: nat): (r: Option<Cuts>)
    requires k <= |s|
    ensures r.Some? ==> IsTail(s, k, r.value)
  {
    var x := GreedyCuts(s, k);
    var d := x.codeStart;
    if k < x.intStart < x.intEnd
       && (d == |s| || (d + 3 == |s| && IsAsciiLetter(s[d]) && IsAsciiLetter(s[d + 1]) && IsAsciiLetter(s[d + 2])))
    then
      GreedyCutsAreTail(s, k);
      Some(x)
    else None
  }

  /** Where its pieces are present and the line ends after the code, the greedy reading is a tail. */
  lemma GreedyCutsAreTail(s: string, k: nat)
    requires k <= |s|
    requires var x := GreedyCuts(s, k); var d := x.codeStart;
      && k < x.intStart < x.intEnd
      && (d == |s| || (d + 3 == |s| && IsAsciiLetter(s[d]) && IsAsciiLetter(s[d + 1]) && IsAsciiLetter(s[d + 2])))
    ensures IsTail(s, k, GreedyCuts(s, k))
  {
    var x := GreedyCuts(s, k);
    var d := x.codeStart;
    if d < |s| {
      forall j | d <= j < |s| ensures IsAsciiLetter(s[j]) {
        assert j == d || j == d + 1 || j == d + 2;
      }
    }
  }

  /** A maximal run is what `Span` finds. */
  lemma SpanOfRun(s: string, i: nat, j: nat, cls: CharClass)
    requires i <= j <= |s|
    requires forall k :: i <= k < j ==> InClass(s[k], cls)
    requires j == |s| || !InClass(s[j], cls)
    ensures Span(s, i, cls) == j
  {
  }

  /** The gap of a tail ends where its amount starts. */
  lemma GapOfTail(s: string, k: nat, x: Cuts)
    requires IsTail(s, k, x)
    ensures Span(s, k, Space) == x.intStart
  {
    assert InClass(s[x.intStart], DigitOrComma);
    SpanOfRun(s, k, x.intStart, Space);
  }

  /** The integral part of a tail's amount ends at `intEnd`. */
  lemma IntegralOfTail(s: string, k: nat, x: Cuts)
    requires IsTail(s, k, x)
    ensures Span(s, x.intStart, DigitOrComma) == x.intEnd
  {
    var b, c, d := x.intEnd, x.fracEnd, x.codeStart;
    if b < |s| {
      if b < c {
        assert s[b] == '.';
      } else if c < d {
        assert IsSpace(s[b]);
      } else {
        assert IsAsciiLetter(s[b]);
      }
    }
    SpanOfRun(s, x.intStart, b, DigitOrComma);
  }

  /** A tail's fraction is present exactly when a point and a digit follow the integral part, and runs to `fracEnd`. */
  lemma FractionOfTail(s: string, k: nat, x: Cuts)
    requires IsTail(s, k, x)
    ensures var b := x.intEnd;
      x.fracEnd == if b + 1 < |s| && s[b] == '.' && IsDigit(s[b + 1]) then Span(s, b + 1, Digit) else b
  {
    var b, c, d := x.intEnd, x.fracEnd, x.codeStart;
    if b < c {
      assert IsDigit(s[b + 1]);
      if c < |s| {
        if c < d { assert IsSpace(s[c]); } else { assert IsAsciiLetter(s[c]); }
      }
      SpanOfRun(s, b + 1, c, Digit);
    } else if b < |s| {
      if c < d { assert IsSpace(s[b]); } else { assert IsAsciiLetter(s[b]); }
    }
  }

  /** The pad of a tail ends where its code starts. */
  lemma PadOfTail(s: string, k: nat, x: Cuts)
    requires IsTail(s, k, x)
    ensures Span(s, x.fracEnd, Space) == x.codeStart
  {
    if x.codeStart < |s| {
      assert IsAsciiLetter(s[x.codeStart]);
    }
    SpanOfRun(s, x.fracEnd, x.codeStart, Space);
  }

  /** The runs of a tail are maximal, so the greedy reading cuts it where its pieces end. */
  lemma GreedyCutsOfTail(s: string, k: nat, x: Cuts)
    requires IsTail(s, k, x)
    ensures GreedyCuts(s, k) == x
  {
    GapOfTail(s, k, x);
    IntegralOfTail(s, k, x);
    FractionOfTail(s, k, x);
    PadOfTail(s, k, x);
  }


  /**
   * The pattern matches a tail in one way only, and `ParseTail` finds that
   * way: backtracking never yields a different reading.
   */
  lemma ParseTailComplete(s: string, k: nat, x: Cuts)
    requires IsTail(s, k, x)
    ensures ParseTail(s, k) == Some(x)
  {
    GreedyCutsOfTail(s, k, x);
    var d := x.codeStart;
    if d < |s| {
      assert IsAsciiLetter(s[d]) && IsAsciiLetter(s[d + 1]) && IsAsciiLetter(s[d + 2]);
    }
  }

  // ---------------------------------------------------------------------
  // The whole-line pattern and the lazy category group
  // ---------------------------------------------------------------------

  /**
   * `AmountOnly` is index.js's `^(.+?)\s+([\d,]+)$`; `AmountAndCurrency`
   * is src/helpers.js's pattern with fraction and currency code.
   */
  datatype Pattern = AmountOnly | AmountAndCurrency

  /** The narrower pattern has no fraction, pad or code: the amount ends the line. */
  predicate Admits(pat: Pattern, s: string, x: Cuts) {
    pat == AmountAndCurrency || x.intEnd == |s|
  }

  /**
   * The pattern `pat` matches the whole line `s` with the category group
   * `(.+?)` covering `s[..k]`: one or more characters, none of them a line
   * terminator (which `.` does not match).
   */
  predicate MatchesAt(pat: Pattern, s: string, k: nat, x: Cuts) {
    && 1 <= k
    && IsTail(s, k, x)
    && (forall i :: 0 <= i < k ==> !IsLineTerminator(s[i]))
    && Admits(pat, s, x)
  }

  datatype Match = Match(split: nat, cuts: Cuts)

  /** Tries split points `k`, `k + 1`, ... in turn, as the lazy `(.+?)` does. */
  function LazyMatchFrom(pat: Pattern, s: string, k: nat): (r: Option<Match>)
    requires 1 <= k
    requires forall i :: 0 <= i < k - 1 && i < |s| ==> !IsLineTerminator(s[i])
    ensures r.Some? ==> k <= r.value.split && MatchesAt(pat, s, r.value.split, r.value.cuts)
    decreases |s| - k
  {
    if |s| <= k || IsLineTerminator(s[k - 1]) then None
    else
      assert forall i :: 0 <= i < k ==> !IsLineTerminator(s[i]);
      var t := ParseTail(s, k);
      if t.Some? && Admits(pat, s, t.value) then Some(Match(k, t.value)) else LazyMatchFrom(pat, s, k + 1)
  }

  /** The match the regular-expression engine reports, if any. */
  function LazyMatch(pat: Pattern, s: string): (r: Option<Match>)
    ensures r.Some? ==> MatchesAt(pat, s, r.value.split, r.value.cuts)
  {
    LazyMatchFrom(pat, s, 1)
  }

  /** No split point in `lo..hi` makes the pattern match. */
  ghost predicate NoMatchIn(pat: Pattern, s: string, lo: nat, hi: nat) {
    forall j, y :: lo <= j < hi ==> !MatchesAt(pat, s, j, y)
  }

  /** Where the search for a split from `k` on ends: at the match, or at the end of the line. */
  function SearchEnd(r: Option<Match>, s: string): nat {
    if r.Some? then r.value.split else |s|
  }

  lemma NoMatchInJoin(pat: Pattern, s: string, lo: nat, mid: nat, hi: nat)
    requires lo <= mid <= hi
    requires NoMatchIn(pat, s, lo, mid) && NoMatchIn(pat, s, mid, hi)
    ensures NoMatchIn(pat, s, lo, hi)
  {
  }

  /** The search stops without a match at the end of the line or at a line terminator. */
  lemma LazyMatchFromStops(pat: Pattern, s: string, k: nat)
    requires 1 <= k
    requires forall i :: 0 <= i < k - 1 && i < |s| ==> !IsLineTerminator(s[i])
    requires |s| <= k || IsLineTerminator(s[k - 1])
    ensures LazyMatchFrom(pat, s, k).None?
    ensures NoMatchIn(pat, s, k, |s|)
  {
  }

  /** Where the greedy reading of the tail fails or is not admitted, no reading is a match. */
  lemma NoMatchAtSplit(pat: Pattern, s: string, k: nat)
    requires k <= |s|
    requires ParseTail(s, k).None? || !Admits(pat, s, ParseTail(s, k).value)
    ensures NoMatchIn(pat, s, k, k + 1)
  {
    forall y | IsTail(s, k, y) ensures ParseTail(s, k) == Some(y) {
      ParseTailComplete(s, k, y);
    }
  }

  /** Past a split that does not match, the search goes on at the next one. */
  lemma LazyMatchFromSkips(pat: Pattern, s: string, k: nat)
    requires 1 <= k < |s|
    requires forall i :: 0 <= i < k && i < |s| ==> !IsLineTerminator(s[i])
    requires ParseTail(s, k).None? || !Admits(pat, s, ParseTail(s, k).value)
    ensures LazyMatchFrom(pat, s, k) == LazyMatchFrom(pat, s, k + 1)
  {
  }

  /** No split between `k` and the one the search reports (or the end of the line) matches. */
  lemma {:induction false} LazyMatchFromLeast(pat: Pattern, s: string, k: nat)
    requires 1 <= k
    requires forall i :: 0 <= i < k - 1 && i < |s| ==> !IsLineTerminator(s[i])
    ensures k <= SearchEnd(LazyMatchFrom(pat, s, k), s) || |s| < k
    ensures NoMatchIn(pat, s, k, SearchEnd(LazyMatchFrom(pat, s, k), s))
    decreases |s| - k
  {
    if |s| <= k || IsLineTerminator(s[k - 1]) {
      LazyMatchFromStops(pat, s, k);
    } else if ParseTail(s, k).Some? && Admits(pat, s, ParseTail(s, k).value) {
      assert LazyMatchFrom(pat, s, k) == Some(Match(k, ParseTail(s, k).value));
    } else {
      NoMatchAtSplit(pat, s, k);
      LazyMatchFromSkips(pat, s, k);
      LazyMatchFromLeast(pat, s, k + 1);
      NoMatchInJoin(pat, s, k, k + 1, SearchEnd(LazyMatchFrom(pat, s, k + 1), s));
    }
  }

  /**
   * The category group is lazy: the reported split is the least one at which
   * the rest of the line matches, and no split matches when none is reported.
   */
  lemma LazyMatchIsLeast(pat: Pattern, s: string)
    ensures LazyMatch(pat, s).Some? ==>
              forall j, y :: 1 <= j < LazyMatch(pat, s).value.split ==> !MatchesAt(pat, s, j, y)
    ensures LazyMatch(pat, s).None? <==> forall j, y :: !MatchesAt(pat, s, j, y)
  {
    LazyMatchFromLeast(pat, s, 1);
    if LazyMatch(pat, s).None? {
      forall j: nat, y ensures !MatchesAt(pat, s, j, y) {
        if 1 <= j < |s| { assert NoMatchIn(pat, s, 1, |s|); }
      }
    }
  }

  /** The reported match is the least split and the one reading of the tail there. */
  lemma LazyMatchIs(pat: Pattern, s: string, k: nat, x: Cuts)
    requires MatchesAt(pat, s, k, x)
    requires forall j, y :: 1 <= j < k ==> !MatchesAt(pat, s, j, y)
    ensures LazyMatch(pat, s) == Some(Match(k, x))
  {
    LazyMatchIsLeast(pat, s);
    assert LazyMatch(pat, s).Some?;
    var m := LazyMatch(pat, s).value;
    assert m.split == k by {
      assert !(m.split < k);
      assert !(k < m.split);
    }
    ParseTailComplete(s, k, x);
    ParseTailComplete(s, k, m.cuts);
  }

  // ---------------------------------------------------------------------
  // Amounts: `Number(group.replace(/,/g, ''))`, read exactly
  // ---------------------------------------------------------------------

  function DigitValue(c: char): nat
    requires IsDigit(c)
  {
    c as int - '0' as int
  }

  /**
   * The value of the numeral `s[lo..hi]` with every comma dropped, as
   * `Number(str.replace(/,/g, ''))` reads it; no digits at all read as 0,
   * as `Number('')` does.
   */
  function NumeralValue(s: string, lo: nat, hi: nat): nat
    requires lo <= hi <= |s|
    requires forall j :: lo <= j < hi ==> InClass(s[j], DigitOrComma)
    decreases hi
  {
    if hi == lo then 0
    else if s[hi - 1] == ',' then NumeralValue(s, lo, hi - 1)
    else
      assert InClass(s[hi - 1], DigitOrComma);
      NumeralValue(s, lo, hi - 1) * 10 + DigitValue(s[hi - 1])
  }

  function Pow10(n: nat): (r: nat)
    ensures r >= 1
  {
    if n == 0 then 1 else 10 * Pow10(n - 1)
  }

  /** A numeral is positive exactly when one of its digits is not `0`. */
  lemma {:induction false} NumeralValuePositive(s: string, lo: nat, hi: nat)
    requires lo <= hi <= |s|
    requires forall j :: lo <= j < hi ==> InClass(s[j], DigitOrComma)
    ensures NumeralValue(s, lo, hi) > 0 <==> exists j :: lo <= j < hi && '1' <= s[j] <= '9'
    decreases hi
  {
    if hi > lo {
      NumeralValuePositive(s, lo, hi - 1);
    }
  }

  /** A numeral of `n` digits is below 10^n. */
  lemma {:induction false} NumeralValueBound(s: string, lo: nat, hi: nat)
    requires lo <= hi <= |s|
    requires forall j :: lo <= j < hi ==> InClass(s[j], DigitOrComma)
    ensures NumeralValue(s, lo, hi) < Pow10(hi - lo)
    decreases hi
  {
    if hi > lo {
      NumeralValueBound(s, lo, hi - 1);
      if s[hi - 1] != ',' {
        assert Pow10(hi - lo) == 10 * Pow10(hi - 1 - lo);
      } else {
        assert Pow10(hi - 1 - lo) <= Pow10(hi - lo);
      }
    }
  }

  /** The value of the fraction `s[lo..hi]` (the digits after a point). */
  function FractionValue(s: string, lo: nat, hi: nat): real
    requires lo <= hi <= |s|
    requires forall j :: lo <= j < hi ==> IsDigit(s[j])
  {
    assert forall j :: lo <= j < hi ==> InClass(s[j], DigitOrComma);
    NumeralValue(s, lo, hi) as real / Pow10(hi - lo) as real
  }

  /** The value of the amount group of a tail. */
  function AmountOf(s: string, k: nat, x: Cuts): real
    requires IsTail(s, k, x)
  {
    NumeralValue(s, x.intStart, x.intEnd) as real
    + (if x.fracEnd == x.intEnd then 0.0 else FractionValue(s, x.intEnd + 1, x.fracEnd))
  }

  /** A fraction lies in [0, 1) and is positive exactly when its numeral is. */
  lemma FractionBounds(s: string, lo: nat, hi: nat)
    requires lo <= hi <= |s|
    requires forall j :: lo <= j < hi ==> IsDigit(s[j])
    ensures 0.0 <= FractionValue(s, lo, hi) < 1.0
    ensures FractionValue(s, lo, hi) > 0.0 <==> NumeralValue(s, lo, hi) > 0
  {
    assert forall j :: lo <= j < hi ==> InClass(s[j], DigitOrComma);
    NumeralValueBound(s, lo, hi);
    Ratio(NumeralValue(s, lo, hi) as real, Pow10(hi - lo) as real);
  }

  lemma Ratio(n: real, p: real)
    requires 0.0 <= n < p
    ensures 0.0 <= n / p < 1.0
    ensures n / p > 0.0 <==> n > 0.0
  {
  }

  /**
   * Reading the amount: the whole-number part is the digits before the point
   * with every comma dropped, and the amount is positive exactly when some
   * digit of the amount group is not `0`. An amount made only of commas and
   * zeros reads as 0.
   */
  lemma AmountOfParts(s: string, k: nat, x: Cuts)
    requires IsTail(s, k, x)
    ensures AmountOf(s, k, x).Floor == NumeralValue(s, x.intStart, x.intEnd)
    ensures AmountOf(s, k, x) > 0.0 <==> exists j :: x.intStart <= j < x.fracEnd && '1' <= s[j] <= '9'
  {
    NumeralValuePositive(s, x.intStart, x.intEnd);
    if x.fracEnd > x.intEnd {
      FractionBounds(s, x.intEnd + 1, x.fracEnd);
      NumeralValuePositive(s, x.intEnd + 1, x.fracEnd);
      assert s[x.intEnd] == '.';
    }
  }

  // ---------------------------------------------------------------------
  // parseSpending
  // ---------------------------------------------------------------------

  datatype Spending = Spending(category: string, amount: real, currency: string)

  /** A currency code as the parser produces it: three upper-case ASCII letters. */
  predicate IsCurrencyCode(c: string) {
    |c| == 3 && forall i :: 0 <= i < 3 ==> IsAsciiUpper(c[i])
  }

  /** `match[3] ? match[3].toUpperCase() : 'AMD'`. */
  function CurrencyOf(s: string, k: nat, x: Cuts): (c: string)
    requires IsTail(s, k, x)
    ensures IsCurrencyCode(c)
  {
    if x.codeStart == |s| then "AMD" else ToUpper(s[x.codeStart..])
  }

  /** `match[1].trim().toLowerCase()`. */
  function CategoryOf(s: string, k: nat): (c: string)
    requires k <= |s|
    ensures forall i :: 0 <= i < |c| ==> !IsAsciiUpper(c[i])
  {
    ToLower(Trim(s[..k]))
  }

  /**
   * `parseSpending`: a category, a positive amount and a currency, or
   * nothing when the line does not match or the amount is not positive.
   */
  function ParseSpending(s: string): (r: Option<Spending>)
    ensures r.Some? ==> r.value.amount > 0.0 && IsCurrencyCode(r.value.currency)
    ensures r.Some? ==> forall i :: 0 <= i < |r.value.category| ==> !IsAsciiUpper(r.value.category[i])
  {
    match LazyMatch(AmountAndCurrency, s)
    case None => None
    case Some(m) =>
      var amount := AmountOf(s, m.split, m.cuts);
      if amount <= 0.0 then None
      else Some(Spending(CategoryOf(s, m.split), amount, CurrencyOf(s, m.split, m.cuts)))
  }

  /**
   * What `parseSpending` returns for a line that the pattern matches, with
   * `k` the least split point (the lazy category group): the trimmed,
   * lower-cased category `s[..k]`, the amount of the match and its currency,
   * or nothing when that amount is not positive.
   */
  lemma ParseSpendingOfMatch(s: string, k: nat, x: Cuts)
    requires MatchesAt(AmountAndCurrency, s, k, x)
    requires forall j, y :: 1 <= j < k ==> !MatchesAt(AmountAndCurrency, s, j, y)
    ensures ParseSpending(s) ==
              if AmountOf(s, k, x) > 0.0
              then Some(Spending(CategoryOf(s, k), AmountOf(s, k, x), CurrencyOf(s, k, x)))
              else None
  {
    LazyMatchIs(AmountAndCurrency, s, k, x);
  }

  /** A line the pattern does not match parses to nothing. */
  lemma ParseSpendingOfNonMatch(s: string)
    requires forall k, x :: !MatchesAt(AmountAndCurrency, s, k, x)
    ensures ParseSpending(s) == None
  {
    LazyMatchIsLeast(AmountAndCurrency, s);
  }

  // ---------------------------------------------------------------------
  // parseSpendings
  // ---------------------------------------------------------------------

  /** The trimmed lines of `parts`, blank ones dropped. */
  function TrimNonBlank(parts: seq<string>): (lines: seq<string>)
    ensures |lines| <= |parts|
    ensures forall i :: 0 <= i < |lines| ==> lines[i] != [] && Trim(lines[i]) == lines[i]
  {
    if parts == [] then []
    else
      var line := Trim(parts[0]);
      TrimIdempotent(parts[0]);
      (if line == [] then [] else [line]) + TrimNonBlank(parts[1..])
  }

  /** Trimming a trimmed string changes nothing. */
  lemma TrimIdempotent(s: string)
    ensures Trim(Trim(s)) == Trim(s)
  {
    var r := Trim(s);
    if r != [] {
      SpanOfRun(r, 0, 0, Space);
    }
  }

  /** `text.split('\n').map(l => l.trim()).filter(l => l)`. */
  function NonBlankLines(text: string): (lines: seq<string>)
    ensures forall i :: 0 <= i < |lines| ==> lines[i] != [] && Trim(lines[i]) == lines[i]
  {
    TrimNonBlank(Split(text, '\n'))
  }

  /** A parsed spending together with its line's position among the non-blank lines. */
  datatype IndexedSpending = IndexedSpending(spending: Spending, lineIndex: nat)

  /**
   * The `forEach` of `parseSpendings` from line `i` on, given what
   * `parseSpending` made of each line: the lines that parsed, each with its
   * index.
   */
  function Collect(parsed: seq<Option<Spending>>, i: nat): seq<IndexedSpending>
    requires i <= |parsed|
    decreases |parsed| - i
  {
    if i == |parsed| then []
    else if parsed[i].Some? then [IndexedSpending(parsed[i].value, i)] + Collect(parsed, i + 1)
    else Collect(parsed, i + 1)
  }

  /** What `Collect` keeps: exactly the lines that parsed, in order, each with its own index. */
  predicate Collected(parsed: seq<Option<Spending>>, i: nat, r: seq<IndexedSpending>) {
    && |r| <= |parsed| - i
    && (forall p :: 0 <= p < |r| ==>
          i <= r[p].lineIndex < |parsed| && parsed[r[p].lineIndex] == Some(r[p].spending))
    && (forall p, q :: 0 <= p < q < |r| ==> r[p].lineIndex < r[q].lineIndex)
    && (forall j :: i <= j < |parsed| && parsed[j].Some? ==> exists p :: 0 <= p < |r| && r[p].lineIndex == j)
  }

  /** A line that parsed, put in front of what the later lines collected. */
  lemma CollectedCons(parsed: seq<Option<Spending>>, i: nat, rest: seq<IndexedSpending>)
    requires i < |parsed| && parsed[i].Some?
    requires Collected(parsed, i + 1, rest)
    ensures Collected(parsed, i, [IndexedSpending(parsed[i].value, i)] + rest)
  {
    var r := [IndexedSpending(parsed[i].value, i)] + rest;
    assert forall p :: 1 <= p < |r| ==> r[p] == rest[p - 1];
    forall p, q | 0 <= p < q < |r| ensures r[p].lineIndex < r[q].lineIndex {
      if p > 0 {
        assert rest[p - 1].lineIndex < rest[q - 1].lineIndex;
      }
    }
    forall j | i <= j < |parsed| && parsed[j].Some?
      ensures exists p :: 0 <= p < |r| && r[p].lineIndex == j
    {
      if j == i {
        assert r[0].lineIndex == j;
      } else {
        var p :| 0 <= p < |rest| && rest[p].lineIndex == j;
        assert r[p + 1].lineIndex == j;
      }
    }
  }

  /** A line that did not parse adds nothing. */
  lemma CollectedSkip(parsed: seq<Option<Spending>>, i: nat, rest: seq<IndexedSpending>)
    requires i < |parsed| && parsed[i].None?
    requires Collected(parsed, i + 1, rest)
    ensures Collected(parsed, i, rest)
  {
  }

  lemma {:induction false} CollectCollects(parsed: seq<Option<Spending>>, i: nat)
    requires i <= |parsed|
    ensures Collected(parsed, i, Collect(parsed, i))
    decreases |parsed| - i
  {
    if i < |parsed| {
      CollectCollects(parsed, i + 1);
      if parsed[i].Some? {
        CollectedCons(parsed, i, Collect(parsed, i + 1));
      } else {
        CollectedSkip(parsed, i, Collect(parsed, i + 1));
      }
    }
  }

  /**
   * `parseSpendings`: every element is `parseSpending` of its (trimmed,
   * non-blank) line plus that line's index; indices strictly increase; and
   * every line that parses is represented. Lines that do not parse still
   * take up an index.
   */
  function ParseSpendings(text: string): (r: seq<IndexedSpending>)
    ensures var lines := NonBlankLines(text);
      Collected(seq(|lines|, j requires 0 <= j < |lines| => ParseSpending(lines[j])), 0, r)
  {
    var lines := NonBlankLines(text);
    var parsed := seq(|lines|, j requires 0 <= j < |lines| => ParseSpending(lines[j]));
    CollectCollects(parsed, 0);
    Collect(parsed, 0)
  }

  // ---------------------------------------------------------------------
  // Dates: getDateFromTimestamp, getToday, getCurrentMonth
  // ---------------------------------------------------------------------

  /** A proleptic Gregorian calendar date. */
  datatype CivilDate = CivilDate(year: int, month: int, day: int)

  /** Days of the years before year `yoe` of a 400-year era, leap days included. */
  function DaysBeforeYear(yoe: int): int {
    365 * yoe + yoe / 4 - yoe / 100
  }

  /** Days of the months before month `mp` of a March-based year (0 is March). */
  function DaysBeforeMonth(mp: int): int {
    (153 * mp + 2) / 5
  }

  /**
   * Day `doe` of a 400-year era that starts on March 1st, split into the
   * year of the era and the day of that year: four centuries (the last one a
   * day longer), 25 four-year cycles of 1461 days per century (the last one
   * a day shorter), and four years per cycle (the last one a day longer).
   */
  function YearOfEra(doe: int): (r: (int, int))
    requires 0 <= doe < 146097
    ensures 0 <= r.0 < 400 && 0 <= r.1 < 366
    ensures DaysBeforeYear(r.0) + r.1 == doe
  {
    var cc := if doe / 36524 < 3 then doe / 36524 else 3;
    var rem1 := doe - 36524 * cc;
    var q := rem1 / 1461;
    var rem2 := rem1 - 1461 * q;
    var yy := if rem2 / 365 < 3 then rem2 / 365 else 3;
    var yoe := 100 * cc + 4 * q + yy;
    assert yoe / 4 == 25 * cc + q && yoe / 100 == cc;
    (yoe, rem2 - 365 * yy)
  }

  lemma MonthOfYearBounds(doy: int)
    requires 0 <= doy < 366
    ensures 0 <= (5 * doy + 2) / 153 < 12
    ensures 0 <= doy - DaysBeforeMonth((5 * doy + 2) / 153) < 31
  {
  }

  /** The date on day `doy` of year `yoe` of era `era` (years counted from March 1st, 0000). */
  function DateInEra(era: int, yoe: int, doy: int): (c: CivilDate)
    requires 0 <= doy < 366
    ensures 1 <= c.month <= 12 && 1 <= c.day <= 31
  {
    MonthOfYearBounds(doy);
    var mp := (5 * doy + 2) / 153;
    var m := if mp < 10 then mp + 3 else mp - 9;
    CivilDate(yoe + era * 400 + (if m <= 2 then 1 else 0), m, doy - DaysBeforeMonth(mp) + 1)
  }

  /**
   * The calendar date `z` days after 1970-01-01, by the standard era
   * decomposition (400-year eras of 146097 days, years starting in March).
   * Dafny's `/` on integers rounds down for a positive divisor, as the
   * decomposition needs for dates before the epoch.
   */
  function CivilFromDays(z: int): (c: CivilDate)
    ensures 1 <= c.month <= 12 && 1 <= c.day <= 31
  {
    var era := (z + 719468) / 146097;
    var r := YearOfEra(z + 719468 - era * 146097);
    DateInEra(era, r.0, r.1)
  }

  /** The number of days from 1970-01-01 to a calendar date. */
  function DaysFromCivil(c: CivilDate): int
    requires 1 <= c.month <= 12
  {
    var y := c.year - (if c.month <= 2 then 1 else 0);
    var era := y / 400;
    var yoe := y - era * 400;
    var mp := if c.month > 2 then c.month - 3 else c.month + 9;
    era * 146097 + DaysBeforeYear(yoe) + DaysBeforeMonth(mp) + c.day - 1 - 719468
  }

  lemma DaysFromDateInEra(era: int, yoe: int, doy: int)
    requires 0 <= yoe < 400 && 0 <= doy < 366
    ensures DaysFromCivil(DateInEra(era, yoe, doy)) == era * 146097 + DaysBeforeYear(yoe) + doy - 719468
  {
    DivEra(yoe, era);
  }

  /** Every day number names one calendar date, and counting back from it gives the day number again. */
  lemma CivilRoundTrip(z: int)
    ensures DaysFromCivil(CivilFromDays(z)) == z
  {
    var era := (z + 719468) / 146097;
    var r := YearOfEra(z + 719468 - era * 146097);
    DaysFromDateInEra(era, r.0, r.1);
  }

  lemma DivEra(yoe: int, era: int)
    requires 0 <= yoe < 400
    ensures (yoe + era * 400) / 400 == era
  {
  }

  function DigitChar(n: nat): (c: char)
    requires n < 10
    ensures IsDigit(c) && DigitValue(c) == n
  {
    ('0' as int + n) as char
  }

  /** `String(n)` for a non-negative integer: its decimal numeral, without leading zeros. */
  function NatToString(n: nat): (r: string)
    ensures 1 <= |r| && (r[0] != '0' || |r| == 1)
    ensures forall i :: 0 <= i < |r| ==> IsDigit(r[i])
  {
    if n < 10 then [DigitChar(n)] else NatToString(n / 10) + [DigitChar(n % 10)]
  }

  /** `String(n)` for any integer. */
  function IntToString(n: int): string {
    if n < 0 then "-" + NatToString(-n) else NatToString(n)
  }

  /** Only the characters in `s[lo..hi]` matter to a numeral's value. */
  lemma {:induction false} NumeralValueSame(s: string, t: string, lo: nat, hi: nat)
    requires lo <= hi <= |s| && hi <= |t|
    requires forall j :: lo <= j < hi ==> s[j] == t[j] && InClass(s[j], DigitOrComma)
    ensures NumeralValue(s, lo, hi) == NumeralValue(t, lo, hi)
    decreases hi
  {
    if hi > lo {
      NumeralValueSame(s, t, lo, hi - 1);
    }
  }

  /** Reading back the numeral `String(n)` gives `n`. */
  lemma {:induction false} NatToStringValue(n: nat)
    ensures var r := NatToString(n);
      (forall j :: 0 <= j < |r| ==> InClass(r[j], DigitOrComma)) && NumeralValue(r, 0, |r|) == n
  {
    var r := NatToString(n);
    if n >= 10 {
      var p := NatToString(n / 10);
      NatToStringValue(n / 10);
      NumeralValueSame(p, r, 0, |p|);
    }
  }

  /** `String(n).padStart(2, '0')`. */
  function Pad2(s: string): (r: string)
    ensures |s| >= 2 ==> r == s
    ensures |s| < 2 ==> |r| == 2 && r[2 - |s|..] == s && forall i :: 0 <= i < 2 - |s| ==> r[i] == '0'
  {
    if |s| >= 2 then s else seq(2 - |s|, _ => '0') + s
  }

  /** `${year}-${month}-${day}`, month and day padded to two digits. */
  function DateString(c: CivilDate): string {
    IntToString(c.year) + "-" + Pad2(NatToString(if c.month < 0 then 0 else c.month))
    + "-" + Pad2(NatToString(if c.day < 0 then 0 else c.day))
  }

  /**
   * `getDateFromTimestamp`: the calendar date, in a zone `utcOffsetSeconds`
   * ahead of UTC, of the instant `unixSeconds` after the epoch.
   */
  function DateFromTimestamp(unixSeconds: int, utcOffsetSeconds: int): string {
    DateString(CivilFromDays((unixSeconds + utcOffsetSeconds) / 86400))
  }

  /** `getToday`: the date of `Math.floor(Date.now() / 1000)`, `nowMs` being `Date.now()`. */
  function Today(nowMs: int, utcOffsetSeconds: int): string {
    DateFromTimestamp(nowMs / 1000, utcOffsetSeconds)
  }

  /** `s.slice(0, 7)`. */
  function Slice7(s: string): (r: string)
    ensures |r| == if |s| < 7 then |s| else 7
    ensures r == s[..|r|]
  {
    if |s| < 7 then s else s[..7]
  }

  /** `getCurrentMonth`: the first seven characters of today's date. */
  function CurrentMonth(nowMs: int, utcOffsetSeconds: int): string {
    Slice7(Today(nowMs, utcOffsetSeconds))
  }

  /** Reading a numeral depends only on its characters, wherever it sits. */
  lemma {:induction false} NumeralValueShift(s: string, lo: nat, hi: nat, t: string, off: nat)
    requires lo <= hi <= |s| && off + hi <= |t|
    requires forall j :: lo <= j < hi ==> InClass(s[j], DigitOrComma)
    requires forall k :: off + lo <= k < off + hi ==> t[k] == s[k - off]
    ensures NumeralValue(s, lo, hi) == NumeralValue(t, off + lo, off + hi)
    decreases hi
  {
    if hi > lo {
      NumeralValueShift(s, lo, hi - 1, t, off);
    }
  }

  /** A number below 100 prints, padded, as two digits that read back as the number. */
  lemma Pad2Value(n: nat)
    requires n < 100
    ensures var p := Pad2(NatToString(n));
      && |p| == 2 && (forall j :: 0 <= j < 2 ==> IsDigit(p[j]) && InClass(p[j], DigitOrComma))
      && NumeralValue(p, 0, 2) == n
  {
    var str := NatToString(n);
    NatToStringValue(n);
    var p := Pad2(str);
    if n < 10 {
      assert p == ['0', str[0]];
      assert NumeralValue(p, 0, 1) == 0;
    } else {
      assert |NatToString(n / 10)| == 1;
    }
  }

  /** A year from 1000 to 9999 prints as four digits. */
  lemma FourDigits(n: nat)
    requires 1000 <= n < 10000
    ensures |NatToString(n)| == 4
  {
    assert n / 10 / 10 == n / 100 && n / 100 / 10 == n / 1000;
    assert |NatToString(n / 1000)| == 1;
    assert |NatToString(n / 100)| == 2;
    assert |NatToString(n / 10)| == 3;
  }

  /** The date string is the year, the padded month and the padded day, joined by dashes. */
  lemma DateStringPieces(c: CivilDate)
    requires 1000 <= c.year < 10000 && 1 <= c.month <= 12 && 1 <= c.day <= 31
    ensures var r := DateString(c);
      && |r| == 10 && r[4] == '-' && r[7] == '-'
      && r[..4] == NatToString(c.year) && r[5..7] == Pad2(NatToString(c.month)) && r[8..] == Pad2(NatToString(c.day))
  {
    var y, m, d := NatToString(c.year), Pad2(NatToString(c.month)), Pad2(NatToString(c.day));
    FourDigits(c.year);
    Pad2Value(c.month);
    Pad2Value(c.day);
    var r := DateString(c);
    assert r == y + "-" + m + "-" + d;
    assert r[..4] == y;
    assert r[5..7] == m;
    assert r[8..] == d;
  }

  /**
   * `r` reads as `YYYY-MM-DD`: ten characters, dashes at positions 4 and 7,
   * digits elsewhere, and the three numerals read back as `year`, `month`
   * and `day`.
   */
  predicate IsDateText(r: string, year: int, month: int, day: int) {
    && |r| == 10 && r[4] == '-' && r[7] == '-'
    && (forall i :: 0 <= i < 10 && i != 4 && i != 7 ==> IsDigit(r[i]))
    && NumeralValue(r, 0, 4) == year
    && NumeralValue(r, 5, 7) == month
    && NumeralValue(r, 8, 10) == day
  }

  /** Three numerals of four, two and two digits, joined by dashes, read as a date. */
  lemma DateTextOfPieces(r: string, year: nat, month: nat, day: nat)
    requires |r| == 10 && r[4] == '-' && r[7] == '-'
    requires forall j :: 0 <= j < 4 ==> IsDigit(r[..4][j])
    requires forall j :: 0 <= j < 2 ==> IsDigit(r[5..7][j]) && IsDigit(r[8..][j])
    requires NumeralValue(r[..4], 0, 4) == year
    requires NumeralValue(r[5..7], 0, 2) == month
    requires NumeralValue(r[8..], 0, 2) == day
    ensures IsDateText(r, year, month, day)
  {
    var y, mm, dd := r[..4], r[5..7], r[8..];
    forall i | 0 <= i < 10 && i != 4 && i != 7 ensures IsDigit(r[i]) {
      if i < 4 {
        assert r[i] == y[i];
      } else if i < 7 {
        assert r[i] == mm[i - 5];
      } else {
        assert r[i] == dd[i - 8];
      }
    }
    NumeralValueShift(y, 0, 4, r, 0);
    NumeralValueShift(mm, 0, 2, r, 5);
    NumeralValueShift(dd, 0, 2, r, 8);
  }

  /** For a year with four digits, the date string is `YYYY-MM-DD` and reads back as the date. */
  lemma DateStringFormat(c: CivilDate)
    requires 1000 <= c.year < 10000 && 1 <= c.month <= 12 && 1 <= c.day <= 31
    ensures IsDateText(DateString(c), c.year, c.month, c.day)
  {
    var r := DateString(c);
    DateStringPieces(c);
    NatToStringValue(c.year);
    Pad2Value(c.month);
    Pad2Value(c.day);
    DateTextOfPieces(r, c.year, c.month, c.day);
  }

  /** `m` is `YYYY-MM`: seven characters, a dash at position 4, numerals reading as the year and month. */
  predicate IsMonthText(m: string, year: int, month: int) {
    && |m| == 7 && m[4] == '-'
    && (forall i :: 0 <= i < 7 && i != 4 ==> IsDigit(m[i]))
    && NumeralValue(m, 0, 4) == year && NumeralValue(m, 5, 7) == month
  }

  /** The first seven characters of a `YYYY-MM-DD` text are its `YYYY-MM`. */
  lemma MonthOfDateText(r: string, year: int, month: int, day: int)
    requires IsDateText(r, year, month, day)
    ensures var m := Slice7(r);
      && m == r[..7] && IsMonthText(m, year, month)
  {
    var m := Slice7(r);
    NumeralValueShift(r, 0, 4, m, 0);
    NumeralValueShift(r, 5, 7, m, 0);
  }

  /**
   * `getCurrentMonth` of a date with a four-digit year is `YYYY-MM`: the
   * date's first seven characters, reading back as its year and month.
   */
  lemma MonthOfDateString(c: CivilDate)
    requires 1000 <= c.year < 10000 && 1 <= c.month <= 12 && 1 <= c.day <= 31
    ensures var m := Slice7(DateString(c));
      && m == DateString(c)[..7] && IsMonthText(m, c.year, c.month)
  {
    DateStringFormat(c);
    MonthOfDateText(DateString(c), c.year, c.month, c.day);
  }

  /**
   * `getDateFromTimestamp` names the local day the instant falls in: the
   * date whose day number is the count of whole days from the epoch to the
   * shifted instant, and for a four-digit year its `YYYY-MM-DD` text.
   */
  lemma DateFromTimestampDay(unixSeconds: int, utcOffsetSeconds: int)
    ensures var local := unixSeconds + utcOffsetSeconds;
      var c := CivilFromDays(local / 86400);
      && DaysFromCivil(c) * 86400 <= local < DaysFromCivil(c) * 86400 + 86400
      && (1000 <= c.year < 10000 ==> IsDateText(DateFromTimestamp(unixSeconds, utcOffsetSeconds), c.year, c.month, c.day))
  {
    var c := CivilFromDays((unixSeconds + utcOffsetSeconds) / 86400);
    CivilRoundTrip((unixSeconds + utcOffsetSeconds) / 86400);
    if 1000 <= c.year < 10000 {
      DateStringFormat(c);
    }
  }

  /**
   * `getToday` is the local date of the current whole second: the day
   * holding the instant `nowMs` milliseconds after the epoch.
   */
  lemma TodayDay(nowMs: int, utcOffsetSeconds: int)
    ensures var c := CivilFromDays((nowMs / 1000 + utcOffsetSeconds) / 86400);
      var dayStartMs := (DaysFromCivil(c) * 86400 - utcOffsetSeconds) * 1000;
      && dayStartMs <= nowMs < dayStartMs + 86400000
      && (1000 <= c.year < 10000 ==> IsDateText(Today(nowMs, utcOffsetSeconds), c.year, c.month, c.day))
  {
    var c := CivilFromDays((nowMs / 1000 + utcOffsetSeconds) / 86400);
    DateFromTimestampDay(nowMs / 1000, utcOffsetSeconds);
    WithinDayMs(nowMs, utcOffsetSeconds, DaysFromCivil(c));
  }

  /** A day that holds the whole second of an instant holds the instant itself. */
  lemma WithinDayMs(nowMs: int, utcOffsetSeconds: int, day: int)
    requires day * 86400 <= nowMs / 1000 + utcOffsetSeconds < day * 86400 + 86400
    ensures (day * 86400 - utcOffsetSeconds) * 1000 <= nowMs < (day * 86400 - utcOffsetSeconds) * 1000 + 86400000
  {
  }

  /** `getCurrentMonth` in a year with four digits is today's `YYYY-MM`. */
  lemma CurrentMonthOfToday(nowMs: int, utcOffsetSeconds: int)
    ensures var c := CivilFromDays((nowMs / 1000 + utcOffsetSeconds) / 86400);
      1000 <= c.year < 10000 ==> IsMonthText(CurrentMonth(nowMs, utcOffsetSeconds), c.year, c.month)
  {
    var c := CivilFromDays((nowMs / 1000 + utcOffsetSeconds) / 86400);
    if 1000 <= c.year < 10000 {
      TodayDay(nowMs, utcOffsetSeconds);
      MonthOfDateText(Today(nowMs, utcOffsetSeconds), c.year, c.month, c.day);
    }
  }
}

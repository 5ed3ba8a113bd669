/**
 * The exchange-rate service of src/currency.js: a time-limited cache of
 * rates to the home currency (Armenian dram), filled from a primary rate
 * source and, only when that one fails, a fallback source.
 *
 * The network is replaced by the two responses the sources would give
 * (`primary`, `fallback`); the method reports which of them it consulted.
 * The clock is replaced by two readings: `now` for the freshness check and
 * `storeNow` for the timestamp written after a fetch.
 */
module Currency {
  import opened Common
  import opened Text
  import Helpers

  const HomeCurrency: string := "amd"

  /** One hour, in milliseconds. */
  const CacheTtlMs: int := 60 * 60 * 1000

  datatype CacheEntry = CacheEntry(rate: real, timestamp: int)

  /**
   * What a rate source answers: `Failed` for a non-OK status, a network
   * error or an unreadable body; otherwise the value found at
   * `data[currency][home]`, absent when the document has none.
   */
  datatype Response = Failed | Ok(rate: Option<real>)

  datatype Source = Primary | Fallback

  /** The rate a response carries, when it is truthy (present and not zero). */
  function TruthyRate(r: Response): (x: Option<real>)
    ensures x.Some? <==> r.Ok? && r.rate.Some? && r.rate.value != 0.0
    ensures x.Some? ==> x.value == r.rate.value
  {
    if r.Ok? && r.rate.Some? && r.rate.value != 0.0 then r.rate else None
  }

  /**
   * What the cache may hold: lower-case keys, never the home currency, never
   * a falsy rate.
   */
  predicate CacheOk(entries: map<string, CacheEntry>) {
    forall k :: k in entries ==> k != HomeCurrency && ToLower(k) == k && entries[k].rate != 0.0
  }

  predicate Fresh(e: CacheEntry, now: int) {
    now - e.timestamp < CacheTtlMs
  }

  /** The rate returned, the cache afterwards, and the sources consulted, in order. */
  datatype Lookup = Lookup(rate: Option<real>, entries: map<string, CacheEntry>, fetched: seq<Source>)

  lemma LowerIdempotent(s: string)
    ensures ToLower(ToLower(s)) == ToLower(s)
  {
  }

  /**
   * `getExchangeRate`. The home currency (in any letter case) has rate 1
   * and touches neither the cache nor the network; a fresh cached rate is
   * returned as is; otherwise the primary source is asked, and the fallback
   * only when the primary failed outright (a primary answer without a rate
   * gives no rate and no fallback). Only a truthy fetched rate is written,
   * stamped with `storeNow`, under the lower-cased code.
   */
  function ExchangeRate(entries: map<string, CacheEntry>, fromCurrency: string, now: int, storeNow: int,
                        primary: Response, fallback: Response): (r: Lookup)
    ensures CacheOk(entries) ==> CacheOk(r.entries)
    ensures CacheOk(entries) && r.rate.Some? ==> r.rate.value != 0.0
    ensures r.fetched == [] || r.fetched == [Primary] || r.fetched == [Primary, Fallback]
    ensures Fallback in r.fetched ==> primary.Failed?
    ensures r.entries == entries
            || (r.rate.Some? && r.fetched != [] && r.entries == entries[ToLower(fromCurrency) := CacheEntry(r.rate.value, storeNow)])
    ensures ToLower(fromCurrency) == HomeCurrency ==> r == Lookup(Some(1.0), entries, [])
    ensures ToLower(fromCurrency) != HomeCurrency ==>
              (r.fetched == [] <==> ToLower(fromCurrency) in entries && Fresh(entries[ToLower(fromCurrency)], now))
    ensures var cur := ToLower(fromCurrency);
            cur != HomeCurrency && cur in entries && Fresh(entries[cur], now) ==>
              r == Lookup(Some(entries[cur].rate), entries, [])
    ensures var cur := ToLower(fromCurrency);
            cur != HomeCurrency && !(cur in entries && Fresh(entries[cur], now)) ==>
              var answer := if primary.Failed? then fallback else primary;
              && r.fetched == (if primary.Failed? then [Primary, Fallback] else [Primary])
              && r.rate == TruthyRate(answer)
              && r.entries == (if r.rate.Some? then entries[cur := CacheEntry(r.rate.value, storeNow)] else entries)
  {
    var cur := ToLower(fromCurrency);
    LowerIdempotent(fromCurrency);
    if cur == HomeCurrency then Lookup(Some(1.0), entries, [])
    else if cur in entries && Fresh(entries[cur], now) then Lookup(Some(entries[cur].rate), entries, [])
    else if primary.Ok? then
      match TruthyRate(primary)
      case Some(x) => Lookup(Some(x), entries[cur := CacheEntry(x, storeNow)], [Primary])
      case None => Lookup(None, entries, [Primary])
    else
      match TruthyRate(fallback)
      case Some(x) => Lookup(Some(x), entries[cur := CacheEntry(x, storeNow)], [Primary, Fallback])
      case None => Lookup(None, entries, [Primary, Fallback])
  }

  /** `Math.round`: the integer nearest to `x`, halves rounded up. */
  function Round(x: real): (n: int)
    ensures x - 0.5 < n as real <= x + 0.5
  {
    (x + 0.5).Floor
  }

  /** The `{ amountAMD, rate, success }` record of `convertToAMD`. */
  datatype Conversion = Conversion(amountAmd: real, rate: Option<real>, success: bool)

  /** `convertToAMD` once the rate is known: `null` keeps the amount and reports failure. */
  function Converted(amount: real, rate: Option<real>): (c: Conversion)
    ensures c.rate == rate && (c.success <==> rate.Some?)
    ensures rate.None? ==> c.amountAmd == amount
    ensures rate.Some? ==> c.amountAmd == c.amountAmd.Floor as real
                           && amount * rate.value - 0.5 < c.amountAmd <= amount * rate.value + 0.5
  {
    match rate
    case None => Conversion(amount, None, false)
    case Some(x) => Conversion(Round(amount * x) as real, rate, true)
  }

  /** `isSupportedCurrency`: `/^[a-zA-Z]{3}$/`. */
  function IsSupportedCurrency(s: string): (b: bool)
    ensures b <==> |s| == 3 && forall i :: 0 <= i < 3 ==> IsAsciiLetter(s[i])
  {
    |s| == 3 && Span(s, 0, Letter) == 3
  }

  /** Every currency the line parser produces has the supported shape. */
  lemma ParsedCurrencySupported(line: string)
    requires Helpers.ParseSpending(line).Some?
    ensures IsSupportedCurrency(Helpers.ParseSpending(line).value.currency)
  {
    var c := Helpers.ParseSpending(line).value.currency;
    assert forall i :: 0 <= i < 3 ==> IsAsciiUpper(c[i]);
  }

  /** The module-level `rateCache` map and the functions that use it. */
  class RateCache {
    var entries: map<string, CacheEntry>

    predicate Valid()
      reads this
    {
      CacheOk(entries)
    }

    constructor ()
      ensures Valid() && entries == map[]
    {
      entries := map[];
    }

    /** `getExchangeRate`, updating the cache as `ExchangeRate` describes. */
    method GetExchangeRate(fromCurrency: string, now: int, storeNow: int, primary: Response, fallback: Response)
      returns (rate: Option<real>, fetched: seq<Source>)
      requires Valid()
      modifies this
      ensures Valid()
      ensures Lookup(rate, entries, fetched) == ExchangeRate(old(entries), fromCurrency, now, storeNow, primary, fallback)
    {
      var cur := ToLower(fromCurrency);
      if cur == HomeCurrency {
        return Some(1.0), [];
      }
      if cur in entries && now - entries[cur].timestamp < CacheTtlMs {
        return Some(entries[cur].rate), [];
      }
      fetched := [Primary];
      if primary.Ok? {
        rate := TruthyRate(primary);
        if rate.None? {
          return;
        }
        entries := entries[cur := CacheEntry(rate.value, storeNow)];
        return;
      }
      fetched := fetched + [Fallback];
      rate := TruthyRate(fallback);
      if rate.Some? {
        entries := entries[cur := CacheEntry(rate.value, storeNow)];
      }
    }

    /**
     * `convertToAMD`: the home currency converts to itself at rate 1 without
     * rounding; any other currency is converted at the rate
     * `getExchangeRate` finds, if any.
     */
    method ConvertToAmd(amount: real, currency: string, now: int, storeNow: int, primary: Response, fallback: Response)
      returns (c: Conversion, fetched: seq<Source>)
      requires Valid()
      modifies this
      ensures Valid()
      ensures ToLower(currency) == HomeCurrency ==>
                c == Conversion(amount, Some(1.0), true) && fetched == [] && entries == old(entries)
      ensures ToLower(currency) != HomeCurrency ==>
                var r := ExchangeRate(old(entries), currency, now, storeNow, primary, fallback);
                c == Converted(amount, r.rate) && fetched == r.fetched && entries == r.entries
    {
      var lower := ToLower(currency);
      if lower == HomeCurrency {
        return Conversion(amount, Some(1.0), true), [];
      }
      LowerIdempotent(currency);
      var rate;
      rate, fetched := GetExchangeRate(lower, now, storeNow, primary, fallback);
      c := Converted(amount, rate);
    }
  }
}

/**
 * The entry-store ledger of src/spending.js. The spendings collection is a
 * sequence of entries in insertion order; `findOne`, `updateOne` and
 * `deleteOne` act on the first entry a query matches, `deleteMany` keeps
 * the entries it does not match. The reports (`getDailyData`,
 * `getDailyCsv`, `getMonthlySummary`) are folds over the matching entries
 * followed by the stable sort of Aggregate.
 */
module Spending {
  import opened Common
  import opened Aggregate
  import Text
  import Helpers

  /** The home currency, as the line parser writes it. */
  const Amd: string := "AMD"

  /** The original-currency fields, which an entry has all together or not at all. */
  datatype Foreign = Foreign(originalAmount: real, originalCurrency: string, exchangeRate: real)

  /** One stored spending, amount in drams. */
  datatype Entry = Entry(date: string, category: string, amount: real,
                         messageId: Option<MessageId>, lineIndex: Option<nat>,
                         foreign: Option<Foreign>)

  /** The `currencyInfo` argument: the amount as typed, its currency, and the rate used. */
  datatype CurrencyInfo = CurrencyInfo(originalAmount: real, originalCurrency: string, rate: real)

  /** The foreign fields written for `currencyInfo`: only for a currency other than the home one. */
  function ForeignOf(info: Option<CurrencyInfo>): (f: Option<Foreign>)
    ensures f.Some? <==> info.Some? && info.value.originalCurrency != Amd
    ensures f.Some? ==> f.value.originalAmount == info.value.originalAmount
                        && f.value.originalCurrency == info.value.originalCurrency
                        && f.value.exchangeRate == info.value.rate
  {
    if info.Some? && info.value.originalCurrency != Amd then
      Some(Foreign(info.value.originalAmount, info.value.originalCurrency, info.value.rate))
    else None
  }

  /**
   * The date of a new entry: a non-empty custom date, else the calendar
   * date of a non-zero message timestamp, else today.
   */
  function EntryDate(customDate: Option<string>, messageDate: Option<int>, today: string, utcOffsetSeconds: int): (d: string)
    ensures customDate.Some? && customDate.value != "" ==> d == customDate.value
    ensures (customDate.None? || customDate.value == "") && messageDate.Some? && messageDate.value != 0 ==>
              d == Helpers.DateFromTimestamp(messageDate.value, utcOffsetSeconds)
    ensures (customDate.None? || customDate.value == "") && (messageDate.None? || messageDate.value == 0) ==> d == today
  {
    if customDate.Some? && customDate.value != "" then customDate.value
    else if messageDate.Some? && messageDate.value != 0 then Helpers.DateFromTimestamp(messageDate.value, utcOffsetSeconds)
    else today
  }

  /** The query `{ messageId, lineIndex }`, or `{ messageId }` when `lineIndex` is null. */
  predicate Matches(e: Entry, id: MessageId, lineIndex: Option<nat>) {
    e.messageId == Some(id) && (lineIndex.None? || e.lineIndex == lineIndex)
  }

  /** `findOne`: the position of the first entry the query matches, or -1 when none does. */
  function FindFirst(entries: seq<Entry>, id: MessageId, lineIndex: Option<nat>): (i: int)
    ensures -1 <= i < |entries|
    ensures i >= 0 ==> Matches(entries[i], id, lineIndex)
    ensures forall j :: 0 <= j < |entries| && (i < 0 || j < i) ==> !Matches(entries[j], id, lineIndex)
  {
    if entries == [] then -1
    else if Matches(entries[0], id, lineIndex) then 0
    else
      var j := FindFirst(entries[1..], id, lineIndex);
      if j < 0 then -1 else j + 1
  }

  /** The duplicate guard of `add`: a truthy message id whose query matches a stored entry. */
  predicate IsDuplicate(entries: seq<Entry>, messageId: Option<MessageId>, lineIndex: Option<nat>) {
    messageId.Some? && exists e :: e in entries && Matches(e, messageId.value, lineIndex)
  }

  /** Two entries for the same line of the same message. */
  predicate SameLine(a: Entry, b: Entry) {
    a.messageId.Some? && a.messageId == b.messageId && a.lineIndex == b.lineIndex
  }

  /** The invariant `add` keeps: no line of a message is stored twice. */
  predicate UniqueLines(entries: seq<Entry>) {
    forall i, j :: 0 <= i < j < |entries| ==> !SameLine(entries[i], entries[j])
  }

  /** The entries `keep` accepts, in their order (`deleteMany` of the others, or `find`). */
  function Filter(entries: seq<Entry>, keep: Entry -> bool): (r: seq<Entry>)
    ensures |r| <= |entries|
    ensures forall e :: e in r <==> e in entries && keep(e)
    ensures |r| == 0 <==> forall e :: e in entries ==> !keep(e)
  {
    if entries == [] then []
    else (if keep(entries[0]) then [entries[0]] else []) + Filter(entries[1..], keep)
  }

  /** Filtering a concatenation filters each part: the kept entries stay in their order. */
  lemma {:induction false} FilterAppend(a: seq<Entry>, b: seq<Entry>, keep: Entry -> bool)
    ensures Filter(a + b, keep) == Filter(a, keep) + Filter(b, keep)
  {
    if a != [] {
      assert (a + b)[0] == a[0] && (a + b)[1..] == a[1..] + b;
      FilterAppend(a[1..], b, keep);
    } else {
      assert a + b == b;
    }
  }

  /** Every kept entry occurs as often as in the input; the others not at all. */
  lemma {:induction false} FilterMultiplicity(entries: seq<Entry>, keep: Entry -> bool)
    ensures forall e :: multiset(Filter(entries, keep))[e] == if keep(e) then multiset(entries)[e] else 0
  {
    if entries != [] {
      FilterMultiplicity(entries[1..], keep);
      assert entries == [entries[0]] + entries[1..];
    }
  }

  /** The message id of each entry, in order. */
  function MessageIds(entries: seq<Entry>): (r: seq<Option<MessageId>>)
    ensures |r| == |entries|
    ensures forall i :: 0 <= i < |r| ==> r[i] == entries[i].messageId
  {
    if entries == [] then [] else [entries[0].messageId] + MessageIds(entries[1..])
  }

  /** Removing a message's entries drops exactly as many entries as carry its id. */
  lemma {:induction false} FilterDropsCount(entries: seq<Entry>, messageId: MessageId)
    ensures |entries| - |Filter(entries, (e: Entry) => e.messageId != Some(messageId))|
            == Count(MessageIds(entries), Some(messageId))
  {
    if entries != [] {
      FilterDropsCount(entries[1..], messageId);
      assert MessageIds(entries)[1..] == MessageIds(entries[1..]);
    }
  }

  lemma UniqueTail(entries: seq<Entry>)
    requires entries != [] && UniqueLines(entries)
    ensures UniqueLines(entries[1..])
    ensures forall e :: e in entries[1..] ==> !SameLine(entries[0], e)
  {
    var t := entries[1..];
    assert forall i :: 0 <= i < |t| ==> t[i] == entries[i + 1];
  }

  lemma UniqueCons(x: Entry, s: seq<Entry>)
    requires UniqueLines(s) && forall e :: e in s ==> !SameLine(x, e)
    ensures UniqueLines([x] + s)
  {
    var r := [x] + s;
    forall i, j | 0 <= i < j < |r| ensures !SameLine(r[i], r[j]) {
      assert r[j] == s[j - 1];
      if i > 0 {
        assert r[i] == s[i - 1];
      }
    }
  }

  /** Dropping entries never puts two copies of a line together. */
  lemma {:induction false} FilterUnique(entries: seq<Entry>, keep: Entry -> bool)
    requires UniqueLines(entries)
    ensures UniqueLines(Filter(entries, keep))
  {
    if entries != [] {
      var t := entries[1..];
      UniqueTail(entries);
      FilterUnique(t, keep);
      if keep(entries[0]) {
        UniqueCons(entries[0], Filter(t, keep));
      }
    }
  }

  /** The entry after `updateSpending`: new category, amount and foreign fields; same date, id and line. */
  function Revised(e: Entry, newCategory: string, newAmount: real, info: Option<CurrencyInfo>): Entry {
    e.(category := newCategory, amount := newAmount, foreign := ForeignOf(info))
  }

  /** The ids of the messages behind the entries of `date`, in order, repetitions kept. */
  function IdsOn(entries: seq<Entry>, date: string): (ids: seq<MessageId>)
    ensures forall id :: id in ids <==> exists e :: e in entries && e.date == date && e.messageId == Some(id)
  {
    if entries == [] then []
    else
      var e := entries[0];
      assert forall x :: x in entries <==> x == e || x in entries[1..];
      (if e.date == date && e.messageId.Some? then [e.messageId.value] else []) + IdsOn(entries[1..], date)
  }

  /** `[...new Set(ids)]`: each id once, at its first occurrence. */
  function Dedup(ids: seq<MessageId>): (r: seq<MessageId>)
    ensures Distinct(r)
    ensures forall id :: id in r <==> id in ids
  {
    if ids == [] then []
    else
      var init, last := ids[..|ids| - 1], ids[|ids| - 1];
      assert ids == init + [last];
      var d := Dedup(init);
      if last in init then d else d + [last]
  }

  /** The distinct message ids among the entries of `date`. */
  function MessagesOn(entries: seq<Entry>, date: string): set<MessageId> {
    set e | e in entries && e.date == date && e.messageId.Some? :: e.messageId.value
  }

  /** The deletions `resetDay` requests are exactly the distinct messages of the day, one each. */
  lemma ResetDayRequests(entries: seq<Entry>, date: string)
    ensures var r := Dedup(IdsOn(entries, date));
              Distinct(r) && (set id | id in r) == MessagesOn(entries, date) && |r| == |MessagesOn(entries, date)|
  {
    var r := Dedup(IdsOn(entries, date));
    var ids := set id: MessageId | id in r;
    assert ids == MessagesOn(entries, date) by {
      forall id | id in MessagesOn(entries, date) ensures id in ids {
        var e :| e in entries && e.date == date && e.messageId.Some? && e.messageId.value == id;
        assert id in IdsOn(entries, date);
      }
    }
    DistinctCardinality(r);
    assert |ids| == |r|;
  }

  /** The spendings collection. */
  class Store {
    var entries: seq<Entry>

    predicate Valid()
      reads this
    {
      UniqueLines(entries)
    }

    constructor ()
      ensures Valid() && entries == []
    {
      entries := [];
    }

    /**
     * `add`: nothing happens when a truthy message id already has an entry
     * for this line (or any entry, when `lineIndex` is null); otherwise one
     * entry is appended. `today` and `utcOffsetSeconds` stand for the clock
     * and the host's time zone.
     */
    method Add(category: string, amount: real, messageId: Option<MessageId>, messageDate: Option<int>,
               currencyInfo: Option<CurrencyInfo>, customDate: Option<string>, lineIndex: Option<nat>,
               today: string, utcOffsetSeconds: int)
      requires Valid()
      modifies this
      ensures Valid()
      ensures IsDuplicate(old(entries), messageId, lineIndex) ==> entries == old(entries)
      ensures !IsDuplicate(old(entries), messageId, lineIndex) ==>
                entries == old(entries) + [Entry(EntryDate(customDate, messageDate, today, utcOffsetSeconds),
                                                 category, amount, messageId, lineIndex, ForeignOf(currencyInfo))]
    {
      var date := EntryDate(customDate, messageDate, today, utcOffsetSeconds);
      if messageId.Some? {
        var existing := FindFirst(entries, messageId.value, lineIndex);
        if existing >= 0 {
          return;
        }
      }
      var entry := Entry(date, category, amount, messageId, lineIndex, ForeignOf(currencyInfo));
      assert forall i :: 0 <= i < |entries| ==> !SameLine(entries[i], entry);
      entries := entries + [entry];
    }

    /**
     * `updateSpending`: rewrites the first entry of the message, keeping its
     * date, id and line; false, and no change, when the message has none.
     */
    method UpdateSpending(messageId: MessageId, newCategory: string, newAmount: real, currencyInfo: Option<CurrencyInfo>)
      returns (updated: bool)
      requires Valid()
      modifies this
      ensures Valid()
      ensures var i := FindFirst(old(entries), messageId, None);
                && (updated <==> i >= 0)
                && (i < 0 ==> entries == old(entries))
                && (i >= 0 ==> entries == old(entries)[i := Revised(old(entries)[i], newCategory, newAmount, currencyInfo)])
    {
      var i := FindFirst(entries, messageId, None);
      if i < 0 {
        return false;
      }
      entries := entries[i := Revised(entries[i], newCategory, newAmount, currencyInfo)];
      return true;
    }

    /** `removeSpending`: deletes the first entry of the message, reporting whether there was one. */
    method RemoveSpending(messageId: MessageId) returns (removed: bool)
      requires Valid()
      modifies this
      ensures Valid()
      ensures var i := FindFirst(old(entries), messageId, None);
                && (removed <==> i >= 0)
                && (i < 0 ==> entries == old(entries))
                && (i >= 0 ==> entries == old(entries)[..i] + old(entries)[i + 1..])
      ensures |entries| == |old(entries)| - (if removed then 1 else 0)
    {
      var i := FindFirst(entries, messageId, None);
      if i < 0 {
        return false;
      }
      var rest := entries[..i] + entries[i + 1..];
      forall a, b | 0 <= a < b < |rest| ensures !SameLine(rest[a], rest[b]) {
        var a', b' := if a < i then a else a + 1, if b < i then b else b + 1;
        assert rest[a] == entries[a'] && rest[b] == entries[b'];
      }
      entries := rest;
      return true;
    }

    /** `removeAllByMessageId`: deletes every entry of the message and returns how many there were. */
    method RemoveAllByMessageId(messageId: MessageId) returns (count: nat)
      requires Valid()
      modifies this
      ensures Valid()
      ensures entries == Filter(old(entries), (e: Entry) => e.messageId != Some(messageId))
      ensures count == |old(entries)| - |entries| == Count(MessageIds(old(entries)), Some(messageId))
    {
      var kept := Filter(entries, (e: Entry) => e.messageId != Some(messageId));
      FilterUnique(entries, (e: Entry) => e.messageId != Some(messageId));
      FilterDropsCount(entries, messageId);
      count := |entries| - |kept|;
      entries := kept;
    }

    /**
     * `resetDay`: asks the chat platform to delete each distinct message
     * behind today's entries (`requested`, in order; a refused deletion does
     * not stop the reset), then deletes every entry dated today, and returns
     * the number of those messages.
     */
    method ResetDay(today: string) returns (count: nat, requested: seq<MessageId>)
      requires Valid()
      modifies this
      ensures Valid()
      ensures requested == Dedup(IdsOn(old(entries), today))
      ensures count == |requested| == |MessagesOn(old(entries), today)|
      ensures entries == Filter(old(entries), (e: Entry) => e.date != today)
    {
      var unique := Dedup(IdsOn(entries, today));
      requested := unique;
      ResetDayRequests(entries, today);
      FilterUnique(entries, (e: Entry) => e.date != today);
      entries := Filter(entries, (e: Entry) => e.date != today);
      count := |unique|;
    }
  }

  /** An entry whose original currency is set and is not the home currency. */
  predicate HasOriginal(e: Entry) {
    e.foreign.Some? && e.foreign.value.originalCurrency != "" && e.foreign.value.originalCurrency != Amd
  }

  /** Each entry as a (category, amount) item. */
  function Amounts(es: seq<Entry>): (r: seq<Bucket>)
    ensures |r| == |es|
    ensures Keys(r) == set e | e in es :: e.category
  {
    var r := seq(|es|, i requires 0 <= i < |es| => Bucket(es[i].category, es[i].amount));
    assert forall e | e in es :: e.category in Keys(r) by {
      forall e | e in es ensures e.category in Keys(r) {
        var i :| 0 <= i < |es| && es[i] == e;
        assert r[i].key == e.category;
      }
    }
    r
  }

  /** The original amounts of the entries that have one, as (currency, amount) items. */
  function Originals(es: seq<Entry>): seq<Bucket> {
    if es == [] then []
    else
      (if HasOriginal(es[0]) then [Bucket(es[0].foreign.value.originalCurrency, es[0].foreign.value.originalAmount)] else [])
      + Originals(es[1..])
  }

  /** The currencies of the original amounts are those of the entries that have one. */
  lemma {:induction false} OriginalsKeys(es: seq<Entry>)
    ensures Keys(Originals(es)) == set e | e in es && HasOriginal(e) :: e.foreign.value.originalCurrency
  {
    if es != [] {
      var e := es[0];
      var rest := Originals(es[1..]);
      OriginalsKeys(es[1..]);
      assert forall x :: x in es <==> x == e || x in es[1..];
      if HasOriginal(e) {
        var b := Bucket(e.foreign.value.originalCurrency, e.foreign.value.originalAmount);
        assert Originals(es) == [b] + rest;
        Cons(b, rest);
      } else {
        assert Originals(es) == rest;
      }
    }
  }

  /** A report line: a category, its total in drams, and its totals per original currency. */
  datatype CategoryRow = CategoryRow(category: string, amount: real, originals: seq<Bucket>)

  /** The (category, total) pairs of the rows. */
  function RowTotals(rows: seq<CategoryRow>): seq<Bucket> {
    seq(|rows|, i requires 0 <= i < |rows| => Bucket(rows[i].category, rows[i].amount))
  }

  predicate InCategory(e: Entry, category: string) {
    e.category == category
  }

  function OfCategory(es: seq<Entry>, category: string): seq<Entry> {
    Filter(es, (e: Entry) => InCategory(e, category))
  }

  /**
   * The category lines of a report: categories by descending total, each
   * with the per-currency sums of its entries' original amounts.
   */
  function CategoryRows(es: seq<Entry>): (rows: seq<CategoryRow>)
    ensures RowTotals(rows) == SortDesc(Tally(Amounts(es)))
    ensures forall i :: 0 <= i < |rows| ==> rows[i].originals == Tally(Originals(OfCategory(es, rows[i].category)))
  {
    RowsFor(SortDesc(Tally(Amounts(es))), es)
  }

  /** One row per (category, total) item, in the same order, with the category's original totals. */
  function RowsFor(sorted: seq<Bucket>, es: seq<Entry>): (rows: seq<CategoryRow>)
    ensures RowTotals(rows) == sorted
    ensures forall i :: 0 <= i < |rows| ==> rows[i].originals == Tally(Originals(OfCategory(es, rows[i].category)))
  {
    var rows := seq(|sorted|, i requires 0 <= i < |sorted| =>
                      CategoryRow(sorted[i].key, sorted[i].total, Tally(Originals(OfCategory(es, sorted[i].key)))));
    assert forall i :: 0 <= i < |sorted| ==> RowTotals(rows)[i] == sorted[i];
    rows
  }

  /**
   * One row per distinct category, by non-increasing total, each carrying
   * the sum of that category's amounts and, per currency, the sum of its
   * original amounts.
   */
  lemma CategoryRowsSpec(es: seq<Entry>)
    ensures var rows := CategoryRows(es);
              && SortedDesc(RowTotals(rows))
              && DistinctKeys(RowTotals(rows))
              && Keys(RowTotals(rows)) == (set e | e in es :: e.category)
              && Sum(RowTotals(rows)) == Sum(Amounts(es))
              && (forall i :: 0 <= i < |rows| ==> rows[i].amount == SumFor(Amounts(es), rows[i].category))
  {
    RowsOfTally(CategoryRows(es), Amounts(es));
    RowAmountsOfTally(CategoryRows(es), Amounts(es));
  }

  /** Rows whose (category, total) pairs are the sorted tally of `items`: order, keys and sum. */
  lemma RowsOfTally(rows: seq<CategoryRow>, items: seq<Bucket>)
    requires RowTotals(rows) == SortDesc(Tally(items))
    ensures SortedDesc(RowTotals(rows)) && DistinctKeys(RowTotals(rows))
    ensures Keys(RowTotals(rows)) == Keys(items) && Sum(RowTotals(rows)) == Sum(items)
  {
    SortedTally(items);
  }

  /** Rows whose (category, total) pairs are the sorted tally of `items`: each row's amount. */
  lemma RowAmountsOfTally(rows: seq<CategoryRow>, items: seq<Bucket>)
    requires RowTotals(rows) == SortDesc(Tally(items))
    ensures forall i :: 0 <= i < |rows| ==> rows[i].amount == SumFor(items, rows[i].category)
  {
    var sorted := RowTotals(rows);
    SortedTally(items);
    forall i | 0 <= i < |rows| ensures rows[i].amount == SumFor(items, rows[i].category) {
      assert sorted[i] == Bucket(rows[i].category, rows[i].amount);
    }
  }


  /**
   * The original totals of a category row: one per currency among its
   * entries with a foreign original currency, carrying the sum of their
   * original amounts.
   */
  lemma CategoryOriginals(es: seq<Entry>, category: string)
    ensures var originals := Tally(Originals(OfCategory(es, category)));
              && DistinctKeys(originals)
              && Keys(originals)
                   == (set e | e in es && InCategory(e, category) && HasOriginal(e) :: e.foreign.value.originalCurrency)
              && forall c :: TotalOf(originals, c) == SumFor(Originals(OfCategory(es, category)), c)
  {
    var ofc := OfCategory(es, category);
    OriginalsKeys(ofc);
    var inRow := set e | e in ofc && HasOriginal(e) :: e.foreign.value.originalCurrency;
    var inCategory := set e | e in es && InCategory(e, category) && HasOriginal(e) :: e.foreign.value.originalCurrency;
    forall x | x in inCategory ensures x in inRow {
      var e :| e in es && InCategory(e, category) && HasOriginal(e) && e.foreign.value.originalCurrency == x;
      assert e in ofc;
    }
    assert inRow == inCategory;
  }

  /** The `{ entries, total, date, totalOriginalsInfo }` record of `getDailyData`. */
  datatype DailyData = DailyData(rows: seq<CategoryRow>, total: real, date: string, totalOriginals: seq<Bucket>)

  /** `targetDate || getToday()`. */
  function ReportDate(targetDate: Option<string>, today: string): string {
    if targetDate.Some? && targetDate.value != "" then targetDate.value else today
  }

  function Dated(entries: seq<Entry>, date: string): seq<Entry> {
    Filter(entries, (e: Entry) => e.date == date)
  }

  /** The date of `e` starts with `month` (the query `{ date: { $regex: '^' + month } }`). */
  predicate InMonthOf(e: Entry, month: string) {
    month <= e.date
  }

  function InMonth(entries: seq<Entry>, month: string): seq<Entry> {
    Filter(entries, (e: Entry) => InMonthOf(e, month))
  }

  /** `getDailyData`: the day's report, None exactly when no entry has the date. */
  function GetDailyData(entries: seq<Entry>, targetDate: Option<string>, today: string): (r: Option<DailyData>)
    ensures r.None? <==> forall e :: e in entries ==> e.date != ReportDate(targetDate, today)
  {
    var date := ReportDate(targetDate, today);
    var day := Dated(entries, date);
    if |day| == 0 then None
    else
      var rows := CategoryRows(day);
      Some(DailyData(rows, Sum(RowTotals(rows)), date, Tally(Originals(day))))
  }

  /**
   * The rows of a daily report are the day's categories, each once, by
   * non-increasing total, each with the sum of its amounts; the total is
   * the sum of all the day's amounts.
   */
  lemma DailyRows(entries: seq<Entry>, targetDate: Option<string>, today: string)
    requires GetDailyData(entries, targetDate, today).Some?
    ensures var date := ReportDate(targetDate, today);
            var d := GetDailyData(entries, targetDate, today).value;
            var day := Dated(entries, date);
              && d.date == date
              && SortedDesc(RowTotals(d.rows))
              && DistinctKeys(RowTotals(d.rows))
              && Keys(RowTotals(d.rows)) == (set e | e in entries && e.date == date :: e.category)
              && (forall i :: 0 <= i < |d.rows| ==> d.rows[i].amount == SumFor(Amounts(day), d.rows[i].category))
              && d.total == Sum(Amounts(day))
  {
    var date := ReportDate(targetDate, today);
    var day := Dated(entries, date);
    CategoryRowsSpec(day);
    DayCategories(entries, date);
  }

  /** The categories of a day's entries. */
  lemma DayCategories(entries: seq<Entry>, date: string)
    ensures (set e | e in Dated(entries, date) :: e.category) == set e | e in entries && e.date == date :: e.category
  {
    var day := Dated(entries, date);
    var inDay := set e | e in day :: e.category;
    var onDate := set e | e in entries && e.date == date :: e.category;
    forall x | x in onDate ensures x in inDay {
      var e :| e in entries && e.date == date && e.category == x;
      assert e in day;
    }
  }

  /**
   * The original totals of a daily report: one per currency, covering
   * exactly the day's entries with a foreign original currency.
   */
  lemma DailyOriginals(entries: seq<Entry>, targetDate: Option<string>, today: string)
    requires GetDailyData(entries, targetDate, today).Some?
    ensures var date := ReportDate(targetDate, today);
            var d := GetDailyData(entries, targetDate, today).value;
            var day := Dated(entries, date);
              && DistinctKeys(d.totalOriginals)
              && Keys(d.totalOriginals)
                   == (set e | e in entries && e.date == date && HasOriginal(e) :: e.foreign.value.originalCurrency)
              && (forall c :: TotalOf(d.totalOriginals, c) == SumFor(Originals(day), c))
  {
    var date := ReportDate(targetDate, today);
    assert GetDailyData(entries, targetDate, today).value.totalOriginals == Tally(Originals(Dated(entries, date)));
    DayOriginalsKeys(entries, date);
  }

  /** The currencies of a day's original amounts are those of its entries that have one. */
  lemma DayOriginalsKeys(entries: seq<Entry>, date: string)
    ensures Keys(Originals(Dated(entries, date)))
              == set e | e in entries && e.date == date && HasOriginal(e) :: e.foreign.value.originalCurrency
  {
    var day := Dated(entries, date);
    OriginalsKeys(day);
    var inReport := set e | e in day && HasOriginal(e) :: e.foreign.value.originalCurrency;
    var onDate := set e | e in entries && e.date == date && HasOriginal(e) :: e.foreign.value.originalCurrency;
    forall x | x in onDate ensures x in inReport {
      var e :| e in entries && e.date == date && HasOriginal(e) && e.foreign.value.originalCurrency == x;
      assert e in day;
    }
    assert inReport == onDate;
  }

  /** The column names of the daily CSV export. */
  const CsvHeader: string := "Category,Amount AMD,Original Amount,Original Currency,Conversion"

  /** A CSV record: its first column, its amount column, and the original totals the other columns show. */
  datatype CsvRow = CsvRow(title: string, amount: real, originals: seq<Bucket>)

  datatype Csv = Csv(header: string, rows: seq<CsvRow>)

  /** `str.charAt(0).toUpperCase() + str.slice(1)`. */
  function Capitalize(s: string): (r: string)
    ensures |r| == |s|
    ensures |s| > 0 ==> r[0] == Text.UpperChar(s[0]) && r[1..] == s[1..]
  {
    if s == [] then [] else [Text.UpperChar(s[0])] + s[1..]
  }

  /** `String(str).padEnd(len)`: `s` followed by spaces up to length `len`. */
  function PadRight(s: string, len: int): (r: string)
    ensures |r| == if |s| < len then len else |s|
    ensures r[..|s|] == s
    ensures forall k :: |s| <= k < |r| ==> r[k] == ' '
  {
    if |s| < len then s + seq(len - |s|, _ => ' ') else s
  }

  /**
   * The CSV of a daily report: the fixed header, one record per category row
   * in the same order with the category capitalized, and a final TOTAL
   * record.
   */
  function CsvOf(d: DailyData): (r: Csv)
    ensures r.header == CsvHeader
    ensures |r.rows| == |d.rows| + 1
    ensures forall i :: 0 <= i < |d.rows| ==>
              r.rows[i] == CsvRow(Capitalize(d.rows[i].category), d.rows[i].amount, d.rows[i].originals)
    ensures r.rows[|d.rows|] == CsvRow("TOTAL", d.total, d.totalOriginals)
  {
    var body := seq(|d.rows|, i requires 0 <= i < |d.rows| =>
                      CsvRow(Capitalize(d.rows[i].category), d.rows[i].amount, d.rows[i].originals));
    Csv(CsvHeader, body + [CsvRow("TOTAL", d.total, d.totalOriginals)])
  }

  /** `getDailyCsv`: None exactly when `getDailyData` is; otherwise the CSV of the day's report. */
  function DailyCsv(entries: seq<Entry>, targetDate: Option<string>, today: string): (r: Option<Csv>)
    ensures r.None? <==> GetDailyData(entries, targetDate, today).None?
    ensures r.Some? ==> r.value == CsvOf(GetDailyData(entries, targetDate, today).value)
  {
    match GetDailyData(entries, targetDate, today)
    case None => None
    case Some(d) => Some(CsvOf(d))
  }

  /** What `getMonthlySummary` reports: the empty-month message, or the month's lines. */
  datatype MonthlyReport =
    | NoSpendings(month: string)
    | Report(month: string, rows: seq<CategoryRow>, total: real, totalOriginals: seq<Bucket>)

  /** `getMonthlySummary`: the report over the entries whose date starts with `month`. */
  function MonthlySummary(entries: seq<Entry>, month: string): (r: MonthlyReport)
    ensures r.NoSpendings? <==> forall e :: e in entries ==> !InMonthOf(e, month)
  {
    var m := InMonth(entries, month);
    if |m| == 0 then NoSpendings(month)
    else Report(month, CategoryRows(m), Sum(Amounts(m)), Tally(Originals(m)))
  }

  /**
   * The lines of a monthly report are the month's categories, each once,
   * by non-increasing total, each with the sum of its amounts; the total
   * is the sum of the month's amounts and of the lines.
   */
  lemma MonthlyRows(entries: seq<Entry>, month: string)
    requires MonthlySummary(entries, month).Report?
    ensures var r := MonthlySummary(entries, month);
            var m := InMonth(entries, month);
              && SortedDesc(RowTotals(r.rows))
              && DistinctKeys(RowTotals(r.rows))
              && Keys(RowTotals(r.rows)) == (set e | e in entries && InMonthOf(e, month) :: e.category)
              && (forall i :: 0 <= i < |r.rows| ==> r.rows[i].amount == SumFor(Amounts(m), r.rows[i].category))
              && r.total == Sum(Amounts(m))
              && Sum(RowTotals(r.rows)) == r.total
  {
    var m := InMonth(entries, month);
    CategoryRowsSpec(m);
    MonthCategories(entries, month);
  }

  /** The categories of a month's entries. */
  lemma MonthCategories(entries: seq<Entry>, month: string)
    ensures (set e | e in InMonth(entries, month) :: e.category) == set e | e in entries && InMonthOf(e, month) :: e.category
  {
    var m := InMonth(entries, month);
    var inReport := set e | e in m :: e.category;
    var inMonth := set e | e in entries && InMonthOf(e, month) :: e.category;
    forall x | x in inMonth ensures x in inReport {
      var e :| e in entries && InMonthOf(e, month) && e.category == x;
      assert e in m;
    }
  }

  /**
   * The month's total in original currencies lists each foreign currency of
   * the month once, with the sum of its original amounts.
   */
  lemma MonthlyOriginals(entries: seq<Entry>, month: string)
    requires MonthlySummary(entries, month).Report?
    ensures var r := MonthlySummary(entries, month);
            var m := InMonth(entries, month);
              && DistinctKeys(r.totalOriginals)
              && Keys(r.totalOriginals)
                   == (set e | e in entries && InMonthOf(e, month) && HasOriginal(e) :: e.foreign.value.originalCurrency)
              && (forall c :: TotalOf(r.totalOriginals, c) == SumFor(Originals(m), c))
  {
    var m := InMonth(entries, month);
    assert MonthlySummary(entries, month).totalOriginals == Tally(Originals(m));
    MonthOriginalsKeys(entries, month);
  }

  /** The currencies of the month's original amounts are those of its entries that have one. */
  lemma MonthOriginalsKeys(entries: seq<Entry>, month: string)
    ensures Keys(Originals(InMonth(entries, month)))
              == set e | e in entries && InMonthOf(e, month) && HasOriginal(e) :: e.foreign.value.originalCurrency
  {
    var m := InMonth(entries, month);
    OriginalsKeys(m);
    var inReport := set e | e in m && HasOriginal(e) :: e.foreign.value.originalCurrency;
    var inMonth := set e | e in entries && InMonthOf(e, month) && HasOriginal(e) :: e.foreign.value.originalCurrency;
    forall x | x in inMonth ensures x in inReport {
      var e :| e in entries && InMonthOf(e, month) && HasOriginal(e) && e.foreign.value.originalCurrency == x;
      assert e in m;
    }
    assert inReport == inMonth;
  }

  /** `hasTodaySpendings`: some entry is dated today. */
  function HasSpendingsOn(entries: seq<Entry>, today: string): (b: bool)
    ensures b <==> exists e :: e in entries && e.date == today
  {
    |Dated(entries, today)| > 0
  }

  /** The daily report exists exactly on the days `hasTodaySpendings` reports. */
  lemma HasSpendingsIffDailyData(entries: seq<Entry>, today: string)
    ensures HasSpendingsOn(entries, today) <==> GetDailyData(entries, None, today).Some?
  {
  }
}

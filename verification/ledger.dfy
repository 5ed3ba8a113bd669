/**
 * The file-backed ledger of index.js. Its document holds the same spendings
 * twice: `daily` maps a date to the totals per category, and `monthly` is
 * the log of individual records. Every operation updates both by hand; the
 * invariant that keeps them in step (`WellFormed`) is proved to survive
 * each one.
 *
 * Each operation is a pure transition on the document (`AfterAdd`,
 * `AfterUpdate`, ...) and a method of the `Ledger` class that performs the
 * same steps in place and is proved to reach that transition's result.
 * Loading and saving data.json are left out: the state is the loaded
 * document.
 */
module Ledger {
  import opened Common
  import opened Text
  import opened Aggregate
  import Helpers

  /** A `monthly` record. Amounts are whole drams. */
  datatype Record = Record(date: string, category: string, amount: int, messageId: Option<MessageId>)

  /** `data.daily`: date, then category, then total. */
  type Daily = map<string, map<string, int>>

  /** The `{ daily, monthly }` document. */
  datatype Data = Data(daily: Daily, monthly: seq<Record>)

  // ---------------------------------------------------------------------
  // The invariant
  // ---------------------------------------------------------------------

  /** `daily[d][c] || 0`. */
  function Cell(daily: Daily, d: string, c: string): int {
    if d in daily && c in daily[d] then daily[d][c] else 0
  }

  /** What record `r` contributes to the total of date `d` and category `c`. */
  function Share(r: Record, d: string, c: string): int {
    if r.date == d && r.category == c then r.amount else 0
  }

  /** The sum of the amounts of the records of date `d` and category `c`. */
  function CellSum(monthly: seq<Record>, d: string, c: string): int {
    if monthly == [] then 0 else Share(monthly[0], d, c) + CellSum(monthly[1..], d, c)
  }

  lemma {:induction false} CellSumConcat(a: seq<Record>, b: seq<Record>, d: string, c: string)
    ensures CellSum(a + b, d, c) == CellSum(a, d, c) + CellSum(b, d, c)
  {
    if a == [] {
      assert a + b == b;
    } else {
      assert (a + b)[0] == a[0] && (a + b)[1..] == a[1..] + b;
      CellSumConcat(a[1..], b, d, c);
    }
  }

  /** The record at `i` contributes its share between the records before and after it. */
  lemma CellSumSplit(m: seq<Record>, i: nat, d: string, c: string)
    requires i < |m|
    ensures CellSum(m, d, c) == CellSum(m[..i], d, c) + Share(m[i], d, c) + CellSum(m[i + 1..], d, c)
  {
    var rest := [m[i]] + m[i + 1..];
    assert m == m[..i] + rest;
    CellSumConcat(m[..i], rest, d, c);
    assert rest[1..] == m[i + 1..];
  }

  /** Replacing the record at `i` swaps its share for the new record's. */
  lemma CellSumReplace(m: seq<Record>, i: nat, x: Record, d: string, c: string)
    requires i < |m|
    ensures CellSum(m[i := x], d, c) == CellSum(m, d, c) - Share(m[i], d, c) + Share(x, d, c)
  {
    var m' := m[i := x];
    assert m'[..i] == m[..i] && m'[i + 1..] == m[i + 1..];
    CellSumSplit(m, i, d, c);
    CellSumSplit(m', i, d, c);
  }

  predicate Positive(monthly: seq<Record>) {
    forall r :: r in monthly ==> r.amount > 0
  }

  /** With positive amounts, a total is positive exactly when some record falls in its cell. */
  lemma {:induction false} CellSumPositive(m: seq<Record>, d: string, c: string)
    requires Positive(m)
    ensures CellSum(m, d, c) >= 0
    ensures CellSum(m, d, c) > 0 <==> exists r :: r in m && r.date == d && r.category == c
  {
    if m != [] {
      assert forall x :: x in m <==> x == m[0] || x in m[1..];
      CellSumPositive(m[1..], d, c);
    }
  }

  /** A record's cell holds at least that record's amount. */
  lemma CellSumAtLeast(m: seq<Record>, i: nat)
    requires Positive(m) && i < |m|
    ensures CellSum(m, m[i].date, m[i].category) >= m[i].amount
  {
    CellSumSplit(m, i, m[i].date, m[i].category);
    assert forall x :: x in m[..i] || x in m[i + 1..] ==> x in m;
    CellSumPositive(m[..i], m[i].date, m[i].category);
    CellSumPositive(m[i + 1..], m[i].date, m[i].category);
  }

  /** No zero or negative total and no empty date. */
  ghost predicate NoEmptyBuckets(daily: Daily) {
    forall d :: d in daily ==> |daily[d]| > 0 && forall c :: c in daily[d] ==> daily[d][c] > 0
  }

  /**
   * `daily` is the log summed per date and category, with nothing else in
   * it, and every amount in the log is positive.
   */
  ghost predicate Consistent(data: Data) {
    && Positive(data.monthly)
    && NoEmptyBuckets(data.daily)
    && forall d, c :: Cell(data.daily, d, c) == CellSum(data.monthly, d, c)
  }

  /** At most one record per present message id. */
  predicate UniqueIds(monthly: seq<Record>) {
    forall i, j :: 0 <= i < j < |monthly| && monthly[i].messageId.Some? ==> monthly[i].messageId != monthly[j].messageId
  }

  ghost predicate WellFormed(data: Data) {
    Consistent(data) && UniqueIds(data.monthly)
  }

  /** Under the invariant, `daily` is determined by `monthly`. */
  lemma DailyDetermined(d1: Daily, d2: Daily, monthly: seq<Record>)
    requires Consistent(Data(d1, monthly)) && Consistent(Data(d2, monthly))
    ensures d1 == d2
  {
    forall d | d in d1 ensures d in d2 && d1[d] == d2[d] {
      var c :| c in d1[d];
      assert Cell(d1, d, c) > 0;
      assert Cell(d2, d, c) > 0;
      forall c' | c' in d1[d] ensures c' in d2[d] {
        assert Cell(d1, d, c') == Cell(d2, d, c');
      }
      forall c' | c' in d2[d] ensures c' in d1[d] {
        assert Cell(d1, d, c') == Cell(d2, d, c');
      }
      forall c' | c' in d1[d] ensures d1[d][c'] == d2[d][c'] {
        assert Cell(d1, d, c') == Cell(d2, d, c');
      }
    }
    forall d | d in d2 ensures d in d1 {
      var c :| c in d2[d];
      assert Cell(d1, d, c) == Cell(d2, d, c);
    }
  }

  // ---------------------------------------------------------------------
  // Cell updates
  // ---------------------------------------------------------------------

  /** `daily[d][c] = (daily[d][c] || 0) + a`, creating the date's map when missing. */
  function Deposit(daily: Daily, d: string, c: string, a: int): (r: Daily)
    ensures forall d', c' :: Cell(r, d', c') == Cell(daily, d', c') + (if d' == d && c' == c then a else 0)
    ensures NoEmptyBuckets(daily) && a > 0 ==> NoEmptyBuckets(r)
  {
    var inner := if d in daily then daily[d] else map[];
    daily[d := inner[c := Cell(daily, d, c) + a]]
  }

  /** `cells[c] || 0`. */
  function Get(cells: map<string, int>, c: string): int {
    if c in cells then cells[c] else 0
  }

  /** `cells[c] -= a`, deleting the entry when it drops to zero or below. */
  function Lowered(cells: map<string, int>, c: string, a: int): map<string, int>
    requires c in cells
  {
    var v := cells[c] - a;
    if v <= 0 then cells - {c} else cells[c := v]
  }

  /**
   * Taking `a` out of a truthy cell: the cell is removed when it drops to
   * zero or below, and the date when its map becomes empty. A missing or
   * zero cell is left alone.
   */
  function Withdraw(daily: Daily, d: string, c: string, a: int): Daily {
    if d in daily && c in daily[d] && daily[d][c] != 0 then
      var inner := Lowered(daily[d], c, a);
      if |inner| == 0 then daily - {d} else daily[d := inner]
    else daily
  }

  /** Lowering a positive entry by at most its value lowers it alone and keeps every entry positive. */
  lemma LoweredCells(cells: map<string, int>, c: string, a: int)
    requires forall c' :: c' in cells ==> cells[c'] > 0
    requires c in cells && 0 < a <= cells[c]
    ensures forall c' :: c' in Lowered(cells, c, a) ==> Lowered(cells, c, a)[c'] > 0
    ensures forall c' :: Get(Lowered(cells, c, a), c') == Get(cells, c') - (if c' == c then a else 0)
  {
  }

  /** Taking out at most what a cell holds lowers that cell alone and leaves no empty date or cell. */
  lemma WithdrawCells(daily: Daily, d: string, c: string, a: int)
    requires NoEmptyBuckets(daily) && 0 < a <= Cell(daily, d, c)
    ensures var r := Withdraw(daily, d, c, a);
              && NoEmptyBuckets(r)
              && forall d', c' :: Cell(r, d', c') == Cell(daily, d', c') - (if d' == d && c' == c then a else 0)
  {
    var r := Withdraw(daily, d, c, a);
    var inner := Lowered(daily[d], c, a);
    LoweredCells(daily[d], c, a);
    assert r == if |inner| == 0 then daily - {d} else daily[d := inner];
    forall d', c' ensures Cell(r, d', c') == Cell(daily, d', c') - (if d' == d && c' == c then a else 0) {
      if d' == d {
        assert Cell(r, d', c') == Get(inner, c');
        assert Cell(daily, d', c') == Get(daily[d], c');
      }
    }
  }

  // ---------------------------------------------------------------------
  // Finding a message's record
  // ---------------------------------------------------------------------

  /** `monthly.some(e => e.messageId === messageId)` for a present id. */
  predicate Tracked(monthly: seq<Record>, messageId: Option<MessageId>) {
    messageId.Some? && exists r :: r in monthly && r.messageId == messageId
  }

  /** `monthly.findIndex(e => e.messageId === messageId)`. */
  function FindId(monthly: seq<Record>, id: MessageId): (i: int)
    ensures -1 <= i < |monthly|
    ensures i >= 0 ==> monthly[i].messageId == Some(id)
    ensures forall j :: 0 <= j < |monthly| && (i < 0 || j < i) ==> monthly[j].messageId != Some(id)
    ensures i >= 0 <==> Tracked(monthly, Some(id))
  {
    if monthly == [] then -1
    else if monthly[0].messageId == Some(id) then 0
    else
      var j := FindId(monthly[1..], id);
      assert forall x :: x in monthly <==> x == monthly[0] || x in monthly[1..];
      if j < 0 then -1 else j + 1
  }

  /** The first record of a message is the one `FindId` reports. */
  lemma FindIdIs(m: seq<Record>, id: MessageId, i: nat)
    requires i < |m| && m[i].messageId == Some(id)
    requires forall j :: 0 <= j < i ==> m[j].messageId != Some(id)
    ensures FindId(m, id) == i
  {
  }

  lemma UniqueTail(m: seq<Record>)
    requires m != [] && UniqueIds(m)
    ensures UniqueIds(m[1..])
    ensures m[0].messageId.Some? ==> forall r :: r in m[1..] ==> r.messageId != m[0].messageId
  {
    assert forall i :: 0 <= i < |m[1..]| ==> m[1..][i] == m[i + 1];
  }

  lemma UniqueCons(x: Record, m: seq<Record>)
    requires UniqueIds(m)
    requires x.messageId.Some? ==> forall r :: r in m ==> r.messageId != x.messageId
    ensures UniqueIds([x] + m)
  {
    var r := [x] + m;
    forall i, j | 0 <= i < j < |r| && r[i].messageId.Some? ensures r[i].messageId != r[j].messageId {
      assert r[j] == m[j - 1];
      if i > 0 {
        assert r[i] == m[i - 1];
      }
    }
  }

  // ---------------------------------------------------------------------
  // The operations, as transitions of the document
  // ---------------------------------------------------------------------

  /**
   * `add`: nothing when a present message id is already in the log;
   * otherwise the amount goes into today's cell and a record is appended.
   */
  function AfterAdd(data: Data, category: string, amount: int, messageId: Option<MessageId>, today: string): Data {
    if Tracked(data.monthly, messageId) then data
    else Data(Deposit(data.daily, today, category, amount),
              data.monthly + [Record(today, category, amount, messageId)])
  }

  lemma AddKeepsInvariant(data: Data, category: string, amount: int, messageId: Option<MessageId>, today: string)
    requires WellFormed(data) && amount > 0
    ensures WellFormed(AfterAdd(data, category, amount, messageId, today))
  {
    if !Tracked(data.monthly, messageId) {
      var r := Record(today, category, amount, messageId);
      var after := AfterAdd(data, category, amount, messageId, today);
      forall d, c ensures Cell(after.daily, d, c) == CellSum(after.monthly, d, c) {
        CellSumConcat(data.monthly, [r], d, c);
        assert [r][1..] == [];
      }
      var m := after.monthly;
      forall i, j | 0 <= i < j < |m| && m[i].messageId.Some? ensures m[i].messageId != m[j].messageId {
        if j == |data.monthly| {
          assert m[i] in data.monthly;
        }
      }
    }
  }

  /** The record after `updateSpending`: new category and amount, same date and id. */
  function Revised(r: Record, newCategory: string, newAmount: int): Record {
    r.(category := newCategory, amount := newAmount)
  }

  /**
   * `updateSpending`: false and no change for an untracked message;
   * otherwise the first record of the message gets the new category and
   * amount, its old amount leaves its cell and the new one enters the cell
   * of the new category on the same date.
   */
  function AfterUpdate(data: Data, messageId: MessageId, newCategory: string, newAmount: int): (Data, bool) {
    var i := FindId(data.monthly, messageId);
    if i < 0 then (data, false)
    else
      var e := data.monthly[i];
      (Data(Deposit(Withdraw(data.daily, e.date, e.category, e.amount), e.date, newCategory, newAmount),
            data.monthly[i := Revised(e, newCategory, newAmount)]), true)
  }

  /** Taking a logged record's amount out of its cell leaves the other records' sums. */
  lemma WithdrawRecord(data: Data, i: nat)
    requires Consistent(data) && i < |data.monthly|
    ensures var e := data.monthly[i];
            var w := Withdraw(data.daily, e.date, e.category, e.amount);
              && NoEmptyBuckets(w)
              && forall d, c :: Cell(w, d, c) == CellSum(data.monthly, d, c) - Share(e, d, c)
  {
    var e := data.monthly[i];
    CellSumAtLeast(data.monthly, i);
    assert Cell(data.daily, e.date, e.category) == CellSum(data.monthly, e.date, e.category);
    WithdrawCells(data.daily, e.date, e.category, e.amount);
  }

  /** Revising the record at `i` in the log and in the cells keeps them consistent. */
  lemma ReviseCells(data: Data, i: nat, newCategory: string, newAmount: int)
    requires Consistent(data) && newAmount > 0 && i < |data.monthly|
    ensures var m := data.monthly;
            var e := m[i];
            var after := Data(Deposit(Withdraw(data.daily, e.date, e.category, e.amount), e.date, newCategory, newAmount),
                              m[i := Revised(e, newCategory, newAmount)]);
              && Consistent(after)
              && forall d, c :: Cell(after.daily, d, c)
                                == Cell(data.daily, d, c) - Share(e, d, c) + Share(Revised(e, newCategory, newAmount), d, c)
  {
    var m := data.monthly;
    var e := m[i];
    var e' := Revised(e, newCategory, newAmount);
    var m' := m[i := e'];
    WithdrawRecord(data, i);
    var w := Withdraw(data.daily, e.date, e.category, e.amount);
    var daily' := Deposit(w, e.date, newCategory, newAmount);
    forall d, c ensures Cell(daily', d, c) == CellSum(m', d, c) {
      CellSumReplace(m, i, e', d, c);
    }
    assert forall r :: r in m' ==> r == e' || r in m;
  }

  /** A revision moves the record's old amount out of its cell and the new amount into the new category's cell. */
  lemma UpdateCells(data: Data, messageId: MessageId, newCategory: string, newAmount: int)
    requires Consistent(data) && newAmount > 0 && FindId(data.monthly, messageId) >= 0
    ensures var after := AfterUpdate(data, messageId, newCategory, newAmount).0;
            var e := data.monthly[FindId(data.monthly, messageId)];
              && Consistent(after)
              && forall d, c :: Cell(after.daily, d, c)
                                == Cell(data.daily, d, c) - Share(e, d, c) + Share(Revised(e, newCategory, newAmount), d, c)
  {
    ReviseCells(data, FindId(data.monthly, messageId), newCategory, newAmount);
  }

  lemma UpdateKeepsInvariant(data: Data, messageId: MessageId, newCategory: string, newAmount: int)
    requires WellFormed(data) && newAmount > 0
    ensures var (after, updated) := AfterUpdate(data, messageId, newCategory, newAmount);
              && WellFormed(after)
              && (updated <==> FindId(data.monthly, messageId) >= 0)
              && (!updated ==> after == data)
  {
    var i := FindId(data.monthly, messageId);
    if i >= 0 {
      UpdateCells(data, messageId, newCategory, newAmount);
      var m := data.monthly;
      var m' := AfterUpdate(data, messageId, newCategory, newAmount).0.monthly;
      assert forall k :: 0 <= k < |m| ==> m'[k].messageId == m[k].messageId;
    }
  }

  /**
   * `removeSpending`: false and no change for an untracked message;
   * otherwise the first record of the message is cut out of the log and its
   * amount out of its cell.
   */
  function AfterRemove(data: Data, messageId: MessageId): (Data, bool) {
    var i := FindId(data.monthly, messageId);
    if i < 0 then (data, false)
    else
      var e := data.monthly[i];
      (Data(Withdraw(data.daily, e.date, e.category, e.amount), data.monthly[..i] + data.monthly[i + 1..]), true)
  }

  /** Cutting the record at `i` out of the log and out of its cell keeps them consistent. */
  lemma CutCells(data: Data, i: nat)
    requires Consistent(data) && i < |data.monthly|
    ensures var m := data.monthly;
            var e := m[i];
            var after := Data(Withdraw(data.daily, e.date, e.category, e.amount), m[..i] + m[i + 1..]);
              && Consistent(after)
              && forall d, c :: Cell(after.daily, d, c) == Cell(data.daily, d, c) - Share(e, d, c)
  {
    var m := data.monthly;
    var m' := m[..i] + m[i + 1..];
    WithdrawRecord(data, i);
    var e := m[i];
    var w := Withdraw(data.daily, e.date, e.category, e.amount);
    forall d, c ensures Cell(w, d, c) == CellSum(m', d, c) {
      CellSumSplit(m, i, d, c);
      CellSumConcat(m[..i], m[i + 1..], d, c);
    }
    assert forall r :: r in m' ==> r in m;
  }

  /** A removal takes the record's amount out of its cell and nothing else. */
  lemma RemoveCells(data: Data, messageId: MessageId)
    requires Consistent(data) && FindId(data.monthly, messageId) >= 0
    ensures var after := AfterRemove(data, messageId).0;
            var e := data.monthly[FindId(data.monthly, messageId)];
              && Consistent(after)
              && forall d, c :: Cell(after.daily, d, c) == Cell(data.daily, d, c) - Share(e, d, c)
  {
    CutCells(data, FindId(data.monthly, messageId));
  }

  lemma RemoveKeepsInvariant(data: Data, messageId: MessageId)
    requires WellFormed(data)
    ensures var (after, removed) := AfterRemove(data, messageId);
              && WellFormed(after)
              && (removed <==> FindId(data.monthly, messageId) >= 0)
              && (!removed ==> after == data)
              && FindId(after.monthly, messageId) < 0
  {
    var i := FindId(data.monthly, messageId);
    if i >= 0 {
      RemoveCells(data, messageId);
      var m := data.monthly;
      var m' := m[..i] + m[i + 1..];
      forall a | 0 <= a < |m'| ensures m'[a] == m[if a < i then a else a + 1] && m'[a].messageId != Some(messageId) {
        if a >= i {
          assert m'[a] == m[a + 1];
        }
      }
    }
  }

  /** `monthly.filter(e => e.date !== today)`. */
  function OtherDays(monthly: seq<Record>, today: string): (r: seq<Record>)
    ensures forall x :: x in r <==> x in monthly && x.date != today
  {
    if monthly == [] then []
    else
      assert forall x :: x in monthly <==> x == monthly[0] || x in monthly[1..];
      (if monthly[0].date != today then [monthly[0]] else []) + OtherDays(monthly[1..], today)
  }

  lemma {:induction false} OtherDaysCells(m: seq<Record>, today: string, d: string, c: string)
    ensures CellSum(OtherDays(m, today), d, c) == if d == today then 0 else CellSum(m, d, c)
  {
    if m != [] {
      OtherDaysCells(m[1..], today, d, c);
      var head := if m[0].date != today then [m[0]] else [];
      CellSumConcat(head, OtherDays(m[1..], today), d, c);
      if head != [] {
        assert head[1..] == [];
      }
    }
  }

  lemma {:induction false} OtherDaysUnique(m: seq<Record>, today: string)
    requires UniqueIds(m)
    ensures UniqueIds(OtherDays(m, today))
  {
    if m != [] {
      UniqueTail(m);
      OtherDaysUnique(m[1..], today);
      if m[0].date != today {
        UniqueCons(m[0], OtherDays(m[1..], today));
      }
    }
  }

  /** `resetDay`'s change: today's totals and today's records are gone, all else stays. */
  function AfterReset(data: Data, today: string): Data {
    Data(data.daily - {today}, OtherDays(data.monthly, today))
  }

  lemma ResetKeepsInvariant(data: Data, today: string)
    requires WellFormed(data)
    ensures WellFormed(AfterReset(data, today))
  {
    var after := AfterReset(data, today);
    forall d, c ensures Cell(after.daily, d, c) == CellSum(after.monthly, d, c) {
      OtherDaysCells(data.monthly, today, d, c);
    }
    OtherDaysUnique(data.monthly, today);
  }

  /** The message ids of today's records that have one, in log order, repeats kept. */
  function TodayIds(monthly: seq<Record>, today: string): (ids: seq<MessageId>)
    ensures forall id :: id in ids <==> exists r :: r in monthly && r.date == today && r.messageId == Some(id)
  {
    if monthly == [] then []
    else
      var r := monthly[0];
      assert forall x :: x in monthly <==> x == r || x in monthly[1..];
      (if r.date == today && r.messageId.Some? then [r.messageId.value] else []) + TodayIds(monthly[1..], today)
  }

  /**
   * `resetDay` counts records, not distinct messages; under the invariant a
   * message has at most one record, so no message is requested twice.
   */
  lemma {:induction false} TodayIdsDistinct(monthly: seq<Record>, today: string)
    requires UniqueIds(monthly)
    ensures Distinct(TodayIds(monthly, today))
  {
    if monthly != [] {
      UniqueTail(monthly);
      TodayIdsDistinct(monthly[1..], today);
      var head := if monthly[0].date == today && monthly[0].messageId.Some? then [monthly[0].messageId.value] else [];
      var rest := TodayIds(monthly[1..], today);
      var ids := head + rest;
      forall i, j | 0 <= i < j < |ids| ensures ids[i] != ids[j] {
        if i < |head| {
          assert ids[j] == rest[j - |head|] && rest[j - |head|] in rest;
        } else {
          assert ids[i] == rest[i - |head|] && ids[j] == rest[j - |head|];
        }
      }
    }
  }

  // ---------------------------------------------------------------------
  // Messages: the line parse (index.js:251-257) and the two handlers
  // ---------------------------------------------------------------------

  datatype LegacySpending = LegacySpending(category: string, amount: int)

  /**
   * `^(.+?)\s+([\d,]+)$` on a line, the category trimmed and lower-cased,
   * the amount read with its commas dropped; rejected when the amount is
   * not positive.
   */
  function ParseLegacyLine(s: string): (r: Option<LegacySpending>)
    ensures r.Some? ==> r.value.amount > 0
    ensures r.Some? ==> forall i :: 0 <= i < |r.value.category| ==> !IsAsciiUpper(r.value.category[i])
  {
    match Helpers.LazyMatch(Helpers.AmountOnly, s)
    case None => None
    case Some(m) =>
      var amount := Helpers.NumeralValue(s, m.cuts.intStart, m.cuts.intEnd);
      if amount <= 0 then None else Some(LegacySpending(Helpers.CategoryOf(s, m.split), amount))
  }

  /**
   * At the least split `k` where the pattern matches, the line gives the
   * trimmed, lower-cased `s[..k]` and the value of the digits after it,
   * unless every one of those digits is `0`.
   */
  lemma ParseLegacyLineOfMatch(s: string, k: nat, x: Helpers.Cuts)
    requires Helpers.MatchesAt(Helpers.AmountOnly, s, k, x)
    requires forall j, y :: 1 <= j < k ==> !Helpers.MatchesAt(Helpers.AmountOnly, s, j, y)
    ensures x.intEnd == |s|
    ensures ParseLegacyLine(s) ==
              if exists j :: x.intStart <= j < |s| && '1' <= s[j] <= '9'
              then Some(LegacySpending(Helpers.CategoryOf(s, k), Helpers.NumeralValue(s, x.intStart, x.intEnd)))
              else None
  {
    Helpers.LazyMatchIs(Helpers.AmountOnly, s, k, x);
    Helpers.NumeralValuePositive(s, x.intStart, x.intEnd);
  }

  /** A line the pattern does not match is rejected. */
  lemma ParseLegacyLineOfNonMatch(s: string)
    requires forall k, x :: !Helpers.MatchesAt(Helpers.AmountOnly, s, k, x)
    ensures ParseLegacyLine(s) == None
  {
    Helpers.LazyMatchIsLeast(Helpers.AmountOnly, s);
  }

  /**
   * The `channel_post` handler for a spending line: an empty text is
   * ignored; the trimmed text, if it parses, is added under the post's id.
   */
  function Posted(data: Data, text: string, messageId: MessageId, today: string): Data {
    if text == "" then data
    else match ParseLegacyLine(Trim(text))
      case None => data
      case Some(p) => AfterAdd(data, p.category, p.amount, Some(messageId), today)
  }

  /**
   * The `edited_channel_post` handler: an empty text is ignored; a text
   * that no longer parses removes the message's record, and the message is
   * to be deleted from the channel exactly when a record was removed; a
   * text that parses updates the record, or adds one when the message was
   * not tracked. The second component says whether the channel message is
   * to be deleted.
   */
  function Edited(data: Data, text: string, messageId: MessageId, today: string): (Data, bool) {
    if text == "" then (data, false)
    else ApplyEdit(data, ParseLegacyLine(Trim(text)), messageId, today)
  }

  /** What the handler does with the parse of an edited text. */
  function ApplyEdit(data: Data, parsed: Option<LegacySpending>, messageId: MessageId, today: string): (Data, bool) {
    match parsed
    case None => AfterRemove(data, messageId)
    case Some(p) =>
      var (updatedData, updated) := AfterUpdate(data, messageId, p.category, p.amount);
      if updated then (updatedData, false)
      else (AfterAdd(data, p.category, p.amount, Some(messageId), today), false)
  }

  lemma EditKeepsInvariant(data: Data, text: string, messageId: MessageId, today: string)
    requires WellFormed(data)
    ensures WellFormed(Edited(data, text, messageId, today).0)
    ensures WellFormed(Posted(data, text, messageId, today))
  {
    if text != "" {
      match ParseLegacyLine(Trim(text))
      case None =>
        RemoveKeepsInvariant(data, messageId);
      case Some(p) =>
        UpdateKeepsInvariant(data, messageId, p.category, p.amount);
        AddKeepsInvariant(data, p.category, p.amount, Some(messageId), today);
    }
  }

  /**
   * After an edit, the log agrees with the message: a text that parses is
   * tracked with the parsed category and amount, and one that does not is
   * no longer tracked.
   */
  lemma EditReconciles(data: Data, text: string, messageId: MessageId, today: string)
    requires WellFormed(data) && text != ""
    ensures var (after, deleteRequested) := Edited(data, text, messageId, today);
            var i := FindId(after.monthly, messageId);
            match ParseLegacyLine(Trim(text))
            case None =>
              i < 0 && (deleteRequested <==> FindId(data.monthly, messageId) >= 0)
            case Some(p) =>
              !deleteRequested && i >= 0
              && after.monthly[i].category == p.category && after.monthly[i].amount == p.amount
  {
    ApplyEditReconciles(data, ParseLegacyLine(Trim(text)), messageId, today);
  }

  /** `EditReconciles` for a given parse of the edited text. */
  lemma ApplyEditReconciles(data: Data, parsed: Option<LegacySpending>, messageId: MessageId, today: string)
    requires WellFormed(data)
    ensures var (after, deleteRequested) := ApplyEdit(data, parsed, messageId, today);
            var i := FindId(after.monthly, messageId);
            match parsed
            case None =>
              i < 0 && (deleteRequested <==> FindId(data.monthly, messageId) >= 0)
            case Some(p) =>
              !deleteRequested && i >= 0
              && after.monthly[i].category == p.category && after.monthly[i].amount == p.amount
  {
    match parsed
    case None =>
      RemoveKeepsInvariant(data, messageId);
    case Some(p) =>
      var m := data.monthly;
      var i := FindId(m, messageId);
      if i >= 0 {
        var m' := m[i := Revised(m[i], p.category, p.amount)];
        assert ApplyEdit(data, parsed, messageId, today).0.monthly == m';
        FindIdIs(m', messageId, i);
      } else {
        var m' := m + [Record(today, p.category, p.amount, Some(messageId))];
        assert ApplyEdit(data, parsed, messageId, today).0.monthly == m';
        FindIdIs(m', messageId, |m|);
      }
  }


  // ---------------------------------------------------------------------
  // Reports
  // ---------------------------------------------------------------------

  /** `hasTodaySpendings`: today has a non-empty map of totals. */
  function HasTodaySpendings(daily: Daily, today: string): bool {
    today in daily && |daily[today]| > 0
  }

  /** Under the invariant, today has totals exactly when the log has a record of today. */
  lemma HasTodaySpendingsIffRecord(data: Data, today: string)
    requires Consistent(data)
    ensures HasTodaySpendings(data.daily, today) <==> exists r :: r in data.monthly && r.date == today
  {
    if HasTodaySpendings(data.daily, today) {
      var c :| c in data.daily[today];
      assert Cell(data.daily, today, c) > 0;
      CellSumPositive(data.monthly, today, c);
    }
    if r :| r in data.monthly && r.date == today {
      CellSumPositive(data.monthly, today, r.category);
      assert Cell(data.daily, today, r.category) > 0;
    }
  }

  /** The records of date `d` as (category, amount) items. */
  function DayItems(monthly: seq<Record>, d: string): seq<Bucket> {
    if monthly == [] then []
    else
      (if monthly[0].date == d then [Bucket(monthly[0].category, monthly[0].amount as real)] else [])
      + DayItems(monthly[1..], d)
  }

  lemma {:induction false} DayItemsSums(monthly: seq<Record>, d: string, c: string)
    ensures SumFor(DayItems(monthly, d), c) == CellSum(monthly, d, c) as real
  {
    if monthly != [] {
      DayItemsSums(monthly[1..], d, c);
      var head := if monthly[0].date == d then [Bucket(monthly[0].category, monthly[0].amount as real)] else [];
      SumForAppend(head, DayItems(monthly[1..], d), c);
      if head != [] {
        assert head[1..] == [];
      }
    }
  }

  lemma {:induction false} DayItemsKeys(monthly: seq<Record>, d: string)
    ensures Keys(DayItems(monthly, d)) == set r | r in monthly && r.date == d :: r.category
  {
    if monthly != [] {
      var r := monthly[0];
      var rest := DayItems(monthly[1..], d);
      DayItemsKeys(monthly[1..], d);
      assert forall x :: x in monthly <==> x == r || x in monthly[1..];
      if r.date == d {
        Cons(Bucket(r.category, r.amount as real), rest);
      } else {
        assert DayItems(monthly, d) == rest;
      }
    }
  }

  /**
   * Lines that list each of today's categories once with its cell add up
   * to the sum of the amounts of today's records.
   */
  lemma DailyTotal(data: Data, today: string, lines: seq<Bucket>)
    requires Consistent(data) && today in data.daily
    requires DistinctKeys(lines) && Keys(lines) == data.daily[today].Keys
    requires forall i :: 0 <= i < |lines| ==> lines[i].total == data.daily[today][lines[i].key] as real
    ensures Sum(lines) == Sum(DayItems(data.monthly, today))
  {
    var items := DayItems(data.monthly, today);
    DayItemsKeys(data.monthly, today);
    forall c | c in Keys(items) ensures c in Keys(lines) {
      CellSumPositive(data.monthly, today, c);
      assert Cell(data.daily, today, c) > 0;
    }
    forall i | 0 <= i < |lines| ensures lines[i].total == SumFor(items, lines[i].key) {
      DayItemsSums(data.monthly, today, lines[i].key);
      assert Cell(data.daily, today, lines[i].key) == data.daily[today][lines[i].key];
    }
    SumByKeys(lines, items);
  }

  /** `lines` holds one line per category of `done`, each with that category's total in `cells`. */
  ghost predicate LinesOf(cells: map<string, int>, done: set<string>, lines: seq<Bucket>) {
    && DistinctKeys(lines)
    && Keys(lines) == done
    && forall i :: 0 <= i < |lines| ==> lines[i].key in cells && lines[i].total == cells[lines[i].key] as real
  }

  /** Appending the line of a category not yet listed. */
  lemma LinesStep(cells: map<string, int>, done: set<string>, lines: seq<Bucket>, c: string)
    requires LinesOf(cells, done, lines) && c in cells && c !in done
    ensures LinesOf(cells, done + {c}, lines + [Bucket(c, cells[c] as real)])
    ensures Sum(lines + [Bucket(c, cells[c] as real)]) == Sum(lines) + cells[c] as real
  {
    var line := Bucket(c, cells[c] as real);
    Snoc(lines, line);
    assert forall i :: 0 <= i < |lines| ==> (lines + [line])[i] == lines[i];
  }

  /**
   * The lines of `getDailySummary` for one day's map of totals, one per
   * category, in some order of the map's keys, and their sum.
   */
  method SummaryLines(cells: map<string, int>) returns (lines: seq<Bucket>, total: int)
    ensures LinesOf(cells, cells.Keys, lines)
    ensures total as real == Sum(lines)
  {
    var keys := cells.Keys;
    lines := [];
    total := 0;
    while keys != {}
      invariant keys <= cells.Keys
      invariant LinesOf(cells, cells.Keys - keys, lines) && total as real == Sum(lines)
      decreases |keys|
    {
      var c :| c in keys;
      var amount := cells[c];
      LinesStep(cells, cells.Keys - keys, lines, c);
      lines := lines + [Bucket(c, amount as real)];
      total := total + amount;
      assert cells.Keys - (keys - {c}) == (cells.Keys - keys) + {c};
      keys := keys - {c};
    }
  }


  /** What `getDailySummary` reports: the empty message, or one line per category and a total. */
  datatype DailyReport = NothingToday | DaySummary(lines: seq<Bucket>, total: int)

  /** The records whose date starts with `month` (`e.date.startsWith(month)`). */
  function InMonth(monthly: seq<Record>, month: string): (r: seq<Record>)
    ensures forall x :: x in r <==> x in monthly && month <= x.date
  {
    if monthly == [] then []
    else
      assert forall x :: x in monthly <==> x == monthly[0] || x in monthly[1..];
      (if month <= monthly[0].date then [monthly[0]] else []) + InMonth(monthly[1..], month)
  }

  /** The records as (category, amount) items. */
  function Items(m: seq<Record>): (r: seq<Bucket>)
    ensures |r| == |m|
    ensures Keys(r) == set x | x in m :: x.category
  {
    var r := seq(|m|, i requires 0 <= i < |m| => Bucket(m[i].category, m[i].amount as real));
    forall x | x in m ensures x.category in Keys(r) {
      var i :| 0 <= i < |m| && m[i] == x;
      assert r[i].key == x.category;
    }
    r
  }

  /** `monthlyEntries.reduce((sum, e) => sum + e.amount, 0)`. */
  function Total(m: seq<Record>): int {
    if m == [] then 0 else m[0].amount + Total(m[1..])
  }

  lemma {:induction false} ItemsTotal(m: seq<Record>)
    ensures Sum(Items(m)) == Total(m) as real
  {
    if m != [] {
      ItemsTotal(m[1..]);
      assert Items(m)[1..] == Items(m[1..]);
    }
  }

  /** What `getMonthlySummary` reports: the empty-month message, or the category lines and the total. */
  datatype MonthlyReport = NoSpendings(month: string) | Report(month: string, rows: seq<Bucket>, total: int)

  /** `getMonthlySummary`, the empty-month message exactly when no record's date starts with `month`. */
  function MonthlySummary(monthly: seq<Record>, month: string): (r: MonthlyReport)
    ensures r.NoSpendings? <==> forall x :: x in monthly ==> !(month <= x.date)
  {
    var m := InMonth(monthly, month);
    if |m| == 0 then NoSpendings(month)
    else
      assert m[0] in m;
      Report(month, SortDesc(Tally(Items(m))), Total(m))
  }

  /**
   * The month's categories, each once, by non-increasing total, each with
   * the sum of its amounts; the total is the sum of the month's amounts and
   * of the lines.
   */
  lemma MonthlyRows(monthly: seq<Record>, month: string)
    requires MonthlySummary(monthly, month).Report?
    ensures var r := MonthlySummary(monthly, month);
            var m := InMonth(monthly, month);
              && SortedDesc(r.rows)
              && DistinctKeys(r.rows)
              && Keys(r.rows) == (set x | x in monthly && month <= x.date :: x.category)
              && (forall i :: 0 <= i < |r.rows| ==> r.rows[i].total == SumFor(Items(m), r.rows[i].key))
              && Sum(r.rows) == r.total as real
  {
    var m := InMonth(monthly, month);
    SortedTally(Items(m));
    ItemsTotal(m);
    assert (set x | x in m :: x.category) == set x | x in monthly && month <= x.date :: x.category;
  }

  // ---------------------------------------------------------------------
  // The ledger object
  // ---------------------------------------------------------------------

  /** The loaded document, updated in place by the operations of index.js. */
  class Ledger {
    var daily: Daily
    var monthly: seq<Record>

    function State(): Data
      reads this
    {
      Data(daily, monthly)
    }

    ghost predicate Valid()
      reads this
    {
      WellFormed(State())
    }

    /** `loadData` when there is no file yet. */
    constructor ()
      ensures Valid() && State() == Data(map[], [])
    {
      daily := map[];
      monthly := [];
    }

    /** `add`. Its callers pass the positive amount the line parse produced. */
    method Add(category: string, amount: int, messageId: Option<MessageId>, today: string)
      requires Valid() && amount > 0
      modifies this
      ensures Valid()
      ensures State() == AfterAdd(old(State()), category, amount, messageId, today)
    {
      AddKeepsInvariant(State(), category, amount, messageId, today);
      if messageId.Some? && FindId(monthly, messageId.value) >= 0 {
        return;
      }
      daily := Deposit(daily, today, category, amount);
      monthly := monthly + [Record(today, category, amount, messageId)];
    }

    /** `updateSpending`: the old amount out of its cell, the new one in, on the record's own date. */
    method UpdateSpending(messageId: MessageId, newCategory: string, newAmount: int) returns (updated: bool)
      requires Valid() && newAmount > 0
      modifies this
      ensures Valid()
      ensures (State(), updated) == AfterUpdate(old(State()), messageId, newCategory, newAmount)
    {
      UpdateKeepsInvariant(State(), messageId, newCategory, newAmount);
      var i := FindId(monthly, messageId);
      if i < 0 {
        return false;
      }
      var e := monthly[i];
      daily := Withdraw(daily, e.date, e.category, e.amount);
      daily := Deposit(daily, e.date, newCategory, newAmount);
      monthly := monthly[i := Revised(e, newCategory, newAmount)];
      return true;
    }

    /** `removeSpending`: the first record of the message out of the log and its amount out of its cell. */
    method RemoveSpending(messageId: MessageId) returns (removed: bool)
      requires Valid()
      modifies this
      ensures Valid()
      ensures (State(), removed) == AfterRemove(old(State()), messageId)
    {
      RemoveKeepsInvariant(State(), messageId);
      var i := FindId(monthly, messageId);
      if i < 0 {
        return false;
      }
      var e := monthly[i];
      daily := Withdraw(daily, e.date, e.category, e.amount);
      monthly := monthly[..i] + monthly[i + 1..];
      return true;
    }

    /**
     * `resetDay`: asks the chat platform to delete the message of each of
     * today's records that has one (`requested`, in log order), then drops
     * today's totals and records, and returns how many deletions it asked for.
     */
    method ResetDay(today: string) returns (count: nat, requested: seq<MessageId>)
      requires Valid()
      modifies this
      ensures Valid()
      ensures State() == AfterReset(old(State()), today)
      ensures requested == TodayIds(old(monthly), today) && Distinct(requested)
      ensures count == |requested|
    {
      ResetKeepsInvariant(State(), today);
      TodayIdsDistinct(monthly, today);
      requested := TodayIds(monthly, today);
      daily := daily - {today};
      monthly := OtherDays(monthly, today);
      count := |requested|;
    }

    /**
     * `getDailySummary`: nothing when today has no totals; otherwise one
     * line per category of today with its total, and the sum of the lines,
     * which under the invariant is the sum of today's records.
     */
    method DailySummary(today: string) returns (r: DailyReport)
      requires Valid()
      ensures r.NothingToday? <==> !HasTodaySpendings(daily, today)
      ensures r.DaySummary? ==>
                && DistinctKeys(r.lines)
                && Keys(r.lines) == daily[today].Keys
                && (forall i :: 0 <= i < |r.lines| ==> r.lines[i].total == daily[today][r.lines[i].key] as real)
                && r.total as real == Sum(r.lines)
                && r.total as real == Sum(DayItems(monthly, today))
    {
      if today !in daily || |daily[today]| == 0 {
        return NothingToday;
      }
      var lines, total := SummaryLines(daily[today]);
      DailyTotal(State(), today, lines);
      return DaySummary(lines, total);
    }

    /** The `channel_post` handler for a spending line. */
    method HandleNewPost(text: string, messageId: MessageId, today: string)
      requires Valid()
      modifies this
      ensures Valid()
      ensures State() == Posted(old(State()), text, messageId, today)
    {
      if text == "" {
        return;
      }
      match ParseLegacyLine(Trim(text))
      case None =>
      case Some(p) =>
        Add(p.category, p.amount, Some(messageId), today);
    }

    /** The `edited_channel_post` handler; `deleteRequested` says whether the channel message is to be deleted. */
    method HandleEdit(text: string, messageId: MessageId, today: string) returns (deleteRequested: bool)
      requires Valid()
      modifies this
      ensures Valid()
      ensures (State(), deleteRequested) == Edited(old(State()), text, messageId, today)
    {
      if text == "" {
        return false;
      }
      match ParseLegacyLine(Trim(text))
      case None =>
        deleteRequested := RemoveSpending(messageId);
      case Some(p) =>
        var updated := UpdateSpending(messageId, p.category, p.amount);
        if !updated {
          Add(p.category, p.amount, Some(messageId), today);
        }
        deleteRequested := false;
    }
  }
}

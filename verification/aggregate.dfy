/**
 * The accumulations the ledgers' reports are built from: a running total
 * per key, kept in the order keys first appear (a JavaScript object used as
 * an accumulator, then `Object.entries`), and the stable descending sort by
 * total (`.sort((a, b) => b.amount - a.amount)`).
 */
module Aggregate {

  /** A key with an amount: an input item, or an accumulated total. */
  datatype Bucket = Bucket(key: string, total: real)

  function Sum(bs: seq<Bucket>): real {
    if bs == [] then 0.0 else bs[0].total + Sum(bs[1..])
  }

  /** The sum of the amounts of the items with key `k`. */
  function SumFor(bs: seq<Bucket>, k: string): real {
    if bs == [] then 0.0 else (if bs[0].key == k then bs[0].total else 0.0) + SumFor(bs[1..], k)
  }

  function Keys(bs: seq<Bucket>): set<string> {
    set i | 0 <= i < |bs| :: bs[i].key
  }

  predicate DistinctKeys(bs: seq<Bucket>) {
    forall i, j :: 0 <= i < j < |bs| ==> bs[i].key != bs[j].key
  }

  lemma {:induction false} SumAppend(a: seq<Bucket>, b: seq<Bucket>)
    ensures Sum(a + b) == Sum(a) + Sum(b)
  {
    if a == [] {
      assert a + b == b;
    } else {
      assert (a + b)[0] == a[0] && (a + b)[1..] == a[1..] + b;
      SumAppend(a[1..], b);
    }
  }

  lemma {:induction false} SumForAppend(a: seq<Bucket>, b: seq<Bucket>, k: string)
    ensures SumFor(a + b, k) == SumFor(a, k) + SumFor(b, k)
  {
    if a == [] {
      assert a + b == b;
    } else {
      assert (a + b)[0] == a[0] && (a + b)[1..] == a[1..] + b;
      SumForAppend(a[1..], b, k);
    }
  }

  /** Replacing the element at `i` changes the sum by the difference of the totals. */
  lemma {:induction false} SumUpdate(bs: seq<Bucket>, i: nat, b: Bucket)
    requires i < |bs|
    ensures Sum(bs[i := b]) == Sum(bs) - bs[i].total + b.total
  {
    if i > 0 {
      assert bs[i := b][1..] == bs[1..][i - 1 := b];
      SumUpdate(bs[1..], i - 1, b);
    }
  }

  /** The position of key `k` among distinct keys, if present. */
  function Find(bs: seq<Bucket>, k: string): (i: int)
    ensures -1 <= i < |bs|
    ensures i >= 0 ==> bs[i].key == k
    ensures i < 0 <==> k !in Keys(bs)
  {
    if bs == [] then -1
    else if bs[0].key == k then 0
    else
      var j := Find(bs[1..], k);
      assert Keys(bs) == {bs[0].key} + Keys(bs[1..]);
      if j < 0 then -1 else j + 1
  }

  /** Among distinct keys, `Find` returns the one position holding the key. */
  lemma FindDistinct(bs: seq<Bucket>, i: nat)
    requires DistinctKeys(bs) && i < |bs|
    ensures Find(bs, bs[i].key) == i
  {
    var j := Find(bs, bs[i].key);
    assert bs[j].key == bs[i].key;
  }

  /** The total accumulated for `k` (`acc[k] || 0`). */
  function TotalOf(bs: seq<Bucket>, k: string): real {
    var i := Find(bs, k);
    if i < 0 then 0.0 else bs[i].total
  }

  /**
   * `r` is `bs` with `a` added to the total of `k`: distinct keys, the keys
   * of `bs` and `k`, the sum grown by `a`, and every other total as it was.
   */
  ghost predicate Bumped(bs: seq<Bucket>, k: string, a: real, r: seq<Bucket>) {
    && DistinctKeys(r)
    && Keys(r) == Keys(bs) + {k}
    && Sum(r) == Sum(bs) + a
    && forall key :: TotalOf(r, key) == TotalOf(bs, key) + (if key == k then a else 0.0)
  }

  /** Adding to the bucket that holds `k` already. */
  lemma BumpAt(bs: seq<Bucket>, i: nat, k: string, a: real)
    requires DistinctKeys(bs) && i < |bs| && bs[i].key == k
    ensures Bumped(bs, k, a, bs[i := Bucket(k, bs[i].total + a)])
  {
    SumUpdate(bs, i, Bucket(k, bs[i].total + a));
    var r := bs[i := Bucket(k, bs[i].total + a)];
    assert Keys(r) == Keys(bs) by {
      assert forall j :: 0 <= j < |r| ==> r[j].key == bs[j].key;
    }
    forall key ensures TotalOf(r, key) == TotalOf(bs, key) + (if key == k then a else 0.0) {
      var j := Find(bs, key);
      if j >= 0 {
        FindDistinct(r, j);
      }
    }
  }

  /** Opening a bucket for a new key at the end. */
  lemma BumpNew(bs: seq<Bucket>, k: string, a: real)
    requires DistinctKeys(bs) && k !in Keys(bs)
    ensures Bumped(bs, k, a, bs + [Bucket(k, a)])
  {
    var r := bs + [Bucket(k, a)];
    Snoc(bs, Bucket(k, a));
    forall key ensures TotalOf(r, key) == TotalOf(bs, key) + (if key == k then a else 0.0) {
      var j := Find(bs, key);
      if j >= 0 {
        FindDistinct(r, j);
      } else if key == k {
        FindDistinct(r, |bs|);
      }
    }
  }

  /**
   * `acc[k] = (acc[k] || 0) + a`: adds to the bucket of `k`, or opens a new
   * bucket for it at the end; every other total stays as it was.
   */
  function Bump(bs: seq<Bucket>, k: string, a: real): (r: seq<Bucket>)
    requires DistinctKeys(bs)
    ensures Bumped(bs, k, a, r)
  {
    var i := Find(bs, k);
    if i >= 0 then
      BumpAt(bs, i, k, a);
      bs[i := Bucket(k, bs[i].total + a)]
    else
      BumpNew(bs, k, a);
      bs + [Bucket(k, a)]
  }

  /**
   * The totals per key of `items`, in the order keys first appear: one
   * bucket per distinct key, carrying the sum of that key's amounts.
   */
  function Tally(items: seq<Bucket>): (r: seq<Bucket>)
    ensures DistinctKeys(r)
    ensures Keys(r) == Keys(items)
    ensures Sum(r) == Sum(items)
    ensures forall k :: TotalOf(r, k) == SumFor(items, k)
  {
    if items == [] then []
    else
      var init, last := items[..|items| - 1], items[|items| - 1];
      assert items == init + [last];
      var t := Tally(init);
      TallyStep(init, last, t);
      Bump(t, last.key, last.total)
  }

  /** Bumping the tally of `init` by `last` gives the tally of `init + [last]`. */
  lemma TallyStep(init: seq<Bucket>, last: Bucket, t: seq<Bucket>)
    requires DistinctKeys(t) && Keys(t) == Keys(init) && Sum(t) == Sum(init)
    requires forall k :: TotalOf(t, k) == SumFor(init, k)
    ensures var r := Bump(t, last.key, last.total);
      && DistinctKeys(r) && Keys(r) == Keys(init + [last]) && Sum(r) == Sum(init + [last])
      && forall k :: TotalOf(r, k) == SumFor(init + [last], k)
  {
    var r := Bump(t, last.key, last.total);
    Snoc(init, last);
    forall k ensures TotalOf(r, k) == SumFor(init + [last], k) {
      SumForAppend(init, [last], k);
    }
  }

  /** What a bucket at the back adds to the keys and the sum. */
  lemma Snoc(s: seq<Bucket>, x: Bucket)
    ensures Sum(s + [x]) == Sum(s) + x.total
    ensures Keys(s + [x]) == Keys(s) + {x.key}
    ensures DistinctKeys(s) && x.key !in Keys(s) ==> DistinctKeys(s + [x])
  {
    var r := s + [x];
    SumAppend(s, [x]);
    assert Sum([x]) == x.total;
    assert forall i :: 0 <= i < |s| ==> r[i] == s[i];
    assert r[|s|] == x;
    forall k | k in Keys(r) ensures k in Keys(s) + {x.key} {
      var j :| 0 <= j < |r| && r[j].key == k;
    }
    if DistinctKeys(s) && x.key !in Keys(s) {
      forall i, j | 0 <= i < j < |r| ensures r[i].key != r[j].key {
        if j == |s| {
          assert r[i].key in Keys(s);
        }
      }
    }
  }

  /** Each total is at least the next one. */
  predicate SortedDesc(bs: seq<Bucket>) {
    forall i :: 0 <= i < |bs| - 1 ==> bs[i].total >= bs[i + 1].total
  }

  /** What a bucket in front adds to the keys and the sum. */
  lemma Cons(x: Bucket, s: seq<Bucket>)
    ensures Sum([x] + s) == x.total + Sum(s)
    ensures Keys([x] + s) == {x.key} + Keys(s)
    ensures DistinctKeys([x] + s) <==> DistinctKeys(s) && x.key !in Keys(s)
  {
    var r := [x] + s;
    assert r[1..] == s;
    assert forall i :: 1 <= i < |r| ==> r[i] == s[i - 1];
    if DistinctKeys(s) && x.key !in Keys(s) {
      forall i, j | 0 <= i < j < |r| ensures r[i].key != r[j].key {
        if i == 0 {
          assert r[j].key in Keys(s);
        }
      }
    }
    if DistinctKeys(r) {
      forall i | 0 <= i < |s| ensures s[i].key != x.key {
        assert r[0] == x && r[i + 1] == s[i];
      }
    }
  }

  /** Puts `x` before the first element whose total is not larger than its own. */
  function Insert(x: Bucket, s: seq<Bucket>): (r: seq<Bucket>)
    requires SortedDesc(s)
    ensures SortedDesc(r)
    ensures multiset(r) == multiset(s) + multiset{x}
    ensures r[0] == x || r[0] == s[0]
  {
    if s == [] || x.total >= s[0].total then [x] + s
    else
      var rest := Insert(x, s[1..]);
      var r := [s[0]] + rest;
      assert SortedDesc(r) by {
        forall i | 0 <= i < |r| - 1 ensures r[i].total >= r[i + 1].total {
          assert r[i + 1] == rest[i];
          if i > 0 {
            assert r[i] == rest[i - 1];
          }
        }
      }
      assert multiset(r) == multiset(s) + multiset{x} by {
        assert s == [s[0]] + s[1..];
      }
      r
  }

  /** Inserting adds the bucket's total to the sum. */
  lemma {:induction false} InsertSum(x: Bucket, s: seq<Bucket>)
    requires SortedDesc(s)
    ensures Sum(Insert(x, s)) == x.total + Sum(s)
  {
    if s != [] && x.total < s[0].total {
      var rest := Insert(x, s[1..]);
      assert Insert(x, s) == [s[0]] + rest;
      assert ([s[0]] + rest)[1..] == rest;
      InsertSum(x, s[1..]);
    }
  }

  /** Inserting adds the bucket's key to the keys. */
  lemma {:induction false} InsertKeySet(x: Bucket, s: seq<Bucket>)
    requires SortedDesc(s)
    ensures Keys(Insert(x, s)) == Keys(s) + {x.key}
  {
    if s == [] || x.total >= s[0].total {
      Cons(x, s);
    } else {
      var rest := Insert(x, s[1..]);
      assert Insert(x, s) == [s[0]] + rest;
      assert s == [s[0]] + s[1..];
      Cons(s[0], s[1..]);
      InsertKeySet(x, s[1..]);
      Cons(s[0], rest);
    }
  }

  /** Inserting a bucket with a new key keeps the keys distinct. */
  lemma {:induction false} InsertDistinct(x: Bucket, s: seq<Bucket>)
    requires SortedDesc(s) && DistinctKeys(s) && x.key !in Keys(s)
    ensures DistinctKeys(Insert(x, s))
  {
    if s == [] || x.total >= s[0].total {
      Cons(x, s);
    } else {
      var rest := Insert(x, s[1..]);
      assert Insert(x, s) == [s[0]] + rest;
      assert s == [s[0]] + s[1..];
      Cons(s[0], s[1..]);
      InsertDistinct(x, s[1..]);
      InsertKeySet(x, s[1..]);
      Cons(s[0], rest);
    }
  }

  /** Inserting adds the bucket's key to the keys, keeping them distinct when it is new. */
  lemma InsertKeys(x: Bucket, s: seq<Bucket>)
    requires SortedDesc(s)
    ensures Keys(Insert(x, s)) == Keys(s) + {x.key}
    ensures DistinctKeys(s) && x.key !in Keys(s) ==> DistinctKeys(Insert(x, s))
  {
    InsertKeySet(x, s);
    if DistinctKeys(s) && x.key !in Keys(s) {
      InsertDistinct(x, s);
    }
  }


  /**
   * The stable sort by descending total: the same buckets, each total at
   * least the next one.
   */
  function SortDesc(bs: seq<Bucket>): (r: seq<Bucket>)
    ensures SortedDesc(r)
    ensures multiset(r) == multiset(bs)
  {
    if bs == [] then []
    else
      assert bs == [bs[0]] + bs[1..];
      Insert(bs[0], SortDesc(bs[1..]))
  }

  /** The buckets with total `t`, in their order: the ties a stable sort must keep in place. */
  function WithTotal(bs: seq<Bucket>, t: real): seq<Bucket> {
    if bs == [] then [] else (if bs[0].total == t then [bs[0]] else []) + WithTotal(bs[1..], t)
  }

  lemma WithTotalCons(x: Bucket, s: seq<Bucket>, t: real)
    ensures WithTotal([x] + s, t) == (if x.total == t then [x] else []) + WithTotal(s, t)
  {
    assert ([x] + s)[1..] == s;
  }

  /** Inserting into a sorted sequence places `x` among its ties as if it stood in front. */
  lemma {:induction false} InsertStable(x: Bucket, s: seq<Bucket>, t: real)
    requires SortedDesc(s)
    ensures WithTotal(Insert(x, s), t) == WithTotal([x] + s, t)
  {
    if s != [] && x.total < s[0].total {
      var rest := Insert(x, s[1..]);
      assert Insert(x, s) == [s[0]] + rest;
      assert s == [s[0]] + s[1..];
      WithTotalCons(s[0], rest, t);
      InsertStable(x, s[1..], t);
      WithTotalCons(x, s[1..], t);
      WithTotalCons(x, s, t);
      WithTotalCons(s[0], s[1..], t);
    }
  }

  /**
   * The sort is stable: the buckets of any one total appear in the result in
   * the order they had in the input.
   */
  lemma {:induction false} SortDescStable(bs: seq<Bucket>, t: real)
    ensures WithTotal(SortDesc(bs), t) == WithTotal(bs, t)
  {
    if bs != [] {
      var x, tail := bs[0], bs[1..];
      assert bs == [x] + tail;
      SortDescStable(tail, t);
      InsertStable(x, SortDesc(tail), t);
      WithTotalCons(x, SortDesc(tail), t);
      WithTotalCons(x, tail, t);
    }
  }

  /** Sorting keeps the sum. */
  lemma {:induction false} SortDescSum(bs: seq<Bucket>)
    ensures Sum(SortDesc(bs)) == Sum(bs)
  {
    if bs != [] {
      var x, tail := bs[0], bs[1..];
      assert bs == [x] + tail;
      Cons(x, tail);
      SortDescSum(tail);
      InsertSum(x, SortDesc(tail));
    }
  }

  /** Sorting keeps the keys and their distinctness. */
  lemma {:induction false} SortDescKeys(bs: seq<Bucket>)
    ensures Keys(SortDesc(bs)) == Keys(bs)
    ensures DistinctKeys(bs) ==> DistinctKeys(SortDesc(bs))
  {
    if bs != [] {
      var x, tail := bs[0], bs[1..];
      assert bs == [x] + tail;
      Cons(x, tail);
      SortDescKeys(tail);
      InsertKeys(x, SortDesc(tail));
    }
  }

  /** Sorting keeps the sum, the keys, and their distinctness. */
  lemma SortDescKeeps(bs: seq<Bucket>)
    ensures Sum(SortDesc(bs)) == Sum(bs)
    ensures Keys(SortDesc(bs)) == Keys(bs)
    ensures DistinctKeys(bs) ==> DistinctKeys(SortDesc(bs))
  {
    SortDescSum(bs);
    SortDescKeys(bs);
  }

  /**
   * The per-key totals in descending order: distinct keys, exactly the keys
   * of the items, the same grand total, and each bucket carrying its key's sum.
   */
  lemma SortedTally(items: seq<Bucket>)
    ensures var s := SortDesc(Tally(items));
              && SortedDesc(s) && DistinctKeys(s) && Keys(s) == Keys(items) && Sum(s) == Sum(items)
              && forall i :: 0 <= i < |s| ==> s[i].total == SumFor(items, s[i].key)
  {
    var t := Tally(items);
    SortDescKeeps(t);
    PermutedTotals(t, SortDesc(t), items);
  }

  /** A reordering of per-key totals still carries each key's sum. */
  lemma PermutedTotals(t: seq<Bucket>, s: seq<Bucket>, items: seq<Bucket>)
    requires multiset(s) == multiset(t) && DistinctKeys(t)
    requires forall k :: TotalOf(t, k) == SumFor(items, k)
    ensures forall i :: 0 <= i < |s| ==> s[i].total == SumFor(items, s[i].key)
  {
    forall i | 0 <= i < |s| ensures s[i].total == SumFor(items, s[i].key) {
      assert s[i] in multiset(t);
      var j :| 0 <= j < |t| && t[j] == s[i];
      FindDistinct(t, j);
    }
  }

  /** The items' sum for each bucket's key, added up over the buckets. */
  function SumOver(bs: seq<Bucket>, items: seq<Bucket>): real {
    if bs == [] then 0.0 else SumFor(items, bs[0].key) + SumOver(bs[1..], items)
  }

  /** `t` once for every bucket with key `k`. */
  function Hits(bs: seq<Bucket>, k: string, t: real): real {
    if bs == [] then 0.0 else (if bs[0].key == k then t else 0.0) + Hits(bs[1..], k, t)
  }

  lemma {:induction false} SumOverNone(bs: seq<Bucket>)
    ensures SumOver(bs, []) == 0.0
  {
    if bs != [] {
      SumOverNone(bs[1..]);
    }
  }

  lemma {:induction false} SumOverCons(bs: seq<Bucket>, x: Bucket, rest: seq<Bucket>)
    ensures SumOver(bs, [x] + rest) == Hits(bs, x.key, x.total) + SumOver(bs, rest)
  {
    assert ([x] + rest)[0] == x && ([x] + rest)[1..] == rest;
    if bs != [] {
      SumOverCons(bs[1..], x, rest);
    }
  }

  lemma {:induction false} HitsOnce(bs: seq<Bucket>, k: string, t: real)
    requires DistinctKeys(bs)
    ensures Hits(bs, k, t) == if k in Keys(bs) then t else 0.0
  {
    if bs != [] {
      assert bs == [bs[0]] + bs[1..];
      Cons(bs[0], bs[1..]);
      HitsOnce(bs[1..], k, t);
    }
  }

  lemma {:induction false} SumOverItems(bs: seq<Bucket>, items: seq<Bucket>)
    requires DistinctKeys(bs) && Keys(items) <= Keys(bs)
    ensures SumOver(bs, items) == Sum(items)
  {
    if items == [] {
      SumOverNone(bs);
    } else {
      var x, rest := items[0], items[1..];
      assert items == [x] + rest;
      Cons(x, rest);
      SumOverCons(bs, x, rest);
      HitsOnce(bs, x.key, x.total);
      SumOverItems(bs, rest);
    }
  }

  lemma {:induction false} SumOverTotals(bs: seq<Bucket>, items: seq<Bucket>)
    requires forall i :: 0 <= i < |bs| ==> bs[i].total == SumFor(items, bs[i].key)
    ensures Sum(bs) == SumOver(bs, items)
  {
    if bs != [] {
      SumOverTotals(bs[1..], items);
    }
  }

  /**
   * Buckets with distinct keys covering every key of the items, each
   * carrying its key's sum, add up to the sum of the items, in whatever
   * order they are listed.
   */
  lemma SumByKeys(bs: seq<Bucket>, items: seq<Bucket>)
    requires DistinctKeys(bs) && Keys(items) <= Keys(bs)
    requires forall i :: 0 <= i < |bs| ==> bs[i].total == SumFor(items, bs[i].key)
    ensures Sum(bs) == Sum(items)
  {
    SumOverTotals(bs, items);
    SumOverItems(bs, items);
  }
}

/** Grouped aggregation over rows: the model of Spark's `groupBy(...).sum()`,
    `groupBy(...).count()` and `dropDuplicates`.  A dataframe is a sequence of
    rows; row order carries no meaning. */
module Grouping {

  /** One row of a grouped table: a grouping key and an aggregated value. */
  datatype Entry<K> = Entry(key: K, value: int)

  /** Sum of the values of the rows whose key is `k` (0 when there are none). */
  function Total<K(==)>(rows: seq<Entry<K>>, k: K): int
  {
    if rows == [] then 0
    else (if rows[0].key == k then rows[0].value else 0) + Total(rows[1..], k)
  }

  /** Sum of all values. */
  function SumValues<K>(rows: seq<Entry<K>>): int
  {
    if rows == [] then 0 else rows[0].value + SumValues(rows[1..])
  }

  /** The keys occurring in a table. */
  function Keys<K>(rows: seq<Entry<K>>): (ks: set<K>)
    ensures forall i :: 0 <= i < |rows| ==> rows[i].key in ks
    ensures forall k :: k in ks ==> exists i :: 0 <= i < |rows| && rows[i].key == k
  {
    if rows == [] then {}
    else
      var ks := {rows[0].key} + Keys(rows[1..]);
      assert forall i :: 1 <= i < |rows| ==> rows[i].key == rows[1..][i - 1].key;
      ks
  }

  /** No key occurs twice: the grouping-key uniqueness of an aggregated table. */
  predicate DistinctKeys<K(==)>(rows: seq<Entry<K>>)
  {
    forall i, j :: 0 <= i < j < |rows| ==> rows[i].key != rows[j].key
  }

  /** Adds `e` into an aggregated table: to the row with the same key, or as a new row. */
  function Add<K(==)>(acc: seq<Entry<K>>, e: Entry<K>): (r: seq<Entry<K>>)
    ensures Keys(r) == Keys(acc) + {e.key}
    ensures SumValues(r) == SumValues(acc) + e.value
  {
    if acc == [] then [e]
    else if acc[0].key == e.key then [Entry(e.key, acc[0].value + e.value)] + acc[1..]
    else
      var rest := Add(acc[1..], e);
      assert ([acc[0]] + rest)[1..] == rest;
      [acc[0]] + rest
  }

  lemma {:induction false} AddTotal<K>(acc: seq<Entry<K>>, e: Entry<K>, k: K)
    ensures Total(Add(acc, e), k) == Total(acc, k) + (if e.key == k then e.value else 0)
  {
    if acc != [] && acc[0].key != e.key {
      AddTotal(acc[1..], e, k);
      assert Add(acc, e)[1..] == Add(acc[1..], e);
    }
  }

  lemma {:induction false} AddDistinct<K>(acc: seq<Entry<K>>, e: Entry<K>)
    requires DistinctKeys(acc)
    ensures DistinctKeys(Add(acc, e))
  {
    if acc == [] {
      DistinctCons(e, []);
      assert [e] + [] == [e];
    } else {
      assert acc == [acc[0]] + acc[1..];
      DistinctCons(acc[0], acc[1..]);
      if acc[0].key == e.key {
        DistinctCons(Entry(e.key, acc[0].value + e.value), acc[1..]);
      } else {
        AddDistinct(acc[1..], e);
        DistinctCons(acc[0], Add(acc[1..], e));
      }
    }
  }

  /** A table with a row in front has distinct keys iff the row's key is new and the
      rest has distinct keys. */
  lemma DistinctCons<K>(x: Entry<K>, s: seq<Entry<K>>)
    ensures DistinctKeys([x] + s) <==> x.key !in Keys(s) && DistinctKeys(s)
  {
    var r := [x] + s;
    assert forall i :: 0 <= i < |s| ==> r[i + 1] == s[i];
    if DistinctKeys(r) {
      forall i | 0 <= i < |s| ensures s[i].key != x.key {
        assert r[0] == x && r[i + 1] == s[i];
        assert r[0].key != r[i + 1].key;
      }
      forall i, j | 0 <= i < j < |s| ensures s[i].key != s[j].key {
        assert r[i + 1] == s[i] && r[j + 1] == s[j];
      }
    }
    if x.key !in Keys(s) && DistinctKeys(s) {
      forall i, j | 0 <= i < j < |r| ensures r[i].key != r[j].key {
        if i == 0 {
          assert r[j] == s[j - 1];
        } else {
          assert r[i] == s[i - 1] && r[j] == s[j - 1];
        }
      }
    }
  }

  /** Grouped sum: one row per key, holding the sum of the values of that key. */
  function GroupSum<K(==,!new)>(rows: seq<Entry<K>>): (r: seq<Entry<K>>)
    ensures DistinctKeys(r)
    ensures Keys(r) == Keys(rows)
    ensures forall k :: Total(r, k) == Total(rows, k)
    ensures SumValues(r) == SumValues(rows)
  {
    if rows == [] then []
    else
      var rest := GroupSum(rows[1..]);
      AddDistinct(rest, rows[0]);
      forall k ensures Total(Add(rest, rows[0]), k) == Total(rows, k) {
        AddTotal(rest, rows[0], k);
      }
      Add(rest, rows[0])
  }

  /** In a table with distinct keys, the total of a key is the value of its row. */
  lemma {:induction false} TotalOfDistinct<K>(rows: seq<Entry<K>>, i: nat)
    requires DistinctKeys(rows)
    requires i < |rows|
    ensures Total(rows, rows[i].key) == rows[i].value
  {
    if i == 0 {
      TotalAbsent(rows[1..], rows[0].key);
    } else {
      TotalOfDistinct(rows[1..], i - 1);
    }
  }

  /** A key that does not occur totals 0. */
  lemma {:induction false} TotalAbsent<K>(rows: seq<Entry<K>>, k: K)
    requires k !in Keys(rows)
    ensures Total(rows, k) == 0
  {
    if rows != [] {
      TotalAbsent(rows[1..], k);
    }
  }

  /** Every row of a grouped sum holds the sum of the input values of its key. */
  lemma GroupSumRow<K(!new)>(rows: seq<Entry<K>>, i: nat)
    requires i < |GroupSum(rows)|
    ensures GroupSum(rows)[i].value == Total(rows, GroupSum(rows)[i].key)
  {
    TotalOfDistinct(GroupSum(rows), i);
  }

  /** One row of value 1 per element: the input of a `count()` aggregation. */
  function Ones<K>(xs: seq<K>): (r: seq<Entry<K>>)
    ensures |r| == |xs|
    ensures forall i :: 0 <= i < |xs| ==> r[i] == Entry(xs[i], 1)
  {
    if xs == [] then [] else [Entry(xs[0], 1)] + Ones(xs[1..])
  }

  /** The keys of `Ones(xs)` are the elements of `xs`. */
  lemma KeysOnes<K>(xs: seq<K>, k: K)
    ensures k in Keys(Ones(xs)) <==> k in xs
  {
    if k in xs {
      var j :| 0 <= j < |xs| && xs[j] == k;
      assert Ones(xs)[j].key == k;
    }
  }

  /** Counting rows: the total of a key over `Ones(xs)` is its number of occurrences. */
  lemma {:induction false} TotalOnes<K>(xs: seq<K>, k: K)
    ensures Total(Ones(xs), k) == multiset(xs)[k]
  {
    if xs != [] {
      TotalOnes(xs[1..], k);
      assert xs == [xs[0]] + xs[1..];
      assert Ones(xs)[1..] == Ones(xs[1..]);
    }
  }

  /** The totals of a concatenation add up. */
  lemma {:induction false} TotalAppend<K>(a: seq<Entry<K>>, b: seq<Entry<K>>, k: K)
    ensures Total(a + b, k) == Total(a, k) + Total(b, k)
  {
    if a == [] {
      assert a + b == b;
    } else {
      assert (a + b)[1..] == a[1..] + b;
      TotalAppend(a[1..], b, k);
    }
  }

  /** Distinct values of a sequence (`dropDuplicates` on one column). */
  function Dedup<T(==,!new)>(xs: seq<T>): (r: seq<T>)
    ensures forall x :: x in r <==> x in xs
    ensures forall x :: multiset(r)[x] == if x in xs then 1 else 0
    ensures forall i, j :: 0 <= i < j < |r| ==> r[i] != r[j]
  {
    if xs == [] then []
    else if xs[0] in xs[1..] then Dedup(xs[1..])
    else
      assert xs == [xs[0]] + xs[1..];
      [xs[0]] + Dedup(xs[1..])
  }
}

/** `calculate_trending`: the ten most searched keywords of a period. */
module Trending {
  import opened Grouping
  import opened Search

  /** Values never increase along the sequence. */
  predicate NonIncreasing<K>(s: seq<Entry<K>>)
  {
    forall i, j :: 0 <= i < j < |s| ==> s[i].value >= s[j].value
  }

  /** Inserts `e` into a sequence, after the leading rows strictly larger: placed
      before rows of an equal value, so an earlier row stays ahead of its ties. */
  function Insert<K>(e: Entry<K>, s: seq<Entry<K>>): (r: seq<Entry<K>>)
    ensures multiset(r) == multiset(s) + multiset{e}
  {
    if s == [] then [e]
    else if s[0].value <= e.value then [e] + s
    else
      assert s == [s[0]] + s[1..];
      [s[0]] + Insert(e, s[1..])
  }

  /** The tail of a non-increasing sequence is non-increasing and bounded by its head. */
  lemma NonIncreasingTail<K>(a: Entry<K>, t: seq<Entry<K>>)
    requires NonIncreasing([a] + t)
    ensures forall j :: 0 <= j < |t| ==> t[j].value <= a.value
    ensures NonIncreasing(t)
  {
    var r := [a] + t;
    forall j | 0 <= j < |t| ensures t[j].value <= a.value {
      assert r[0] == a && r[j + 1] == t[j];
    }
    forall i, j | 0 <= i < j < |t| ensures t[i].value >= t[j].value {
      assert r[i + 1] == t[i] && r[j + 1] == t[j];
    }
  }

  /** A row no smaller than every value of a non-increasing sequence may be put in front. */
  lemma NonIncreasingPrepend<K>(a: Entry<K>, t: seq<Entry<K>>)
    requires forall j :: 0 <= j < |t| ==> t[j].value <= a.value
    requires NonIncreasing(t)
    ensures NonIncreasing([a] + t)
  {
    var r := [a] + t;
    forall i, j | 0 <= i < j < |r| ensures r[i].value >= r[j].value {
      if i > 0 {
        assert r[i] == t[i - 1] && r[j] == t[j - 1];
      } else {
        assert r[i] == a && r[j] == t[j - 1];
      }
    }
  }

  /** Inserting into a non-increasing sequence keeps it non-increasing. */
  lemma {:induction false} InsertSorted<K>(e: Entry<K>, s: seq<Entry<K>>)
    requires NonIncreasing(s)
    ensures NonIncreasing(Insert(e, s))
  {
    if s == [] {
    } else if s[0].value <= e.value {
      assert forall j :: 0 <= j < |s| ==> s[j].value <= s[0].value;
      NonIncreasingPrepend(e, s);
    } else {
      var tail := s[1..];
      var rest := Insert(e, tail);
      assert s == [s[0]] + tail;
      NonIncreasingTail(s[0], tail);
      InsertSorted(e, tail);
      forall j | 0 <= j < |rest| ensures rest[j].value <= s[0].value {
        assert rest[j] in multiset(rest);
        if rest[j] != e {
          assert rest[j] in multiset(tail);
          var q :| 0 <= q < |tail| && tail[q] == rest[j];
        }
      }
      NonIncreasingPrepend(s[0], rest);
    }
  }

  /** `orderBy('count', ascending=False)`: a non-increasing permutation. Spark does
      not fix the order of equal counts; this one keeps them in input order. */
  function SortDesc<K>(s: seq<Entry<K>>): (r: seq<Entry<K>>)
    ensures NonIncreasing(r)
    ensures multiset(r) == multiset(s)
  {
    if s == [] then []
    else
      assert s == [s[0]] + s[1..];
      InsertSorted(s[0], SortDesc(s[1..]));
      Insert(s[0], SortDesc(s[1..]))
  }

  /** Rows with equal counts keep their input order: two keywords tied at 5 come out
      as they went in. */
  lemma SortKeepsTieOrder(s: seq<Entry<string>>)
    requires s == [Entry("a", 5), Entry("b", 5)]
    ensures SortDesc(s) == s
  {
    assert s[1..] == [Entry("b", 5)];
    assert SortDesc(s[1..]) == [Entry("b", 5)];
  }

  /** The keyword column of the cleaned rows. */
  function Keywords(rows: seq<SearchRow>): (ks: seq<string>)
    ensures |ks| == |rows|
    ensures forall i :: 0 <= i < |rows| ==> ks[i] == rows[i].keyword
  {
    seq(|rows|, i requires 0 <= i < |rows| => rows[i].keyword)
  }

  /** `calculate_trending`: `groupBy('keyword').count().orderBy('count',
      ascending=False).limit(10)`: at most ten rows, counts non-increasing, no
      keyword twice. */
  function CalculateTrending(rows: seq<SearchRow>): (r: seq<Entry<string>>)
    ensures |r| <= 10
    ensures NonIncreasing(r)
    ensures DistinctKeys(r)
  {
    var counts := GroupSum(Ones(Keywords(rows)));
    SortKeepsDistinct(counts);
    Limit(SortDesc(counts), 10)
  }

  /** `limit(n)`: the first n rows, or all of them when there are fewer. */
  function Limit<K>(s: seq<Entry<K>>, n: nat): (r: seq<Entry<K>>)
    ensures |r| <= n && |r| <= |s|
    ensures |r| == n || r == s
    ensures forall q :: 0 <= q < |r| ==> r[q] == s[q]
    ensures NonIncreasing(s) ==> NonIncreasing(r)
    ensures DistinctKeys(s) ==> DistinctKeys(r)
  {
    if |s| <= n then s else s[..n]
  }

  /** Each listed count is the number of searches of its keyword. */
  lemma TrendingCounts(rows: seq<SearchRow>, i: nat)
    requires i < |CalculateTrending(rows)|
    ensures CalculateTrending(rows)[i].value == multiset(Keywords(rows))[CalculateTrending(rows)[i].key] > 0
  {
    var ks := Keywords(rows);
    var counts := GroupSum(Ones(ks));
    var sorted := SortDesc(counts);
    assert CalculateTrending(rows)[i] == sorted[i];
    assert sorted[i] in multiset(counts);
    var j :| 0 <= j < |counts| && counts[j] == sorted[i];
    GroupSumRow(Ones(ks), j);
    TotalOnes(ks, counts[j].key);
    KeysOnes(ks, counts[j].key);
  }

  /** A keyword left out of the list was searched no more often than the tenth. */
  lemma TrendingOmitted(rows: seq<SearchRow>, k: string)
    requires k in Keywords(rows) && k !in Keys(CalculateTrending(rows))
    ensures |CalculateTrending(rows)| == 10 && multiset(Keywords(rows))[k] <= CalculateTrending(rows)[9].value
  {
    var ks := Keywords(rows);
    var counts := GroupSum(Ones(ks));
    var sorted := SortDesc(counts);
    assert CalculateTrending(rows) == Limit(sorted, 10);
    KeysOnes(ks, k);
    var j :| 0 <= j < |counts| && counts[j].key == k;
    GroupSumRow(Ones(ks), j);
    TotalOnes(ks, k);
    assert counts[j] in multiset(sorted);
    var p :| 0 <= p < |sorted| && sorted[p] == counts[j];
    LimitOmits(sorted, 10, p);
  }

  /** A row of a non-increasing sequence that `limit(n)` leaves out means the limit
      is full and the row is no larger than its last one. */
  lemma LimitOmits<K>(s: seq<Entry<K>>, n: nat, p: nat)
    requires 0 < n && NonIncreasing(s) && p < |s| && s[p].key !in Keys(Limit(s, n))
    ensures |Limit(s, n)| == n && s[p].value <= Limit(s, n)[n - 1].value
  {
    var top := Limit(s, n);
    assert forall q :: 0 <= q < |top| ==> top[q] == s[q] && top[q].key in Keys(top);
    assert p >= |top|;
    assert s[p].key in Keys(s);
    assert |top| == n;
    assert top[n - 1] == s[n - 1];
  }

  lemma {:induction false} InsertKeys<K>(e: Entry<K>, s: seq<Entry<K>>)
    ensures Keys(Insert(e, s)) == Keys(s) + {e.key}
  {
    if s != [] && s[0].value > e.value {
      InsertKeys(e, s[1..]);
      assert Insert(e, s)[1..] == Insert(e, s[1..]);
    }
  }

  lemma {:induction false} InsertDistinct<K>(e: Entry<K>, s: seq<Entry<K>>)
    requires DistinctKeys(s) && e.key !in Keys(s)
    ensures DistinctKeys(Insert(e, s))
  {
    if s == [] {
      DistinctCons(e, []);
      assert [e] + [] == [e];
    } else if s[0].value <= e.value {
      DistinctCons(e, s);
    } else {
      assert s == [s[0]] + s[1..];
      DistinctCons(s[0], s[1..]);
      InsertDistinct(e, s[1..]);
      InsertKeys(e, s[1..]);
      DistinctCons(s[0], Insert(e, s[1..]));
    }
  }

  /** Sorting keeps the keys of a grouped table, and keeps them distinct. */
  lemma {:induction false} SortKeepsDistinct<K>(s: seq<Entry<K>>)
    requires DistinctKeys(s)
    ensures Keys(SortDesc(s)) == Keys(s)
    ensures DistinctKeys(SortDesc(s))
  {
    if s != [] {
      assert s == [s[0]] + s[1..];
      DistinctCons(s[0], s[1..]);
      SortKeepsDistinct(s[1..]);
      InsertKeys(s[0], SortDesc(s[1..]));
      InsertDistinct(s[0], SortDesc(s[1..]));
    }
  }
}

/** Spark's `rank().over(Window.partitionBy(P).orderBy(desc(value)))` followed by
    `filter(rank == 1)`, over a grouped table whose key is a (partition, item) pair. */
module Ranking {
  import opened Grouping

  /** Number of rows of partition `p` whose value is strictly greater than `v`. */
  function CountAbove<P(==), I>(rows: seq<Entry<(P, I)>>, p: P, v: int): nat
  {
    if rows == [] then 0
    else (if rows[0].key.0 == p && rows[0].value > v then 1 else 0) + CountAbove(rows[1..], p, v)
  }

  /** Standard competition rank under descending order: one more than the number
      of rows of the same partition that sort strictly before this one. Ties share a rank. */
  function Rank<P(==), I>(rows: seq<Entry<(P, I)>>, r: Entry<(P, I)>): (n: nat)
    ensures n >= 1
  {
    1 + CountAbove(rows, r.key.0, r.value)
  }

  /** The largest value in partition `p`. */
  function MaxIn<P(==), I>(rows: seq<Entry<(P, I)>>, p: P): (m: int)
    requires exists i :: 0 <= i < |rows| && rows[i].key.0 == p
    ensures exists i :: 0 <= i < |rows| && rows[i].key.0 == p && rows[i].value == m
    ensures forall i :: 0 <= i < |rows| && rows[i].key.0 == p ==> rows[i].value <= m
  {
    if rows[0].key.0 == p && !(exists i :: 1 <= i < |rows| && rows[i].key.0 == p) then
      rows[0].value
    else if rows[0].key.0 != p then
      assert exists i :: 0 <= i < |rows[1..]| && rows[1..][i].key.0 == p by {
        var i :| 0 <= i < |rows| && rows[i].key.0 == p;
        assert rows[1..][i - 1] == rows[i];
      }
      MaxIn(rows[1..], p)
    else
      assert exists i :: 0 <= i < |rows[1..]| && rows[1..][i].key.0 == p by {
        var i :| 1 <= i < |rows| && rows[i].key.0 == p;
        assert rows[1..][i - 1] == rows[i];
      }
      var m := MaxIn(rows[1..], p);
      assert forall i :: 1 <= i < |rows| ==> rows[i] == rows[1..][i - 1];
      if rows[0].value > m then rows[0].value else m
  }

  /** A row has rank 1 exactly when no row of its partition has a greater value. */
  lemma {:induction false} CountAboveZero<P, I>(rows: seq<Entry<(P, I)>>, p: P, v: int)
    ensures CountAbove(rows, p, v) == 0 <==>
            forall i :: 0 <= i < |rows| && rows[i].key.0 == p ==> rows[i].value <= v
  {
    if rows != [] {
      CountAboveZero(rows[1..], p, v);
      assert forall i :: 1 <= i < |rows| ==> rows[i] == rows[1..][i - 1];
    }
  }

  /** The rows of `rest` whose rank within `all` is 1, in order. */
  function KeepRankOne<P(==,!new), I(==,!new)>(all: seq<Entry<(P, I)>>, rest: seq<Entry<(P, I)>>): (r: seq<Entry<(P, I)>>)
    ensures forall x :: x in r <==> x in rest && Rank(all, x) == 1
  {
    if rest == [] then []
    else if Rank(all, rest[0]) == 1 then [rest[0]] + KeepRankOne(all, rest[1..])
    else KeepRankOne(all, rest[1..])
  }

  /** `filter(rank == 1)`: every row tied for the maximum of its partition is kept. */
  function RankOne<P(==,!new), I(==,!new)>(rows: seq<Entry<(P, I)>>): (r: seq<Entry<(P, I)>>)
    ensures forall x :: x in r <==>
      x in rows && forall y :: y in rows && y.key.0 == x.key.0 ==> y.value <= x.value
  {
    forall x | x in rows
      ensures Rank(rows, x) == 1 <==> forall y :: y in rows && y.key.0 == x.key.0 ==> y.value <= x.value
    {
      CountAboveZero(rows, x.key.0, x.value);
    }
    KeepRankOne(rows, rows)
  }

  /** A row survives rank-1 selection iff its value is the maximum of its partition. */
  lemma RankOneIsMax<P(!new), I(!new)>(rows: seq<Entry<(P, I)>>, x: Entry<(P, I)>)
    requires x in rows
    ensures x in RankOne(rows) <==> x.value == MaxIn(rows, x.key.0)
  {
    var i :| 0 <= i < |rows| && rows[i] == x;
    CountAboveZero(rows, x.key.0, x.value);
  }

  /** Rank-1 selection drops no partition: each one keeps at least one row. */
  lemma RankOneCoversPartitions<P(!new), I(!new)>(rows: seq<Entry<(P, I)>>, p: P)
    requires exists i :: 0 <= i < |rows| && rows[i].key.0 == p
    ensures exists x :: x in RankOne(rows) && x.key.0 == p
  {
    var m := MaxIn(rows, p);
    var i :| 0 <= i < |rows| && rows[i].key.0 == p && rows[i].value == m;
    RankOneIsMax(rows, rows[i]);
  }

  /** No row of `e`'s partition has a greater value than `e`. */
  predicate AtMax<P(==), I(==)>(rows: seq<Entry<(P, I)>>, e: Entry<(P, I)>)
  {
    forall y :: y in rows && y.key.0 == e.key.0 ==> y.value <= e.value
  }

  /** The (partition, item) keys of the rows that survive rank-1 selection. */
  function TopKeys<P(==,!new), I(==,!new)>(rows: seq<Entry<(P, I)>>): (r: seq<(P, I)>)
    ensures forall p, i :: (p, i) in r <==> exists e :: e in rows && e.key == (p, i) && AtMax(rows, e)
  {
    var top := RankOne(rows);
    var r := seq(|top|, j requires 0 <= j < |top| => top[j].key);
    assert forall p, i :: (p, i) in r ==> exists e :: e in top && e.key == (p, i) by {
      forall p, i | (p, i) in r ensures exists e :: e in top && e.key == (p, i) {
        var j :| 0 <= j < |r| && r[j] == (p, i);
        assert top[j] in top;
      }
    }
    assert forall e :: e in top ==> e.key in r by {
      forall e | e in top ensures e.key in r {
        var j :| 0 <= j < |top| && top[j] == e;
        assert r[j] == e.key;
      }
    }
    r
  }
}

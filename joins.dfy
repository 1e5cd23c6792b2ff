/** Spark's full outer join (`how='outer'` / `'full'`) of two tables on one key
    column, with the key coalesced from whichever side has it. */
module Joins {
  import opened Wrappers

  /** One output row: the key, the left row's value (null when the key had no left row)
      and the right row's value (null when it had no right row). */
  datatype Joined<K, A, B> = Joined(key: K, left: Option<A>, right: Option<B>)

  predicate HasKey<K(==), V>(rows: seq<(K, V)>, k: K)
  {
    exists i :: 0 <= i < |rows| && rows[i].0 == k
  }

  /** The left row `(k, a)` joined with every right row of key `k`. */
  function MatchRight<K(==,!new), A(==,!new), B(==,!new)>(k: K, a: A, right: seq<(K, B)>): (r: seq<Joined<K, A, B>>)
    ensures forall x :: x in r <==> x.key == k && x.left == Some(a) && x.right.Some? && (k, x.right.value) in right
  {
    if right == [] then []
    else if right[0].0 == k then [Joined(k, Some(a), Some(right[0].1))] + MatchRight(k, a, right[1..])
    else MatchRight(k, a, right[1..])
  }

  /** Every left row, matched with the right side or padded with a null. */
  function LeftSide<K(==,!new), A(==,!new), B(==,!new)>(left: seq<(K, A)>, right: seq<(K, B)>): (r: seq<Joined<K, A, B>>)
    ensures forall x :: x in r <==>
      x.left.Some? && (x.key, x.left.value) in left &&
      ((x.right.Some? && (x.key, x.right.value) in right) || (x.right.None? && !HasKey(right, x.key)))
  {
    if left == [] then []
    else
      var (k, a) := left[0];
      var here := if HasKey(right, k) then MatchRight(k, a, right) else [Joined(k, Some(a), None)];
      assert forall x :: x in here <==> (x.key == k && x.left == Some(a) &&
        ((x.right.Some? && (k, x.right.value) in right) || (x.right.None? && !HasKey(right, k)))) by {
        if HasKey(right, k) {
          var i :| 0 <= i < |right| && right[i].0 == k;
          assert right[i] in right;
        }
      }
      here + LeftSide(left[1..], right)
  }

  /** The right rows whose key has no left row, padded with a null on the left. */
  function RightOnly<K(==,!new), A(==,!new), B(==,!new)>(left: seq<(K, A)>, right: seq<(K, B)>): (r: seq<Joined<K, A, B>>)
    ensures forall x :: x in r <==> x.left.None? && x.right.Some? && (x.key, x.right.value) in right && !HasKey(left, x.key)
  {
    if right == [] then []
    else
      var (k, b) := right[0];
      var here := if HasKey(left, k) then [] else [Joined(k, None, Some(b))];
      here + RightOnly(left, right[1..])
  }

  /** The rows a full outer join produces: a left and a right row with equal keys,
      or a row of one side whose key the other side lacks, padded with a null. */
  predicate JoinRow<K(==), A(==), B(==)>(left: seq<(K, A)>, right: seq<(K, B)>, x: Joined<K, A, B>)
  {
    || (x.left.Some? && x.right.Some? && (x.key, x.left.value) in left && (x.key, x.right.value) in right)
    || (x.left.Some? && x.right.None? && (x.key, x.left.value) in left && !HasKey(right, x.key))
    || (x.left.None? && x.right.Some? && (x.key, x.right.value) in right && !HasKey(left, x.key))
  }

  /** Full outer join: exactly the rows `JoinRow` allows, so no row is null on both
      sides, every matching pair appears and every unmatched row appears padded. */
  function FullOuterJoin<K(==,!new), A(==,!new), B(==,!new)>(left: seq<(K, A)>, right: seq<(K, B)>): (r: seq<Joined<K, A, B>>)
    ensures forall x :: x in r <==> JoinRow(left, right, x)
  {
    LeftSide(left, right) + RightOnly(left, right)
  }
}

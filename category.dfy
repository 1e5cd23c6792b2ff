/** `calculate_category` (lookup join with the 'Other' default) and
    `calculate_behavior` (change of category between two periods). */
module Category {
  import opened Wrappers
  import opened Grouping
  import opened Joins

  /** Whether some user's most-searched keyword is `k`. */
  predicate Searched(mostSearch: seq<(string, string)>, k: string)
  {
    exists i :: 0 <= i < |mostSearch| && mostSearch[i].1 == k
  }

  /** The most-search rows keyed by keyword: (Most_Search, user_id). */
  function ByKeyword(mostSearch: seq<(string, string)>): (r: seq<(string, string)>)
    ensures |r| == |mostSearch|
    ensures forall i :: 0 <= i < |r| ==> r[i] == (mostSearch[i].1, mostSearch[i].0)
    ensures forall k :: HasKey(r, k) <==> Searched(mostSearch, k)
  {
    seq(|mostSearch|, i requires 0 <= i < |mostSearch| => (mostSearch[i].1, mostSearch[i].0))
  }

  /** `fillna('Other').select('user_id', 'Category')` on each joined row. */
  function FillOther(joined: seq<Joined<string, string, string>>): (r: seq<(string, string)>)
    ensures |r| == |joined|
    ensures forall i :: 0 <= i < |r| ==> r[i] == (joined[i].right.GetOr("Other"), joined[i].left.GetOr("Other"))
  {
    seq(|joined|, i requires 0 <= i < |joined| => (joined[i].right.GetOr("Other"), joined[i].left.GetOr("Other")))
  }

  /** `calculate_category`: full outer join of the lookup table (keyword, Category)
      with the most-search rows (user_id, Most_Search) on the keyword, nulls filled
      with 'Other', then `groupBy('user_id', 'Category')`, which leaves the distinct
      pairs. The fill also gives lookup keywords nobody searched the user 'Other'. */
  function CalculateCategory(lookup: seq<(string, string)>, mostSearch: seq<(string, string)>): (r: seq<(string, string)>)
    ensures forall i, j :: 0 <= i < j < |r| ==> r[i] != r[j]
    ensures forall p :: p in r <==> p in FillOther(FullOuterJoin(lookup, ByKeyword(mostSearch)))
  {
    Dedup(FillOther(FullOuterJoin(lookup, ByKeyword(mostSearch))))
  }

  /** The three ways a (user, Category) pair arises. */
  ghost predicate CategoryPair(lookup: seq<(string, string)>, mostSearch: seq<(string, string)>, u: string, c: string)
  {
    (exists k :: (u, k) in mostSearch && (k, c) in lookup) ||
    (exists k :: (u, k) in mostSearch && !HasKey(lookup, k) && c == "Other") ||
    (u == "Other" && exists k :: (k, c) in lookup && !Searched(mostSearch, k))
  }

  /** A user gets the category of each lookup row matching one of their most-searched
      keywords, 'Other' for a keyword the lookup lacks; each unsearched lookup
      keyword yields its category for the user 'Other'. Nothing else appears. */
  lemma CategoryRows(lookup: seq<(string, string)>, mostSearch: seq<(string, string)>, u: string, c: string)
    ensures (u, c) in CalculateCategory(lookup, mostSearch) <==> CategoryPair(lookup, mostSearch, u, c)
  {
    if (u, c) in CalculateCategory(lookup, mostSearch) {
      CategoryRowSound(lookup, mostSearch, u, c);
    }
    if CategoryPair(lookup, mostSearch, u, c) {
      CategoryRowComplete(lookup, mostSearch, u, c);
    }
  }

  lemma CategoryRowSound(lookup: seq<(string, string)>, mostSearch: seq<(string, string)>, u: string, c: string)
    requires (u, c) in CalculateCategory(lookup, mostSearch)
    ensures CategoryPair(lookup, mostSearch, u, c)
  {
    var right := ByKeyword(mostSearch);
    var joined := FullOuterJoin(lookup, right);
    var filled := FillOther(joined);
    var i :| 0 <= i < |filled| && filled[i] == (u, c);
    var x := joined[i];
    assert x in joined;
    assert JoinRow(lookup, right, x);
    if x.right.Some? {
      var j :| 0 <= j < |right| && right[j] == (x.key, x.right.value);
      assert mostSearch[j] == (u, x.key);
      assert (u, x.key) in mostSearch;
    }
  }

  lemma CategoryRowComplete(lookup: seq<(string, string)>, mostSearch: seq<(string, string)>, u: string, c: string)
    requires CategoryPair(lookup, mostSearch, u, c)
    ensures (u, c) in CalculateCategory(lookup, mostSearch)
  {
    var right := ByKeyword(mostSearch);
    if exists k :: (u, k) in mostSearch && (k, c) in lookup {
      var k :| (u, k) in mostSearch && (k, c) in lookup;
      KeywordSide(mostSearch, u, k);
      JoinedListed(lookup, mostSearch, Joined(k, Some(c), Some(u)));
    } else if exists k :: (u, k) in mostSearch && !HasKey(lookup, k) && c == "Other" {
      var k :| (u, k) in mostSearch && !HasKey(lookup, k) && c == "Other";
      KeywordSide(mostSearch, u, k);
      JoinedListed(lookup, mostSearch, Joined(k, None, Some(u)));
    } else {
      var k :| (k, c) in lookup && !Searched(mostSearch, k);
      assert !HasKey(right, k);
      JoinedListed(lookup, mostSearch, Joined(k, Some(c), None));
    }
  }

  /** A most-search row (u, k) appears keyed by keyword as (k, u). */
  lemma KeywordSide(mostSearch: seq<(string, string)>, u: string, k: string)
    requires (u, k) in mostSearch
    ensures (k, u) in ByKeyword(mostSearch)
  {
    var j :| 0 <= j < |mostSearch| && mostSearch[j] == (u, k);
    assert ByKeyword(mostSearch)[j] == (k, u);
  }

  /** Every row of the join reaches the output once its nulls are filled. */
  lemma JoinedListed(lookup: seq<(string, string)>, mostSearch: seq<(string, string)>, x: Joined<string, string, string>)
    requires JoinRow(lookup, ByKeyword(mostSearch), x)
    ensures (x.right.GetOr("Other"), x.left.GetOr("Other")) in CalculateCategory(lookup, mostSearch)
  {
    var joined := FullOuterJoin(lookup, ByKeyword(mostSearch));
    assert x in joined;
    var i :| 0 <= i < |joined| && joined[i] == x;
    assert FillOther(joined)[i] == (x.right.GetOr("Other"), x.left.GetOr("Other"));
  }

  /** The Behavior_Change and Explain_Changed values of one joined row, after
      `fillna('Other')`. */
  function Compare(first: string, second: string): (r: (string, string))
    ensures r.0 == "Changed" <==> first != second
    ensures r.0 == "Unchanged" <==> first == second
    ensures first != second ==> r.1 == first + ">" + second
    ensures first == second ==> r.1 == "Unchanged"
    ensures r.1 == "Unchanged" <==> first == second
  {
    assert (first + ">" + second)[|first|] == '>' && '>' !in "Unchanged";
    var change := if first != second then "Changed" else "Unchanged";
    var explain := if change == "Changed" then first + ">" + second else "Unchanged";
    (change, explain)
  }

  /** One output row of `calculate_behavior`. */
  datatype BehaviorRow = BehaviorRow(userId: string, behaviorChange: string, explainChanged: string)

  function CompareRows(joined: seq<Joined<string, string, string>>): (r: seq<BehaviorRow>)
    ensures |r| == |joined|
    ensures forall i :: 0 <= i < |r| ==>
      var (change, explain) := Compare(joined[i].left.GetOr("Other"), joined[i].right.GetOr("Other"));
      r[i] == BehaviorRow(joined[i].key, change, explain)
  {
    seq(|joined|, i requires 0 <= i < |joined| =>
      var (change, explain) := Compare(joined[i].left.GetOr("Other"), joined[i].right.GetOr("Other"));
      BehaviorRow(joined[i].key, change, explain))
  }

  /** `calculate_behavior`: full outer join of the two periods' (user_id, Category)
      rows on user_id, then the comparison on each joined row, with 'Other' for a
      missing period. */
  function CalculateBehavior(first: seq<(string, string)>, second: seq<(string, string)>): (r: seq<BehaviorRow>)
    ensures forall i :: 0 <= i < |r| ==>
      exists x :: JoinRow(first, second, x) && r[i] == BehaviorRow(x.key, Compare(x.left.GetOr("Other"), x.right.GetOr("Other")).0, Compare(x.left.GetOr("Other"), x.right.GetOr("Other")).1)
    ensures forall i :: 0 <= i < |r| ==> HasKey(first, r[i].userId) || HasKey(second, r[i].userId)
    ensures forall i :: 0 <= i < |r| ==> (r[i].behaviorChange == "Changed" || r[i].behaviorChange == "Unchanged")
    ensures forall i :: 0 <= i < |r| ==> (r[i].behaviorChange == "Unchanged" <==> r[i].explainChanged == "Unchanged")
  {
    var joined := FullOuterJoin(first, second);
    var r := CompareRows(joined);
    forall i | 0 <= i < |r| ensures JoinRow(first, second, joined[i]) {
      assert joined[i] in joined;
    }
    forall i | 0 <= i < |r| ensures HasKey(first, r[i].userId) || HasKey(second, r[i].userId) {
      var x := joined[i];
      assert x in joined;
      assert JoinRow(first, second, x);
      if x.left.Some? {
        var j :| 0 <= j < |first| && first[j] == (x.key, x.left.value);
      } else {
        var j :| 0 <= j < |second| && second[j] == (x.key, x.right.value);
      }
    }
    r
  }

  lemma RowOfJoined(joined: seq<Joined<string, string, string>>, x: Joined<string, string, string>)
    requires x in joined
    ensures var (change, explain) := Compare(x.left.GetOr("Other"), x.right.GetOr("Other"));
      BehaviorRow(x.key, change, explain) in CompareRows(joined)
  {
    var i :| 0 <= i < |joined| && joined[i] == x;
  }

  /** The rows a user receives: the comparison of each pair of their categories, and
      'Other' standing in for a period the user is missing from. */
  lemma BehaviorOfUser(first: seq<(string, string)>, second: seq<(string, string)>, u: string, c1: string, c2: string)
    ensures (u, c1) in first && (u, c2) in second ==>
      BehaviorRow(u, Compare(c1, c2).0, Compare(c1, c2).1) in CalculateBehavior(first, second)
    ensures (u, c1) in first && !HasKey(second, u) ==>
      BehaviorRow(u, Compare(c1, "Other").0, Compare(c1, "Other").1) in CalculateBehavior(first, second)
    ensures (u, c2) in second && !HasKey(first, u) ==>
      BehaviorRow(u, Compare("Other", c2).0, Compare("Other", c2).1) in CalculateBehavior(first, second)
  {
    var joined := FullOuterJoin(first, second);
    if (u, c1) in first && (u, c2) in second {
      assert JoinRow(first, second, Joined(u, Some(c1), Some(c2)));
      RowOfJoined(joined, Joined(u, Some(c1), Some(c2)));
    }
    if (u, c1) in first && !HasKey(second, u) {
      assert JoinRow(first, second, Joined(u, Some(c1), None));
      RowOfJoined(joined, Joined(u, Some(c1), None));
    }
    if (u, c2) in second && !HasKey(first, u) {
      assert JoinRow(first, second, Joined(u, None, Some(c2)));
      RowOfJoined(joined, Joined(u, None, Some(c2)));
    }
  }
}

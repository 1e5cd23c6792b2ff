/** The search side of the batch job: `clean_data_search` and
    `calculate_most_search`. */
module Search {
  import opened Wrappers
  import opened Grouping
  import opened Ranking

  /** A raw search event (the parquet columns used). */
  datatype RawSearch = RawSearch(userId: Option<string>, keyword: Option<string>, category: Option<string>)

  /** A cleaned search row: `select('user_id', 'keyword')`. The filter leaves no null in either column. */
  datatype SearchRow = SearchRow(userId: string, keyword: string)

  /** `clean_data_search` on one file: keep the events with a keyword, a user and
      the action 'enter'. */
  function CleanSearchFile(events: seq<RawSearch>): (r: seq<SearchRow>)
    ensures |r| <= |events|
    ensures forall s :: s in r <==> RawSearch(Some(s.userId), Some(s.keyword), Some("enter")) in events
  {
    if events == [] then []
    else
      var e := events[0];
      var rest := CleanSearchFile(events[1..]);
      assert forall x :: x in events <==> x == e || x in events[1..];
      if e.keyword.Some? && e.category == Some("enter") && e.userId.Some? then
        [SearchRow(e.userId.value, e.keyword.value)] + rest
      else rest
  }

  /** The cleaned rows of every file, unioned in file order. */
  function CleanSearchAll(files: seq<seq<RawSearch>>): seq<SearchRow>
  {
    if files == [] then []
    else CleanSearchAll(files[..|files| - 1]) + CleanSearchFile(files[|files| - 1])
  }

  /** A row is in the union exactly when some file holds a matching 'enter' event. */
  lemma {:induction false} CleanSearchAllRows(files: seq<seq<RawSearch>>, s: SearchRow)
    ensures s in CleanSearchAll(files) <==>
      exists i :: 0 <= i < |files| && RawSearch(Some(s.userId), Some(s.keyword), Some("enter")) in files[i]
  {
    if files != [] {
      var prefix := files[..|files| - 1];
      CleanSearchAllRows(prefix, s);
      assert forall i :: 0 <= i < |files| - 1 ==> files[i] == prefix[i];
    }
  }

  /** The loop of `clean_data_search`: each file's filtered rows are unioned into
      the accumulated form. */
  method CleanSearch(files: seq<seq<RawSearch>>) returns (r: seq<SearchRow>)
    ensures r == CleanSearchAll(files)
  {
    var form: seq<SearchRow> := [];
    var i := 0;
    while i < |files|
      invariant 0 <= i <= |files|
      invariant form == CleanSearchAll(files[..i])
    {
      var cleaned := CleanSearchFile(files[i]);
      assert files[..i + 1][..i] == files[..i];
      form := form + cleaned;
      i := i + 1;
    }
    assert files[..i] == files;
    return form;
  }

  lemma PairsAppend(a: seq<SearchRow>, b: seq<SearchRow>)
    ensures Pairs(a + b) == Pairs(a) + Pairs(b)
  {
    var l, r := Pairs(a + b), Pairs(a) + Pairs(b);
    forall i | 0 <= i < |l| ensures l[i] == r[i] {
      if i < |a| {
        assert (a + b)[i] == a[i];
      } else {
        assert (a + b)[i] == b[i - |a|];
      }
    }
  }

  /** The filter keeps every matching event, duplicates included: user u has as many
      cleaned (u, k) rows as the file has non-null 'enter' events of u for k. */
  lemma {:induction false} CleanSearchFileCount(events: seq<RawSearch>, u: string, k: string)
    ensures Count(CleanSearchFile(events), u, k) == multiset(events)[RawSearch(Some(u), Some(k), Some("enter"))]
  {
    if events != [] {
      var e := events[0];
      var rest := CleanSearchFile(events[1..]);
      CleanSearchFileCount(events[1..], u, k);
      assert events == [e] + events[1..];
      if e.keyword.Some? && e.category == Some("enter") && e.userId.Some? {
        var row := SearchRow(e.userId.value, e.keyword.value);
        assert CleanSearchFile(events) == [row] + rest;
        PairsAppend([row], rest);
        assert Pairs([row]) == [(row.userId, row.keyword)];
      } else {
        assert CleanSearchFile(events) == rest;
        assert e != RawSearch(Some(u), Some(k), Some("enter"));
      }
    }
  }

  /** The number of non-null 'enter' events of user u for keyword k over all files. */
  function EnterCount(files: seq<seq<RawSearch>>, u: string, k: string): nat
  {
    if files == [] then 0
    else EnterCount(files[..|files| - 1], u, k) + multiset(files[|files| - 1])[RawSearch(Some(u), Some(k), Some("enter"))]
  }

  /** The union of the cleaned files holds each (u, k) once per matching event of any file. */
  lemma {:induction false} CleanSearchAllCount(files: seq<seq<RawSearch>>, u: string, k: string)
    ensures Count(CleanSearchAll(files), u, k) == EnterCount(files, u, k)
  {
    if files != [] {
      var prefix := files[..|files| - 1];
      CleanSearchAllCount(prefix, u, k);
      CleanSearchFileCount(files[|files| - 1], u, k);
      PairsAppend(CleanSearchAll(prefix), CleanSearchFile(files[|files| - 1]));
    }
  }

  function Pairs(rows: seq<SearchRow>): (r: seq<(string, string)>)
    ensures |r| == |rows|
    ensures forall i :: 0 <= i < |rows| ==> r[i] == (rows[i].userId, rows[i].keyword)
  {
    seq(|rows|, i requires 0 <= i < |rows| => (rows[i].userId, rows[i].keyword))
  }

  /** How many times user `u` searched keyword `k`. */
  function Count(rows: seq<SearchRow>, u: string, k: string): nat
  {
    multiset(Pairs(rows))[(u, k)]
  }

  /** `groupBy('user_id', 'keyword').count()`: one row per pair that was searched,
      and no pair twice. */
  function Counts(rows: seq<SearchRow>): (r: seq<Entry<(string, string)>>)
    ensures DistinctKeys(r)
    ensures forall u, k :: (u, k) in Keys(r) <==> Count(rows, u, k) > 0
  {
    var pairs := Pairs(rows);
    var r := GroupSum(Ones(pairs));
    forall u, k ensures (u, k) in Keys(r) <==> Count(rows, u, k) > 0 {
      KeysOnes(pairs, (u, k));
      assert (u, k) in pairs <==> (u, k) in multiset(pairs);
    }
    r
  }

  /** Each row of the count table holds the number of searches of its pair, which is positive. */
  lemma CountsRow(rows: seq<SearchRow>, j: nat)
    requires j < |Counts(rows)|
    ensures Counts(rows)[j].value == Count(rows, Counts(rows)[j].key.0, Counts(rows)[j].key.1) > 0
  {
    var e := Counts(rows)[j];
    GroupSumRow(Ones(Pairs(rows)), j);
    TotalOnes(Pairs(rows), e.key);
    KeysOnes(Pairs(rows), e.key);
  }

  /** A pair that was searched has a row in the count table. */
  lemma CountsHasPair(rows: seq<SearchRow>, u: string, k: string)
    requires Count(rows, u, k) > 0
    ensures exists j :: 0 <= j < |Counts(rows)| && Counts(rows)[j].key == (u, k)
  {
    assert (u, k) in multiset(Pairs(rows));
    KeysOnes(Pairs(rows), (u, k));
    assert (u, k) in Keys(Counts(rows));
  }

  /** `calculate_most_search`: rank each user's keywords by count and keep rank 1,
      as (user_id, Most_Search) rows. Its final null-keyword filter removes nothing:
      the cleaning left no null keyword. */
  function MostSearch(rows: seq<SearchRow>): (r: seq<(string, string)>)
    ensures forall u, k :: (u, k) in r ==> Count(rows, u, k) > 0
  {
    var counts := Counts(rows);
    var r := TopKeys(counts);
    forall u, k | (u, k) in r ensures Count(rows, u, k) > 0 {
      var e :| e in counts && e.key == (u, k) && AtMax(counts, e);
      var j :| 0 <= j < |counts| && counts[j] == e;
      assert (u, k) in Keys(counts);
    }
    r
  }

  /** A (user, keyword) pair is a most-searched row iff the user searched it and no
      keyword of that user was searched more often: every tied maximum is kept. */
  lemma MostSearchIsTop(rows: seq<SearchRow>, u: string, k: string)
    ensures (u, k) in MostSearch(rows) <==>
      Count(rows, u, k) > 0 && forall k' :: Count(rows, u, k') <= Count(rows, u, k)
  {
    if (u, k) in MostSearch(rows) {
      MostSearchTop(rows, u, k);
    }
    if Count(rows, u, k) > 0 && forall k' :: Count(rows, u, k') <= Count(rows, u, k) {
      TopIsMostSearch(rows, u, k);
    }
  }

  lemma MostSearchTop(rows: seq<SearchRow>, u: string, k: string)
    requires (u, k) in MostSearch(rows)
    ensures Count(rows, u, k) > 0 && forall k' :: Count(rows, u, k') <= Count(rows, u, k)
  {
    var counts := Counts(rows);
    var e :| e in counts && e.key == (u, k) && forall y :: y in counts && y.key.0 == u ==> y.value <= e.value;
    var j :| 0 <= j < |counts| && counts[j] == e;
    CountsRow(rows, j);
    forall k' ensures Count(rows, u, k') <= Count(rows, u, k) {
      if Count(rows, u, k') > 0 {
        CountsHasPair(rows, u, k');
        var j' :| 0 <= j' < |counts| && counts[j'].key == (u, k');
        CountsRow(rows, j');
        assert counts[j'] in counts;
      }
    }
  }

  lemma TopIsMostSearch(rows: seq<SearchRow>, u: string, k: string)
    requires Count(rows, u, k) > 0 && forall k' :: Count(rows, u, k') <= Count(rows, u, k)
    ensures (u, k) in MostSearch(rows)
  {
    var counts := Counts(rows);
    CountsHasPair(rows, u, k);
    var j :| 0 <= j < |counts| && counts[j].key == (u, k);
    CountsRow(rows, j);
    forall y | y in counts && y.key.0 == u ensures y.value <= counts[j].value {
      var j' :| 0 <= j' < |counts| && counts[j'] == y;
      CountsRow(rows, j');
    }
    assert counts[j] in counts;
  }
}

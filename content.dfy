/** The content-viewing side of the batch job: `clean_data_content`, the union of
    the per-file cleaned tables and the per-(Contract, Type) sum in `main`,
    `calculate_most_watch`, `calculate_iqr` (bucketing step) and
    `calculate_clinginess`. */
module Content {
  import opened Wrappers
  import opened Grouping
  import opened Ranking
  import opened Joins

  /** The `Type` column: five content categories, or the `'Error'` marker. */
  datatype ContentType = TruyenHinh | PhimTruyen | GiaiTri | ThieuNhi | TheThao | Error
  {
    /** The string stored in the `Type` column. */
    function Name(): string {
      match this
      case TruyenHinh => "Truyền_Hình"
      case PhimTruyen => "Phim_Truyện"
      case GiaiTri => "Giải_Trí"
      case ThieuNhi => "Thiếu_Nhi"
      case TheThao => "Thể_Thao"
      case Error => "Error"
    }
  }

  /** The AppName values that map to each category (a reference table). */
  function AppsOf(t: ContentType): set<string>
  {
    match t
    case TruyenHinh => {"CHANNEL", "DSHD", "KPLUS", "KPlus"}
    case PhimTruyen => {"VOD_RES", "FIMS", "BHD", "DANET"}
    case GiaiTri => {"RELAX"}
    case ThieuNhi => {"CHILD"}
    case TheThao => {"SPORT"}
    case Error => {}
  }

  /** The `when(...).otherwise('Error')` chain on AppName. A null AppName makes
      every comparison null, so it falls through to `otherwise`. */
  function Classify(app: Option<string>): (t: ContentType)
    ensures t == Error <==> (app.None? ||
      app.value !in AppsOf(TruyenHinh) + AppsOf(PhimTruyen) + AppsOf(GiaiTri) + AppsOf(ThieuNhi) + AppsOf(TheThao))
    ensures t != Error ==> app.value in AppsOf(t)
  {
    if app.None? then Error
    else
      var a := app.value;
      if a == "CHANNEL" || a == "DSHD" || a == "KPLUS" || a == "KPlus" then TruyenHinh
      else if a == "VOD_RES" || a == "FIMS" || a == "BHD" || a == "DANET" then PhimTruyen
      else if a == "RELAX" then GiaiTri
      else if a == "CHILD" then ThieuNhi
      else if a == "SPORT" then TheThao
      else Error
  }

  /** A raw viewing event (the `_source` fields used). */
  datatype RawView = RawView(contract: string, appName: Option<string>, totalDuration: int)

  /** A cleaned row: `select('Contract', 'Type', 'TotalDuration')`. */
  datatype Viewing = Viewing(contract: string, ctype: ContentType, totalDuration: int)

  /** `filter((TotalDuration >= 0) | (Contract != '0'))`: a disjunction, so a
      negative duration survives whenever the contract is not '0'. */
  predicate PassesFilter(contract: string, duration: int)
  {
    duration >= 0 || contract != "0"
  }

  /** `clean_data_content` on the rows of one file. */
  function CleanContent(file: seq<RawView>): (r: seq<Viewing>)
    ensures |r| <= |file|
    ensures forall v :: v in r <==>
      v.ctype != Error && PassesFilter(v.contract, v.totalDuration) &&
      exists x :: x in file && x.contract == v.contract && x.totalDuration == v.totalDuration &&
                  Classify(x.appName) == v.ctype
  {
    if file == [] then []
    else
      var x := file[0];
      var t := Classify(x.appName);
      var rest := CleanContent(file[1..]);
      assert forall y :: y in file[1..] ==> y in file;
      assert forall y :: y in file ==> y == x || y in file[1..];
      if t != Error && PassesFilter(x.contract, x.totalDuration) then
        [Viewing(x.contract, t, x.totalDuration)] + rest
      else rest
  }

  /** Cleaned rows of every file, unioned in file order. */
  function CleanAll(files: seq<seq<RawView>>): (r: seq<Viewing>)
    ensures forall v :: v in r ==> v.ctype != Error && PassesFilter(v.contract, v.totalDuration)
  {
    if files == [] then []
    else CleanAll(files[..|files| - 1]) + CleanContent(files[|files| - 1])
  }

  /** Every cleaned row of every file is in the union. */
  lemma {:induction false} CleanAllContains(files: seq<seq<RawView>>, i: nat, v: Viewing)
    requires i < |files| && v in CleanContent(files[i])
    ensures v in CleanAll(files)
  {
    if i < |files| - 1 {
      var prefix := files[..|files| - 1];
      assert prefix[i] == files[i];
      CleanAllContains(prefix, i, v);
    }
  }

  /** The union holds exactly the cleaned rows of the files. */
  lemma {:induction false} CleanAllRows(files: seq<seq<RawView>>, v: Viewing)
    ensures v in CleanAll(files) <==> exists i :: 0 <= i < |files| && v in CleanContent(files[i])
  {
    if files != [] {
      var prefix := files[..|files| - 1];
      CleanAllRows(prefix, v);
      assert forall i :: 0 <= i < |prefix| ==> prefix[i] == files[i];
      if v in CleanAll(files) && v !in CleanContent(files[|files| - 1]) {
        var i :| 0 <= i < |prefix| && v in CleanContent(prefix[i]);
        assert v in CleanContent(files[i]);
      }
      if exists i :: 0 <= i < |files| && v in CleanContent(files[i]) {
        var i :| 0 <= i < |files| && v in CleanContent(files[i]);
        CleanAllContains(files, i, v);
      }
    }
  }

  /** The filter is a disjunction: a row of a real category survives whatever its
      duration, negative included, as long as its contract is not '0'. */
  lemma NegativeDurationKept(file: seq<RawView>, i: nat)
    requires i < |file| && file[i].contract != "0" && Classify(file[i].appName) != Error
    ensures Viewing(file[i].contract, Classify(file[i].appName), file[i].totalDuration) in CleanContent(file)
  {
    assert file[i] in file;
  }

  /** The loop in `main`: the first file's cleaned table is the form the others
      are unioned into. `files[0]` on an empty listing raises, modelled as `None`. */
  method UnionCleaned(files: seq<seq<RawView>>) returns (r: Option<seq<Viewing>>)
    ensures files == [] <==> r.None?
    ensures r.Some? ==> r.value == CleanAll(files)
  {
    if files == [] {
      return None;
    }
    var form := CleanContent(files[0]);
    assert files[..1] == [files[0]];
    assert CleanAll(files[..1]) == CleanAll([]) + CleanContent(files[0]);
    var i := 1;
    while i < |files|
      invariant 1 <= i <= |files|
      invariant form == CleanAll(files[..i])
    {
      var cleaned := CleanContent(files[i]);
      assert files[..i + 1][..i] == files[..i];
      form := form + cleaned;
      i := i + 1;
    }
    assert files[..i] == files;
    return Some(form);
  }

  /** The rows of the grouped sum: key (Contract, Type), value TotalDuration. */
  function DurationEntries(rows: seq<Viewing>): (r: seq<Entry<(string, ContentType)>>)
    ensures |r| == |rows|
    ensures forall i :: 0 <= i < |rows| ==> r[i] == Entry((rows[i].contract, rows[i].ctype), rows[i].totalDuration)
  {
    seq(|rows|, i requires 0 <= i < |rows| => Entry((rows[i].contract, rows[i].ctype), rows[i].totalDuration))
  }

  lemma DurationEntriesAppend(a: seq<Viewing>, b: seq<Viewing>)
    ensures DurationEntries(a + b) == DurationEntries(a) + DurationEntries(b)
  {
    var l, r := DurationEntries(a + b), DurationEntries(a) + DurationEntries(b);
    assert |l| == |r|;
    forall i | 0 <= i < |l| ensures l[i] == r[i] {
      if i < |a| {
        assert (a + b)[i] == a[i];
      } else {
        assert (a + b)[i] == b[i - |a|];
      }
    }
  }

  /** The duration a raw file contributes to the pair (c, t): the sum of the
      durations of its rows with contract c whose AppName maps to the category t
      and which pass the filter. An 'Error' type collects nothing. */
  function RawTotal(file: seq<RawView>, c: string, t: ContentType): int
  {
    if file == [] then 0
    else
      var x := file[0];
      var counted := x.contract == c && t != Error && Classify(x.appName) == t && PassesFilter(c, x.totalDuration);
      (if counted then x.totalDuration else 0) + RawTotal(file[1..], c, t)
  }

  /** `RawTotal` over all files. */
  function RawTotalAll(files: seq<seq<RawView>>, c: string, t: ContentType): int
  {
    if files == [] then 0
    else RawTotalAll(files[..|files| - 1], c, t) + RawTotal(files[|files| - 1], c, t)
  }

  /** Cleaning one file keeps every counted row, duplicates included: the cleaned
      durations of (c, t) add up to the raw file's total for (c, t). */
  lemma {:induction false} CleanContentTotal(file: seq<RawView>, c: string, t: ContentType)
    ensures Total(DurationEntries(CleanContent(file)), (c, t)) == RawTotal(file, c, t)
  {
    if file != [] {
      var x := file[0];
      var rest := CleanContent(file[1..]);
      CleanContentTotal(file[1..], c, t);
      var u := Classify(x.appName);
      if u != Error && PassesFilter(x.contract, x.totalDuration) {
        var v := Viewing(x.contract, u, x.totalDuration);
        assert CleanContent(file) == [v] + rest;
        DurationEntriesAppend([v], rest);
        TotalAppend(DurationEntries([v]), DurationEntries(rest), (c, t));
        assert DurationEntries([v]) == [Entry((x.contract, u), x.totalDuration)];
      } else {
        assert CleanContent(file) == rest;
      }
    }
  }

  /** The union of the cleaned files carries, for every (c, t), the raw total of all files. */
  lemma {:induction false} CleanAllTotal(files: seq<seq<RawView>>, c: string, t: ContentType)
    ensures Total(DurationEntries(CleanAll(files)), (c, t)) == RawTotalAll(files, c, t)
  {
    if files != [] {
      var prefix := files[..|files| - 1];
      CleanAllTotal(prefix, c, t);
      CleanContentTotal(files[|files| - 1], c, t);
      DurationEntriesAppend(CleanAll(prefix), CleanContent(files[|files| - 1]));
      TotalAppend(DurationEntries(CleanAll(prefix)), DurationEntries(CleanContent(files[|files| - 1])), (c, t));
    }
  }

  /** `groupBy('Contract', 'Type').sum()` (main, lines 188-189): one row per pair that
      occurs, holding the sum of that pair's durations; nothing is lost or invented. */
  function SumDurations(rows: seq<Viewing>): (r: seq<Entry<(string, ContentType)>>)
    ensures DistinctKeys(r)
    ensures forall c, t :: (c, t) in Keys(r) <==> exists v :: v in rows && v.contract == c && v.ctype == t
    ensures forall i :: 0 <= i < |r| ==> r[i].value == Total(DurationEntries(rows), r[i].key)
    ensures SumValues(r) == SumValues(DurationEntries(rows))
  {
    var entries := DurationEntries(rows);
    var r := GroupSum(entries);
    forall i | 0 <= i < |r| ensures r[i].value == Total(entries, r[i].key) {
      GroupSumRow(entries, i);
    }
    forall c, t | (c, t) in Keys(r) ensures exists v :: v in rows && v.contract == c && v.ctype == t {
      var j :| 0 <= j < |entries| && entries[j].key == (c, t);
      assert rows[j] in rows;
    }
    forall v | v in rows ensures (v.contract, v.ctype) in Keys(r) {
      var j :| 0 <= j < |rows| && rows[j] == v;
      assert entries[j].key == (v.contract, v.ctype);
    }
    r
  }

  /** Each row of the summed table holds the sum of the raw durations of its
      contract and category over all files, counting only rows that pass the filter. */
  lemma SummedDuration(files: seq<seq<RawView>>, i: nat)
    requires i < |SumDurations(CleanAll(files))|
    ensures var e := SumDurations(CleanAll(files))[i];
      e.value == RawTotalAll(files, e.key.0, e.key.1)
  {
    var e := SumDurations(CleanAll(files))[i];
    CleanAllTotal(files, e.key.0, e.key.1);
  }

  /** `calculate_most_watch`: the (Contract, Type) pairs ranked 1 within their
      contract by descending total duration. Every tied maximum is emitted. */
  function MostWatch(summary: seq<Entry<(string, ContentType)>>): (r: seq<(string, ContentType)>)
    ensures forall c, t :: (c, t) in r <==> exists e :: e in summary && e.key == (c, t) && AtMax(summary, e)
  {
    TopKeys(summary)
  }

  /** Every contract of the summary has at least one most-watched row. */
  lemma MostWatchCoversContracts(summary: seq<Entry<(string, ContentType)>>, c: string)
    requires exists e :: e in summary && e.key.0 == c
    ensures exists t :: (c, t) in MostWatch(summary)
  {
    var e :| e in summary && e.key.0 == c;
    var i :| 0 <= i < |summary| && summary[i] == e;
    RankOneCoversPartitions(summary, c);
    var x :| x in RankOne(summary) && x.key.0 == c;
    assert x in summary && forall y :: y in summary && y.key.0 == c ==> y.value <= x.value;
    assert x.key == (c, x.key.1);
    assert (c, x.key.1) in TopKeys(summary);
  }

  /** An account with TV 100, movies 100 and kids 50 gets two most-watched rows. */
  lemma MostWatchKeepsTies(s: seq<Entry<(string, ContentType)>>)
    requires s == [Entry(("A", TruyenHinh), 100), Entry(("A", PhimTruyen), 100), Entry(("A", ThieuNhi), 50)]
    ensures ("A", TruyenHinh) in MostWatch(s) && ("A", PhimTruyen) in MostWatch(s)
    ensures ("A", ThieuNhi) !in MostWatch(s)
  {
    forall y | y in s ensures y.value <= 100 {
      assert y == s[0] || y == s[1] || y == s[2];
    }
    assert s[0] in s && AtMax(s, s[0]);
    assert s[1] in s && AtMax(s, s[1]);
    forall e | e in s && e.key == ("A", ThieuNhi) ensures !AtMax(s, e) {
      assert e == s[2];
      assert s[0] in s && s[0].key.0 == e.key.0 && s[0].value > e.value;
    }
  }

  /** The `IQR_Type` column. */
  datatype Bucket = Lower | Middle | Upper

  /** `when(d < q1, 'lower').when(d > q3, 'upper').otherwise('middle')`. */
  function Classification(d: int, q1: int, q3: int): (b: Bucket)
    ensures b == Lower <==> d < q1
    ensures b == Upper <==> q1 <= d && q3 < d
    ensures b == Middle <==> q1 <= d <= q3
  {
    if d < q1 then Lower else if d > q3 then Upper else Middle
  }

  /** The buckets the comment above `calculate_iqr` assigns, read literally:
      lower when q1 < d, middle when q1 <= d <= q3, upper when d < q3. */
  function DocstringBuckets(d: int, q1: int, q3: int): set<Bucket>
  {
    (if q1 < d then {Lower} else {}) + (if q1 <= d <= q3 then {Middle} else {}) +
    (if d < q3 then {Upper} else {})
  }

  /** The comment states the inequalities backwards: with q1 = 100 and q3 = 300 a
      duration of 50 is 'lower' in the code but only 'upper' by the comment, and 200
      satisfies all three of the comment's conditions. */
  lemma DocstringContradictsCode()
    ensures Classification(50, 100, 300) == Lower && DocstringBuckets(50, 100, 300) == {Upper}
    ensures DocstringBuckets(200, 100, 300) == {Lower, Middle, Upper}
  {
  }

  /** `calculate_iqr` after the quantiles: one (Contract, IQR_Type) row per summary row. */
  function IqrType(summary: seq<Entry<(string, ContentType)>>, q1: int, q3: int): (r: seq<(string, Bucket)>)
    ensures |r| == |summary|
    ensures forall i :: 0 <= i < |r| ==> (r[i].0 == summary[i].key.0 &&
      (r[i].1 == Lower <==> summary[i].value < q1) &&
      (r[i].1 == Middle <==> q1 <= summary[i].value <= q3))
  {
    seq(|summary|, i requires 0 <= i < |summary| => (summary[i].key.0, Classification(summary[i].value, q1, q3)))
  }

  /** The `Clinginess` column. */
  datatype Level = Low | Medium | High

  /** The decision table of `calculate_clinginess`, first match wins and no
      `otherwise`: a null input leaves every test null, so the result is null. */
  function Clinginess(activeness: Option<int>, iqr: Option<Bucket>): (r: Option<Level>)
    ensures r.None? <==> activeness.None? || iqr.None?
    ensures r == Some(Low) <==> activeness.Some? && iqr == Some(Lower) && activeness.value <= 15
    ensures r == Some(High) <==> activeness.Some? && iqr.Some? && iqr.value != Lower && 10 < activeness.value
    ensures r == Some(Medium) <==> (activeness.Some? && iqr.Some? &&
      ((iqr.value == Lower && 15 < activeness.value) || (iqr.value != Lower && activeness.value <= 10)))
  {
    if activeness.None? || iqr.None? then None
    else
      var a, b := activeness.value, iqr.value;
      if a <= 15 && b == Lower then Some(Low)
      else if 15 < a && b == Lower then Some(Medium)
      else if a <= 10 && b == Middle then Some(Medium)
      else if a <= 10 && b == Upper then Some(Medium)
      else if 10 < a && b == Middle then Some(High)
      else
        assert b == Upper && 10 < a;
        Some(High)
  }

  /** The table as the comment above `calculate_clinginess` writes it, with
      `10 <= Activeness` for 'high'. */
  function ClinginessAsDocumented(activeness: Option<int>, iqr: Option<Bucket>): Option<Level>
  {
    if activeness.None? || iqr.None? then None
    else
      var a, b := activeness.value, iqr.value;
      if a <= 15 && b == Lower then Some(Low)
      else if 15 < a && b == Lower then Some(Medium)
      else if a <= 10 && b == Middle then Some(Medium)
      else if a <= 10 && b == Upper then Some(Medium)
      else if 10 <= a && b == Middle then Some(High)
      else if 10 <= a && b == Upper then Some(High)
      else None
  }

  /** The comment's `10 <=` and the code's `10 <` give the same labels: at exactly
      10 days the earlier `<= 10` rows already answer 'medium'. */
  lemma DocumentedBoundIsImmaterial(activeness: Option<int>, iqr: Option<Bucket>)
    ensures ClinginessAsDocumented(activeness, iqr) == Clinginess(activeness, iqr)
  {
  }

  /** The clinginess comment read as a plain set of rules, without an order: every
      label whose condition holds. */
  function DocumentedLabels(a: int, b: Bucket): set<Level>
  {
    (if a <= 15 && b == Lower then {Low} else {}) +
    (if (15 < a && b == Lower) || (a <= 10 && b != Lower) then {Medium} else {}) +
    (if 10 <= a && b != Lower then {High} else {})
  }

  /** Read as a set, the comment allows both 'medium' and 'high' at exactly ten days
      for 'middle' and 'upper'; the code answers 'medium'. */
  lemma DocumentedRulesOverlapAtTen(b: Bucket)
    requires b != Lower
    ensures DocumentedLabels(10, b) == {Medium, High}
    ensures Clinginess(Some(10), Some(b)) == Some(Medium)
  {
  }

  /** Everywhere else the set reading names exactly the code's label. */
  lemma DocumentedRulesAgreeElsewhere(a: int, b: Bucket)
    requires a != 10 || b == Lower
    ensures DocumentedLabels(a, b) == {Clinginess(Some(a), Some(b)).value}
  {
  }

  function EntryPairs<K>(rows: seq<Entry<K>>): (r: seq<(K, int)>)
    ensures |r| == |rows|
    ensures forall i :: 0 <= i < |rows| ==> r[i] == (rows[i].key, rows[i].value)
  {
    seq(|rows|, i requires 0 <= i < |rows| => (rows[i].key, rows[i].value))
  }

  /** The decision table applied to each row of the joined table. */
  function LabelRows(joined: seq<Joined<string, Bucket, int>>): (r: seq<(string, Option<Level>)>)
    ensures |r| == |joined|
    ensures forall i :: 0 <= i < |r| ==> r[i] == (joined[i].key, Clinginess(joined[i].right, joined[i].left))
  {
    seq(|joined|, i requires 0 <= i < |joined| => (joined[i].key, Clinginess(joined[i].right, joined[i].left)))
  }

  /** `calculate_clinginess`: outer join of the IQR rows and the activeness rows on
      Contract, then the decision table on each joined row. Every row is the table's
      answer for one row of the join, and a non-null label belongs to a contract
      present on both sides. */
  function CalculateClinginess(iqr: seq<(string, Bucket)>, activeness: seq<Entry<string>>): (r: seq<(string, Option<Level>)>)
    ensures forall i :: 0 <= i < |r| ==> exists x :: JoinRow(iqr, EntryPairs(activeness), x) && r[i] == (x.key, Clinginess(x.right, x.left))
    ensures forall i :: 0 <= i < |r| && r[i].1.Some? ==> HasKey(iqr, r[i].0) && HasKey(EntryPairs(activeness), r[i].0)
  {
    var act := EntryPairs(activeness);
    var joined := FullOuterJoin(iqr, act);
    var r := LabelRows(joined);
    forall i | 0 <= i < |r| ensures JoinRow(iqr, act, joined[i]) && r[i] == (joined[i].key, Clinginess(joined[i].right, joined[i].left)) {
      assert joined[i] in joined;
    }
    forall i | 0 <= i < |r| && r[i].1.Some? ensures HasKey(iqr, r[i].0) && HasKey(act, r[i].0) {
      var x := joined[i];
      assert x in joined;
      assert JoinRow(iqr, act, x);
      var j :| 0 <= j < |iqr| && iqr[j] == (x.key, x.left.value);
      var k :| 0 <= k < |act| && act[k] == (x.key, x.right.value);
    }
    r
  }

  /** The labels a contract receives: the table's answer for each pair of its IQR and
      activeness rows, and null when it is missing from either side. */
  lemma ClinginessOfContract(iqr: seq<(string, Bucket)>, activeness: seq<Entry<string>>, c: string, b: Bucket, a: int)
    ensures (c, b) in iqr && (c, a) in EntryPairs(activeness) ==>
      (c, Clinginess(Some(a), Some(b))) in CalculateClinginess(iqr, activeness)
    ensures (c, b) in iqr && !HasKey(EntryPairs(activeness), c) ==> (c, None) in CalculateClinginess(iqr, activeness)
    ensures (c, a) in EntryPairs(activeness) && !HasKey(iqr, c) ==> (c, None) in CalculateClinginess(iqr, activeness)
  {
    var act := EntryPairs(activeness);
    var joined := FullOuterJoin(iqr, act);
    var r := LabelRows(joined);
    if (c, b) in iqr && (c, a) in act {
      LabelOfJoined(joined, Joined(c, Some(b), Some(a)));
    }
    if (c, b) in iqr && !HasKey(act, c) {
      LabelOfJoined(joined, Joined(c, Some(b), None));
    }
    if (c, a) in act && !HasKey(iqr, c) {
      LabelOfJoined(joined, Joined(c, None, Some(a)));
    }
  }

  lemma LabelOfJoined(joined: seq<Joined<string, Bucket, int>>, x: Joined<string, Bucket, int>)
    requires x in joined
    ensures (x.key, Clinginess(x.right, x.left)) in LabelRows(joined)
  {
    var i :| 0 <= i < |joined| && joined[i] == x;
    assert LabelRows(joined)[i] == (x.key, Clinginess(x.right, x.left));
  }
}

/** The pivot in `main` (line 209) and `calculate_taste`: which content
    categories an account has any duration in, as a comma-separated code list. */
module Taste {
  import opened Wrappers
  import opened Grouping
  import opened Content

  /** The pivot's columns. Spark orders pivot values by sorting them, which puts the
      category names in this order; it is also the order `calculate_taste` lists them. */
  const Columns: seq<ContentType> := [GiaiTri, PhimTruyen, ThieuNhi, TheThao, TruyenHinh]

  /** Lexicographic order on strings by code point, as Spark sorts pivot values. */
  predicate Before(a: string, b: string)
  {
    if a == [] then b != []
    else if b == [] then false
    else if a[0] != b[0] then a[0] < b[0]
    else Before(a[1..], b[1..])
  }

  /** The columns are exactly the five categories, listed in increasing order of
      their `Type` names. */
  lemma ColumnsSorted()
    ensures forall t :: t != Error <==> t in Columns
    ensures forall i, j :: 0 <= i < j < |Columns| ==> Before(Columns[i].Name(), Columns[j].Name())
  {
    var thieu, the, truyen := ThieuNhi.Name(), TheThao.Name(), TruyenHinh.Name();
    assert Before(thieu[2..], the[2..]);
    assert Before(thieu[1..], the[1..]);
    assert Before(thieu[1..], truyen[1..]);
    assert Before(the[1..], truyen[1..]);
  }

  /** The short code written into the taste string for a category. */
  function Code(t: ContentType): (code: string)
    requires t != Error
    ensures code != "" && ',' !in code
  {
    match t
    case GiaiTri => "G.Trí"
    case PhimTruyen => "P.Truyện"
    case ThieuNhi => "T.Nhi"
    case TheThao => "T.Thao"
    case TruyenHinh => "T.Hình"
  }

  /** One row of the pivoted table: a contract and one cell per column of `Columns`,
      null where the contract has no duration of that type. */
  datatype ProfileRow = ProfileRow(contract: string, cells: seq<Option<int>>)

  function Contracts(summary: seq<Entry<(string, ContentType)>>): (cs: seq<string>)
    ensures |cs| == |summary|
    ensures forall i :: 0 <= i < |summary| ==> cs[i] == summary[i].key.0
  {
    seq(|summary|, i requires 0 <= i < |summary| => summary[i].key.0)
  }

  /** The cell of contract `c` in column `t`: the summed duration, or null. */
  function Cell(summary: seq<Entry<(string, ContentType)>>, c: string, t: ContentType): Option<int>
  {
    if (c, t) in Keys(summary) then Some(Total(summary, (c, t))) else None
  }

  /** The pivoted row of contract `c`. */
  function ProfileOf(summary: seq<Entry<(string, ContentType)>>, c: string): (row: ProfileRow)
    ensures row.contract == c && |row.cells| == |Columns|
    ensures forall k :: 0 <= k < |Columns| ==> (row.cells[k].Some? <==> (c, Columns[k]) in Keys(summary))
  {
    ProfileRow(c, seq(|Columns|, k requires 0 <= k < |Columns| => Cell(summary, c, Columns[k])))
  }

  /** The pivoted rows of the contracts `cs`, in that order. */
  function Profiles(summary: seq<Entry<(string, ContentType)>>, cs: seq<string>): (r: seq<ProfileRow>)
    ensures |r| == |cs|
    ensures forall i :: 0 <= i < |r| ==> r[i] == ProfileOf(summary, cs[i]) && r[i].contract == cs[i]
  {
    seq(|cs|, i requires 0 <= i < |cs| => ProfileOf(summary, cs[i]))
  }

  /** `groupBy('Contract').pivot('Type').sum('TotalDuration')`: one row per contract
      of the summary, and no contract twice. */
  function Pivot(summary: seq<Entry<(string, ContentType)>>): (r: seq<ProfileRow>)
    ensures forall i :: 0 <= i < |r| ==> r[i] == ProfileOf(summary, r[i].contract)
    ensures forall i :: 0 <= i < |r| ==> r[i].contract in Contracts(summary)
    ensures forall c :: c in Contracts(summary) ==> exists i :: 0 <= i < |r| && r[i].contract == c
    ensures forall i, j :: 0 <= i < j < |r| ==> r[i].contract != r[j].contract
  {
    var cs := Dedup(Contracts(summary));
    var r := Profiles(summary, cs);
    assert forall c :: c in Contracts(summary) ==> exists i :: 0 <= i < |r| && r[i].contract == c by {
      forall c | c in Contracts(summary) ensures exists i :: 0 <= i < |r| && r[i].contract == c {
        assert c in cs;
        var i :| 0 <= i < |cs| && cs[i] == c;
        assert r[i].contract == c;
      }
    }
    r
  }

  /** `concat_ws(sep, ...)`: the non-null values joined with `sep`; nulls are skipped. */
  function NonNull(xs: seq<Option<string>>): (r: seq<string>)
    ensures forall s :: s in r <==> Some(s) in xs
  {
    if xs == [] then []
    else if xs[0].Some? then [xs[0].value] + NonNull(xs[1..])
    else NonNull(xs[1..])
  }

  function Join(sep: string, xs: seq<string>): string
  {
    if xs == [] then ""
    else if |xs| == 1 then xs[0]
    else xs[0] + sep + Join(sep, xs[1..])
  }

  function ConcatWs(sep: string, xs: seq<Option<string>>): string
  {
    Join(sep, NonNull(xs))
  }

  /** The taste cells of a row: each non-null duration replaced by its category's code. */
  function CodeCells(row: ProfileRow): (r: seq<Option<string>>)
    requires |row.cells| == |Columns|
    ensures |r| == |Columns|
    ensures forall k :: 0 <= k < |Columns| ==> (r[k].Some? <==> row.cells[k].Some?)
    ensures forall k :: 0 <= k < |Columns| && r[k].Some? ==> r[k].value == Code(Columns[k])
  {
    seq(|Columns|, k requires 0 <= k < |Columns| => if row.cells[k].Some? then Some(Code(Columns[k])) else None)
  }

  /** `calculate_taste` on one pivoted row. */
  function TasteOf(row: ProfileRow): (taste: string)
    requires |row.cells| == |Columns|
    ensures taste == "" <==> forall k :: 0 <= k < |Columns| ==> row.cells[k].None?
  {
    var cells := CodeCells(row);
    var parts := NonNull(cells);
    assert forall x :: x in parts ==> x != "" by {
      forall x | x in parts ensures x != "" {
        var k :| 0 <= k < |cells| && cells[k] == Some(x);
      }
    }
    JoinEmpty(parts);
    assert forall k :: 0 <= k < |Columns| && row.cells[k].Some? ==> parts != [] by {
      forall k | 0 <= k < |Columns| && row.cells[k].Some? ensures parts != [] {
        assert cells[k] in cells;
        assert cells[k].value in parts;
      }
    }
    assert parts != [] ==> exists k :: 0 <= k < |cells| && cells[k] == Some(parts[0]);
    ConcatWs(", ", cells)
  }

  /** `calculate_taste`: one (Contract, Taste) row per pivoted row. */
  function CalculateTaste(profile: seq<ProfileRow>): (r: seq<(string, string)>)
    requires forall row :: row in profile ==> |row.cells| == |Columns|
    ensures |r| == |profile|
    ensures forall i :: 0 <= i < |r| ==> r[i] == (profile[i].contract, TasteOf(profile[i]))
    ensures forall i :: 0 <= i < |r| ==> r[i].0 == profile[i].contract && (r[i].1 == "" <==>
      forall k :: 0 <= k < |Columns| ==> profile[i].cells[k].None?)
  {
    var r := seq(|profile|, i requires 0 <= i < |profile| => (profile[i].contract, TasteOf(profile[i])));
    forall i | 0 <= i < |r|
      ensures r[i].1 == "" <==> forall k :: 0 <= k < |Columns| ==> profile[i].cells[k].None?
    {
      assert profile[i] in profile;
    }
    r
  }

  /** Whether the summary has any row of category `t`, i.e. whether the pivot makes
      a column for `t`. */
  predicate HasColumn(summary: seq<Entry<(string, ContentType)>>, t: ContentType)
  {
    exists i :: 0 <= i < |summary| && summary[i].key.1 == t
  }

  /** `calculate_taste` on the pivot of the summary. The pivot makes a column only for
      a category that occurs, and `calculate_taste` names all five, so a category
      absent from the whole summary makes the job fail (`None`). Otherwise the
      result is the taste of every pivoted row. */
  function TasteOfSummary(summary: seq<Entry<(string, ContentType)>>): (r: Option<seq<(string, string)>>)
    ensures r.None? <==> exists k :: 0 <= k < |Columns| && !HasColumn(summary, Columns[k])
    ensures r.Some? ==> |r.value| == |Pivot(summary)|
    ensures r.Some? ==> forall i :: 0 <= i < |r.value| ==> r.value[i].1 == TasteOf(ProfileOf(summary, r.value[i].0))
    ensures r.Some? ==> forall c :: c in Contracts(summary) <==> exists i :: 0 <= i < |r.value| && r.value[i].0 == c
  {
    if exists k :: 0 <= k < |Columns| && !HasColumn(summary, Columns[k]) then None
    else
      var profile := Pivot(summary);
      var r := CalculateTaste(profile);
      assert forall i :: 0 <= i < |r| ==> r[i].0 == profile[i].contract;
      Some(r)
  }

  /** The first index at or after `from` where ", " starts, or |s| if none. */
  function FirstSep(s: string, from: nat): (i: nat)
    requires from <= |s|
    ensures from <= i <= |s|
    ensures i < |s| ==> i + 1 < |s| && s[i] == ',' && s[i + 1] == ' '
    decreases |s| - from
  {
    if from + 1 >= |s| then |s|
    else if s[from] == ',' && s[from + 1] == ' ' then from
    else FirstSep(s, from + 1)
  }

  /** Splits a string at every ", " (the reading a consumer of the report applies). */
  function Split(s: string): seq<string>
    decreases |s|
  {
    var i := FirstSep(s, 0);
    if i == |s| then [s] else [s[..i]] + Split(s[i + 2..])
  }

  lemma {:induction false} FirstSepNoComma(s: string, from: nat)
    requires from <= |s| && ',' !in s
    ensures FirstSep(s, from) == |s|
    decreases |s| - from
  {
    if from + 1 < |s| {
      FirstSepNoComma(s, from + 1);
    }
  }

  lemma {:induction false} FirstSepAfter(x: string, t: string, from: nat)
    requires from <= |x| && ',' !in x
    ensures FirstSep(x + ", " + t, from) == |x|
    decreases |x| - from
  {
    var s := x + ", " + t;
    if from < |x| {
      assert s[from] == x[from];
      FirstSepAfter(x, t, from + 1);
    } else {
      assert s[from] == ',' && s[from + 1] == ' ';
    }
  }

  /** Splitting a ", "-join of comma-free parts gives the parts back. */
  lemma {:induction false} SplitJoin(xs: seq<string>)
    requires xs != []
    requires forall x :: x in xs ==> ',' !in x
    ensures Split(Join(", ", xs)) == xs
  {
    if |xs| == 1 {
      FirstSepNoComma(xs[0], 0);
    } else {
      var rest := Join(", ", xs[1..]);
      var s := xs[0] + ", " + rest;
      FirstSepAfter(xs[0], rest, 0);
      assert s[..|xs[0]|] == xs[0];
      assert s[|xs[0]| + 2..] == rest;
      SplitJoin(xs[1..]);
    }
  }

  /** The join of non-empty parts is empty iff there are no parts. */
  lemma {:induction false} JoinEmpty(xs: seq<string>)
    requires forall x :: x in xs ==> x != ""
    ensures Join(", ", xs) == "" <==> xs == []
  {
    if |xs| == 1 {
      assert xs[0] in xs;
    } else if |xs| > 1 {
      assert |Join(", ", xs)| >= 2;
    }
  }

  /** Reading the taste back: splitting it at ", " gives the codes of the non-null
      columns, in column order, with no empty segment and no stray separator. */
  lemma TasteRoundTrip(row: ProfileRow)
    requires |row.cells| == |Columns|
    requires exists k :: 0 <= k < |Columns| && row.cells[k].Some?
    ensures Split(TasteOf(row)) == NonNull(CodeCells(row))
  {
    var cells := CodeCells(row);
    var parts := NonNull(cells);
    var k0 :| 0 <= k0 < |Columns| && row.cells[k0].Some?;
    assert cells[k0] in cells;
    assert forall x :: x in parts ==> ',' !in x by {
      forall x | x in parts ensures ',' !in x {
        var k :| 0 <= k < |cells| && cells[k] == Some(x);
      }
    }
    SplitJoin(parts);
  }

  /** A category's code is in the taste exactly when that column is non-null. */
  lemma TasteListsPresentColumns(row: ProfileRow, k: nat)
    requires |row.cells| == |Columns|
    requires exists j :: 0 <= j < |Columns| && row.cells[j].Some?
    requires k < |Columns|
    ensures Code(Columns[k]) in Split(TasteOf(row)) <==> row.cells[k].Some?
  {
    var cells := CodeCells(row);
    var code := Code(Columns[k]);
    TasteRoundTrip(row);
    if row.cells[k].Some? {
      assert cells[k] == Some(code) && cells[k] in cells;
      assert code in NonNull(cells);
    } else {
      AbsentCode(row, k);
      assert code !in NonNull(cells);
    }
  }

  /** A null column's code is not among the code cells. */
  lemma AbsentCode(row: ProfileRow, k: nat)
    requires |row.cells| == |Columns| && k < |Columns| && row.cells[k].None?
    ensures Some(Code(Columns[k])) !in CodeCells(row)
  {
    var cells := CodeCells(row);
    forall j | 0 <= j < |cells| ensures cells[j] != Some(Code(Columns[k])) {
      if j != k {
        CodesDistinct(j, k);
      }
    }
  }

  /** Different columns have different codes. */
  lemma CodesDistinct(j: nat, k: nat)
    requires j < |Columns| && k < |Columns| && j != k
    ensures Code(Columns[j]) != Code(Columns[k])
  {
    var a, b := Code(Columns[j]), Code(Columns[k]);
    assert |a| != |b| || a[2] != b[2];
  }
}

/** `calculate_activeness` (counting step): on how many input files (days) each
    contract appears. */
module Activeness {
  import opened Grouping

  /** The number of files whose contract column contains `c`. */
  function FilesContaining(files: seq<seq<string>>, c: string): (n: nat)
    ensures n <= |files|
    ensures n >= 1 <==> exists i :: 0 <= i < |files| && c in files[i]
  {
    if files == [] then 0
    else
      var prefix := files[..|files| - 1];
      assert forall i :: 0 <= i < |files| - 1 ==> files[i] == prefix[i];
      FilesContaining(prefix, c) + (if c in files[|files| - 1] then 1 else 0)
  }

  /** The union of each file's contracts with duplicates dropped within the file. */
  function Presence(files: seq<seq<string>>): (r: seq<string>)
    ensures forall c :: c in r <==> exists i :: 0 <= i < |files| && c in files[i]
  {
    if files == [] then []
    else
      var prefix := files[..|files| - 1];
      assert forall i :: 0 <= i < |prefix| ==> prefix[i] == files[i];
      Presence(prefix) + Dedup(files[|files| - 1])
  }

  /** After de-duplication within each file, a contract occurs once per file holding it. */
  lemma {:induction false} PresenceCount(files: seq<seq<string>>, c: string)
    ensures multiset(Presence(files))[c] == FilesContaining(files, c)
  {
    if files != [] {
      PresenceCount(files[..|files| - 1], c);
    }
  }

  /** `filter(col('Contract') != '0')`. */
  function DropZero(xs: seq<string>): (r: seq<string>)
    ensures forall c :: multiset(r)[c] == if c == "0" then 0 else multiset(xs)[c]
  {
    if xs == [] then []
    else
      assert xs == [xs[0]] + xs[1..];
      if xs[0] == "0" then DropZero(xs[1..]) else [xs[0]] + DropZero(xs[1..])
  }

  /** Contract `c` occurs in the filtered union once per file holding it, unless it is '0'. */
  lemma KeptCount(files: seq<seq<string>>, c: string)
    ensures multiset(DropZero(Presence(files)))[c] == if c == "0" then 0 else FilesContaining(files, c)
  {
    PresenceCount(files, c);
  }

  /** The count after the loop of `calculate_activeness` (`groupBy('Contract')` over
      rows of 1): for each contract other than '0', the number of files it appears
      in, so between 1 and the number of files; contract '0' gets no row. */
  function ActivenessTable(files: seq<seq<string>>): (r: seq<Entry<string>>)
    ensures DistinctKeys(r)
    ensures forall c :: c in Keys(r) <==> c != "0" && exists i :: 0 <= i < |files| && c in files[i]
    ensures forall i :: 0 <= i < |r| ==> r[i].value == FilesContaining(files, r[i].key)
    ensures forall i :: 0 <= i < |r| ==> 1 <= r[i].value <= |files|
  {
    var kept := DropZero(Presence(files));
    var r := GroupSum(Ones(kept));
    forall c ensures c in Keys(r) <==> c != "0" && exists i :: 0 <= i < |files| && c in files[i] {
      KeptCount(files, c);
      KeysOnes(kept, c);
      assert c in kept <==> multiset(kept)[c] > 0;
    }
    forall j | 0 <= j < |r| ensures r[j].value == FilesContaining(files, r[j].key) {
      GroupSumRow(Ones(kept), j);
      TotalOnes(kept, r[j].key);
      KeptCount(files, r[j].key);
    }
    r
  }

  /** The loop of `calculate_activeness`: each file's contracts, de-duplicated, are
      unioned into the accumulated form before counting. */
  method CalculateActiveness(files: seq<seq<string>>) returns (r: seq<Entry<string>>)
    ensures r == ActivenessTable(files)
  {
    var form: seq<string> := [];
    var i := 0;
    while i < |files|
      invariant 0 <= i <= |files|
      invariant form == Presence(files[..i])
    {
      var seen := Dedup(files[i]);
      assert files[..i + 1][..i] == files[..i];
      form := form + seen;
      i := i + 1;
    }
    assert files[..i] == files;
    var kept := DropZero(form);
    r := GroupSum(Ones(kept));
  }
}

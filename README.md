# Watch and search ELT job, modelled in Dafny

This project models the transformation rules of `ELT_pipeline.py`. That file is a PySpark batch job that turns a month of TV-platform logs into per-account profiles.

The content side works as follows:
- Each viewing event's `AppName` is mapped to one of five content categories: Truyền_Hình, Phim_Truyện, Giải_Trí, Thiếu_Nhi and Thể_Thao.
- Invalid rows are filtered out, and the per-file tables are unioned.
- Durations are summed per (Contract, Type).
- From that sum the job derives:
  - the most-watched category or categories;
  - a "taste" string listing the categories watched at all;
  - an IQR bucket of each duration;
  - an "activeness" count: the number of daily files a contract appears in;
  - a "clinginess" label, taken from a decision table over bucket and activeness.

The search side works as follows:
- Search events are cleaned and unioned.
- The job finds each user's most-searched keyword or keywords.
- It looks up each keyword's category, with an 'Other' default.
- It compares a user's categories across two periods.
- It lists the ten trending keywords.

Dataframes are sequences of rows, and a null column value is `Option.None`. The Spark operators are written as functions whose contracts say what the operator yields:
- `groupBy().sum()`/`count()` is `Grouping.GroupSum`;
- `rank() == 1` over a window is `Ranking.TopKeys`;
- a full outer join is `Joins.FullOuterJoin`;
- `concat_ws` is `Taste.ConcatWs`;
- `orderBy(desc).limit(n)` is `Trending.SortDesc` followed by `Trending.Limit`.

The three loops that build a table by repeated `union` are methods with loop invariants. They are the union of the cleaned content files in `main`, the loop in `calculate_activeness` and the loop in `clean_data_search`. Each is proved equal to the function that specifies it.

Modules:
- `Wrappers`: `Option`.
- `Grouping`: keyed entries, group sums, distinct keys, de-duplication.
- `Ranking`: rank-1 selection with ties.
- `Joins`: full outer join.
- `Content`: type mapping, cleaning, the union loop, duration sums, most watch, IQR bucket, clinginess.
- `Taste`: the pivot and the taste string.
- `Activeness`: per-file presence counting.
- `Search`: search cleaning, counts, most search.
- `Category`: keyword category and behaviour change.
- `Trending`: the top ten keywords.

Where the comments in the source disagree with its code, the model follows the code. Two places are affected:
- The comment above `calculate_iqr` states the bucket inequalities backwards. `Content.DocstringContradictsCode` gives a duration that the code calls 'lower' but the comment calls only 'upper', and one that fits all three of the comment's cases.
- The comment above `calculate_clinginess` writes `10days <= Activeness` for 'high', where the code has `10 <`. The answer depends on how the comment is read:
  - Read in listing order with the first matching rule winning, as the code's `when` chain works, the comment gives the same label as the code for every input. `Content.DocumentedBoundIsImmaterial` proves this: at exactly 10 days the earlier `<= 10` rules already answer 'medium'.
  - Read as an unordered set of rules (`Content.DocumentedLabels`), the comment allows both 'medium' and 'high' at exactly 10 days for 'middle' and 'upper', where the code answers 'medium' (`Content.DocumentedRulesOverlapAtTen`). For every other input, the set reading names exactly the code's label (`Content.DocumentedRulesAgreeElsewhere`).

## Model

| member | source | states |
|---|---|---|
| Content.Classify | ELT_pipeline.py:24-30 | The type is 'Error' exactly when AppName is null or in none of the five app sets. Otherwise AppName is in the set of the type returned: CHANNEL/DSHD/KPLUS/KPlus give Truyền_Hình, VOD_RES/FIMS/BHD/DANET give Phim_Truyện, RELAX gives Giải_Trí, CHILD gives Thiếu_Nhi and SPORT gives Thể_Thao. |
| Content.CleanContent | ELT_pipeline.py:24-36 | A row is in the cleaned table exactly when some raw row has the same contract and duration, its AppName classifies to that non-Error type, and `TotalDuration >= 0 or Contract != '0'` holds. A negative duration therefore survives for any contract other than '0'. The table is never longer than the input. |
| Content.NegativeDurationKept | ELT_pipeline.py:36 | The filter is a disjunction (`PassesFilter`): a row of a real category with a contract other than '0' is kept whatever its duration, negative included. |
| Content.CleanContentTotal | ELT_pipeline.py:24-36 | For every (Contract, Type), the cleaned durations of one file add up to that file's raw total: the durations of its rows with that contract whose AppName maps to that category and which pass the filter. |
| Content.CleanAll | ELT_pipeline.py:182-187 | Every row of the union of cleaned files has a non-Error type and passes the duration/contract filter. |
| Content.CleanAllContains | ELT_pipeline.py:182-187 | Every cleaned row of every file is in the union, so the union loses nothing. |
| Content.CleanAllRows | ELT_pipeline.py:182-187 | A row is in the union exactly when it is a cleaned row of some file. |
| Content.CleanAllTotal | ELT_pipeline.py:182-187 | For every (Contract, Type), the union's durations add up to the raw totals summed over all files. |
| Content.UnionCleaned | ELT_pipeline.py:180-187 | The loop that unions each later file's cleaned table into the first one's returns the union of all cleaned files, in file order. An empty listing, where `files[0]` raises, gives no table. |
| Content.SumDurations | ELT_pipeline.py:188-189 | The summed table has no (Contract, Type) pair twice. It has a row for a pair exactly when some cleaned row has that pair. Each row's value is the total duration of that pair's cleaned rows. The grand total equals the sum of all durations. |
| Content.SummedDuration | ELT_pipeline.py:182-189 | Each row of the summed table holds the sum, over all files, of the raw durations of its contract and category, counting only the rows that pass the filter. |
| Grouping.GroupSum | ELT_pipeline.py:188 | `groupBy(...).sum()` yields distinct keys, the same key set as its input, the same per-key total for every key, and the same grand total. |
| Grouping.GroupSumRow | ELT_pipeline.py:188 | Each row of a grouped sum holds the total of its key's input rows. |
| Grouping.TotalOnes | ELT_pipeline.py:91 | Summing a column of ones per key counts that key's occurrences, which is how `lit(1)` and `sum` count days. |
| Grouping.KeysOnes | ELT_pipeline.py:90-91 | A key gets a group in a sum of ones exactly when it occurs in the input. |
| Grouping.Dedup | ELT_pipeline.py:87 | De-duplication keeps exactly the values of its input, each value once. |
| Ranking.RankOne | ELT_pipeline.py:41-43 | Rows with `rank() == 1` in their partition, ordered by descending value, are exactly the input rows whose partition has no greater value. |
| Ranking.RankOneIsMax | ELT_pipeline.py:41-43 | An input row has rank 1 exactly when its value is the maximum of its partition. |
| Ranking.RankOneCoversPartitions | ELT_pipeline.py:41-43 | Every partition that has rows keeps at least one rank-1 row. |
| Ranking.MaxIn | ELT_pipeline.py:41 | The maximum of a non-empty partition is attained by one of its rows and bounds all of them. |
| Ranking.TopKeys | ELT_pipeline.py:41-45 | A key is selected exactly when some input row has it and no row of the same partition has a greater value, so tied maxima are all kept. |
| Content.MostWatch | ELT_pipeline.py:40-46 | A (Contract, Most_Watch) pair is emitted exactly when that contract's total for that type is maximal among its types. Only input pairs are emitted. |
| Content.MostWatchCoversContracts | ELT_pipeline.py:40-46 | Every contract in the summary gets at least one most-watched type. |
| Content.MostWatchKeepsTies | ELT_pipeline.py:42-43 | Two types tied at the top are both emitted, and a lower one is not, because `rank()` gives equal values equal rank. |
| Taste.Pivot | ELT_pipeline.py:209 | The pivot has one row per contract of the summary and no contract twice. A cell is non-null exactly when the contract has a total for that column's type. |
| Taste.CalculateTaste | ELT_pipeline.py:49-57 | One row per pivoted row, holding that row's contract and `Taste.TasteOf` of its cells. The taste is the empty string exactly when every category cell is null. |
| Taste.TasteOf | ELT_pipeline.py:50-55 | The taste of one row is `concat_ws(', ', ...)` (`ConcatWs`) of the code cells. It is empty exactly when all five cells are null. |
| Taste.TasteOfSummary | ELT_pipeline.py:209-213 | The job fails exactly when some category has no row in the whole summary: the pivot then has no column for it, and `calculate_taste` names all five columns. Otherwise there is one taste row per pivoted row, a contract has a taste row exactly when it is in the summary, and each row's taste is `Taste.TasteOf` of that contract's pivoted totals. |
| Taste.TasteRoundTrip | ELT_pipeline.py:50-55 | Splitting a non-empty taste at ", " gives back exactly the codes of the non-null columns, in column order, with no empty segment and no stray separator. |
| Taste.TasteListsPresentColumns | ELT_pipeline.py:50-55 | A category's code appears in the taste exactly when that category's cell is non-null. |
| Taste.CodesDistinct | ELT_pipeline.py:50-54 | The five category codes are pairwise different, so a code identifies its column. |
| Taste.SplitJoin | ELT_pipeline.py:55 | Joining non-empty, comma-free parts with ", " and splitting the result gives the parts back. |
| Taste.NonNull | ELT_pipeline.py:55 | `concat_ws` skips nulls: a string is joined exactly when it is a non-null input cell. |
| Taste.ColumnsSorted | ELT_pipeline.py:55 | The pivot's columns are the five categories, each once, in increasing code-point order of their `Type` names. That is the order Spark gives pivot values and the order `calculate_taste` lists them. |
| Taste.Code | ELT_pipeline.py:50-54 | Each category's code is non-empty and contains no comma. |
| Content.Classification | ELT_pipeline.py:74-75 | The bucket is 'lower' exactly when d < q1, 'upper' exactly when q1 <= d and d > q3, and 'middle' exactly when q1 <= d <= q3. So exactly one bucket applies for any q1 and q3. |
| Content.IqrType | ELT_pipeline.py:74-76 | There is one (Contract, IQR_Type) row per summary row, with that row's contract and the bucket of its duration. |
| Content.DocstringContradictsCode | ELT_pipeline.py:59-63 | The comment's inequalities do not describe the code: a duration of 50 with q1 = 100 and q3 = 300 is 'lower' in the code and only 'upper' by the comment. |
| Activeness.FilesContaining | ELT_pipeline.py:83-88 | The number of files containing a contract is at most the number of files, and at least 1 exactly when some file contains it. |
| Activeness.Presence | ELT_pipeline.py:83-88 | The union of the per-file de-duplicated contract lists holds exactly the contracts of some file. |
| Activeness.PresenceCount | ELT_pipeline.py:83-88 | After each file's contracts are de-duplicated and unioned, a contract occurs once per file that contains it. |
| Activeness.DropZero | ELT_pipeline.py:89 | Filtering out contract '0' removes every '0' and keeps every other contract's occurrences. |
| Activeness.KeptCount | ELT_pipeline.py:83-89 | After the '0' filter, a contract other than '0' occurs once per file containing it, and '0' does not occur. |
| Activeness.ActivenessTable | ELT_pipeline.py:80-94 | The table has one row per contract other than '0' that appears in some file, and no contract twice. Its Activeness is the number of files containing the contract, so 1 <= Activeness <= number of files. |
| Activeness.CalculateActiveness | ELT_pipeline.py:80-94 | The file loop with repeated union computes the activeness table above. |
| Content.Clinginess | ELT_pipeline.py:108-114 | With first match winning and no `otherwise`, the label is null exactly when activeness or bucket is null. It is 'low' exactly for 'lower' with activeness <= 15, 'high' exactly for 'middle'/'upper' with activeness > 10, and 'medium' exactly for 'lower' above 15 or 'middle'/'upper' at or below 10. |
| Content.DocumentedBoundIsImmaterial | ELT_pipeline.py:96-113 | The commented table, with `10 <=` for 'high', labels every input the same as the code's `10 <`. |
| Content.DocumentedRulesOverlapAtTen | ELT_pipeline.py:96-113 | Read as an unordered set, the comment's rules allow both 'medium' and 'high' at exactly 10 days for 'middle' and 'upper'. The code answers 'medium'. |
| Content.DocumentedRulesAgreeElsewhere | ELT_pipeline.py:96-113 | For every other input, the unordered reading of the comment names exactly the code's label. |
| Content.CalculateClinginess | ELT_pipeline.py:106-116 | Every output row is the decision table's label for one row of the outer join on Contract: a contract with IQR_Type b and Activeness a gets the label for (a, b), and one present on only one side gets null. A non-null label therefore belongs to a contract present on both sides. |
| Content.ClinginessOfContract | ELT_pipeline.py:106-116 | After the outer join on Contract, a contract with IQR_Type b and Activeness a is labelled by the decision table for (a, b). One present on only one side is labelled null. |
| Joins.FullOuterJoin | ELT_pipeline.py:107 | A full outer join yields exactly three kinds of row: each pair of rows with equal keys, and each row of one side whose key the other side lacks, padded with null. |
| Search.CleanSearchFile | ELT_pipeline.py:124-125 | A (user_id, keyword) row is kept exactly when some event has that non-null user and non-null keyword with category 'enter'. |
| Search.CleanSearchFileCount | ELT_pipeline.py:124-125 | The filter keeps every matching event, duplicates included: a file yields as many (u, k) rows as it has events with user u, keyword k and category 'enter'. |
| Search.CleanSearchAllCount | ELT_pipeline.py:123-126 | The union of the cleaned files (`CleanSearchAll`) holds each (u, k) once per matching event of any file. |
| Search.CleanSearchAllRows | ELT_pipeline.py:123-126 | The unioned table has a row exactly when some file's cleaned table has it. |
| Search.CleanSearch | ELT_pipeline.py:119-127 | The file loop with repeated union computes the union of the cleaned files. |
| Search.Counts | ELT_pipeline.py:131 | `groupBy('user_id', 'keyword').count()` has no pair twice, and it has a row for a pair exactly when that pair was searched. |
| Search.CountsRow | ELT_pipeline.py:131 | Each row of `groupBy('user_id', 'keyword').count()` holds the number of occurrences of its pair, which is positive. |
| Search.CountsHasPair | ELT_pipeline.py:131 | Every pair that occurs has a count row. |
| Search.MostSearch | ELT_pipeline.py:130-137 | Every (user_id, Most_Search) row is a pair the user searched. The exact characterization is the next row. |
| Search.MostSearchIsTop | ELT_pipeline.py:130-137 | (user, keyword) is a most-search row exactly when the user searched the keyword and searched no keyword more often. Ties are all kept. |
| Search.MostSearchTop | ELT_pipeline.py:130-137 | Every most-search row is a searched keyword with a maximal count for its user. |
| Search.TopIsMostSearch | ELT_pipeline.py:130-137 | Every searched keyword with a maximal count for its user is a most-search row. |
| Category.ByKeyword | ELT_pipeline.py:142 | Re-keying the most-search rows by keyword keeps each row, swapped, and a keyword has a row exactly when someone's most-search is that keyword. |
| Category.CalculateCategory | ELT_pipeline.py:140-145 | The grouped (user_id, Category) rows are distinct, and they are exactly the 'Other'-filled rows of the full join of the lookup with the most-search rows. |
| Category.CategoryRows | ELT_pipeline.py:140-145 | (u, c) is an output row exactly in three cases: u most-searched a keyword that the lookup maps to c; u most-searched a keyword missing from the lookup and c is 'Other'; or u is the pseudo-user 'Other' and c is the category of a lookup keyword nobody most-searched. |
| Category.CategoryRowSound | ELT_pipeline.py:142-143 | Every output row arises in one of those three ways. |
| Category.CategoryRowComplete | ELT_pipeline.py:142-143 | Every pair arising in one of those three ways is output. |
| Category.Compare | ELT_pipeline.py:152-154 | Behavior_Change is 'Changed' exactly when the categories differ and 'Unchanged' exactly when they agree. Explain_Changed is `first>second` when they differ and 'Unchanged' otherwise, so it reads 'Unchanged' exactly when the categories agree. |
| Category.CalculateBehavior | ELT_pipeline.py:148-156 | Every output row is Compare of one row of the outer join on user_id, with 'Other' for a missing period, so every output user appears in at least one of the two periods. Behavior_Change is always 'Changed' or 'Unchanged', and it is 'Unchanged' exactly when Explain_Changed is 'Unchanged'. |
| Category.BehaviorOfUser | ELT_pipeline.py:148-156 | A user with categories c1 and c2 in the two periods gets Compare(c1, c2). A user missing from the second period gets Compare(c1, 'Other'), and one missing from the first gets Compare('Other', c2). |
| Trending.SortDesc | ELT_pipeline.py:161 | Ordering by descending count gives a non-increasing permutation of the counts. |
| Trending.SortKeepsTieOrder | ELT_pipeline.py:161 | The chosen order of tied counts is the input order: two keywords tied at 5 come out as they went in. |
| Trending.InsertSorted | ELT_pipeline.py:161 | Inserting a row into a non-increasing sequence keeps it non-increasing. |
| Trending.SortKeepsDistinct | ELT_pipeline.py:161 | Sorting keeps the set of keywords and keeps them distinct. |
| Trending.Limit | ELT_pipeline.py:162 | `limit(n)` keeps the first n rows, or all rows when there are fewer, and keeps their order and distinctness. |
| Trending.LimitOmits | ELT_pipeline.py:161-162 | A row of a descending-sorted table that `limit(n)` leaves out means the limit is full and the row is no larger than the last row kept. |
| Trending.CalculateTrending | ELT_pipeline.py:159-163 | There are at most ten trending rows, with counts non-increasing and no keyword twice. |
| Trending.TrendingCounts | ELT_pipeline.py:160-161 | Each trending row's count is the number of searches for its keyword, which is positive. |
| Trending.TrendingOmitted | ELT_pipeline.py:160-162 | A searched keyword is left out only when the list is full with ten rows and its count is at most the tenth row's count. |

## Left out

- The Spark session configuration, and every read of JSON, parquet or CSV files. Each file's rows are a parameter, and so is the keyword-to-category lookup table read in `calculate_category`.
- `os.listdir`, and the June/July split of the search files by listing position. That split depends on the file system's listing order.
- `approxQuantile` in `calculate_iqr`. Its quantiles are the integer parameters `q1` and `q3` of `Content.IqrType`. The empty-input case, where the quantile list is empty and the lookup raises, is not modelled.
- All `print` output, `import_data_to_mysql` (a JDBC write) and the interactive `input()` prompt in `main`.
- The final report assembly in `main`: the chain of outer joins on Contract and the constant-key cross product of the search tables. These only put the computed columns side by side.
- The column names that Spark's `pivot`, `sum` and `count` produce, and the `cast('int')` of the activeness sum. The model keeps the values, not the names.
- Content.CleanContent: a null Contract or TotalDuration in a raw row is not modelled. Contracts are strings and durations are integers.
- Content.SumDurations: in Spark, TotalDuration and its sums are 64-bit integers (`bigint`), and a sum beyond that range wraps around. The model sums unbounded integers, so it does not capture such an overflow.
- Taste.Pivot: the model's pivot always has the five category columns, with a null cell where a contract has no total. Spark's pivot makes a column only for a category that occurs somewhere in the summary. The failure of `calculate_taste` that this causes is modelled by `Taste.TasteOfSummary`, and a summary with a row of type 'Error' does not arise after cleaning.
- Trending.CalculateTrending: Spark leaves the order of keywords with equal counts unspecified. The model fixes one order, input order among ties (`Trending.SortKeepsTieOrder` shows it on an example). The contracts state only count properties, which hold for every order, so which of several tied keywords at the tenth place is kept is not promised.
- Search.MostSearch: the `keyword.isNotNull()` filter after ranking is the identity. Cleaned search rows never have a null keyword.
- Category.CalculateCategory: `fillna('Other')` also fills the null user_id of lookup keywords nobody most-searched, creating a pseudo-user 'Other'. The model keeps this behaviour, as `Category.CategoryRows` states.

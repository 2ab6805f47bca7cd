# Plane-crash analysis, modelled in Dafny

`flight_delay.py` loads a table of plane crashes and prepares it:
- it drops a leading "accident details" column;
- it cleans the `Fatalities` and `Aboard` columns by removing bracketed notes, trimming, reading `?` as missing, and converting to numbers;
- it derives `Survivors` and `Year` for every record.

From the prepared table it then computes:
- crashes and fatalities per year;
- crashes and fatalities per operator, each ranked to a top ten;
- per-operator sums of aboard, fatalities and survivors, ranked by aboard, with a pooled survival rate;
- three overall totals.

This project models that pipeline and proves what it promises.

- `wrappers.dfy` (`Wrappers`): `Option` and `Result`.
- `cleaning.dfy` (`FieldCleaning`): the field cleaner of `clean_numeric_column`. It covers:
  - the non-greedy removal of `\(.*?\)`, read left to right;
  - Python's `str.strip` over Python's whitespace set;
  - the `"?"` placeholder;
  - the conversion `astype(float)`, restricted to whole numbers: an optional sign, then digits, then optionally a point and zeros. An optional sign followed by `nan`, in any case, is missing.

  A missing cell becomes the text `"nan"` through `astype(str)`. A column converts as a whole or raises at its first bad cell.
- `records.dfy` (`Records`):
  - the leading-column drop;
  - the raw and prepared records;
  - `Survivors` and `Year`;
  - `PrepareTable`, the stage-by-stage update of the table.
- `grouping.dfy` (`Grouping`): `groupby(...).size()` / `value_counts()` and `groupby(...)[col].sum()` over a key column and a value column. A missing key forms no group (`dropna=True`), and a sum skips missing values, so a group whose values are all missing sums to 0. `MapTotal` adds up a map's values.
- `ranking.dfy` (`Ranking`): `sort_values(ascending=False).head(n)`, specified by `IsTopRanking`. A ranking keeps `min(n, |m|)` entries of the map with no repeated key. Its values are non-increasing, and no key left out has a larger value than a kept one. The order among equal values is not fixed.
- `analysis.dfy` (`Analysis`): the analyses at lines 43-105, including the five survival rates printed at line 105.

Counts are integers: head-counts are whole numbers. The survival rate is a numerator/denominator pair.

`astype(float)` at lines 30-31 raises on a cleaned text that is not numeric, and the run stops; the model returns a `CleanError` naming the column and the cleaned text of its first bad cell.

The closing summary at line 105 is labelled "Top 5 Airlines by Survival Rate". It prints the first five rows of `top_survival`, which is ranked by `Aboard`, not by survival rate. The model keeps the ranking by aboard.

## Model

| member | source | states |
|---|---|---|
| FieldCleaning.StripParens | flight_delay.py:25 | no ensures; specified by StripParensSubsequence, StripParensNoParenPair, StripParensFixpoint, StripParensDeletesSegment and StripParensIdempotent |
| FieldCleaning.StripParensSubsequence | flight_delay.py:25 | removing bracketed segments only deletes characters: the result is a subsequence of the input |
| FieldCleaning.StripParensNoParenPair | flight_delay.py:25 | after removal, no `(` is followed later by a `)` |
| FieldCleaning.StripParensFixpoint | flight_delay.py:25 | text with no `(` followed later by a `)` is left unchanged |
| FieldCleaning.StripParensIdempotent | flight_delay.py:25 | removing bracketed segments twice is the same as once |
| FieldCleaning.StripParensDeletesSegment | flight_delay.py:25 | a `(` with no earlier `(` is deleted together with everything up to the first `)` after it; the text before it is kept |
| FieldCleaning.StripParensPrefix | flight_delay.py:25 | text with no `(` is kept unchanged in front of whatever follows |
| FieldCleaning.LeadingSpace | flight_delay.py:26 | the number of characters `strip` removes in front: all of them whitespace, and the next character, if any, is not |
| FieldCleaning.TrailingSpace | flight_delay.py:26 | the number of characters `strip` removes at the end: all of them whitespace, and the one before them, if any, is not |
| FieldCleaning.Trim | flight_delay.py:26 | no ensures; specified by TrimIsSlice, TrimFixpoint and TrimIdempotent |
| FieldCleaning.TrimIsSlice | flight_delay.py:26 | stripping yields a contiguous slice of the input with only whitespace cut on either side and no whitespace at either end |
| FieldCleaning.TrimFixpoint | flight_delay.py:26 | text that neither starts nor ends with whitespace is left unchanged by stripping |
| FieldCleaning.TrimIdempotent | flight_delay.py:26 | stripping twice is the same as once |
| FieldCleaning.CleanText | flight_delay.py:25-26 | no ensures; specified by CleanTextSubsequence, CleanTextNoParenPair, CleanTextIdempotent, CleanTextWithoutParens and CleanAnnotated |
| FieldCleaning.CleanTextSubsequence | flight_delay.py:25-26 | the cleaned text is a subsequence of the raw text |
| FieldCleaning.CleanTextNoParenPair | flight_delay.py:25-26 | the cleaned text has no `(` followed later by a `)` |
| FieldCleaning.CleanTextIdempotent | flight_delay.py:25-26 | cleaning twice equals cleaning once |
| FieldCleaning.CleanTextWithoutParens | flight_delay.py:25-26 | text with no `(` is only stripped |
| FieldCleaning.ParseNumber | flight_delay.py:30-31 | gives missing exactly for a signed or unsigned `nan`; fails, carrying the text, exactly when the text is neither `nan` nor a whole numeral; otherwise gives the signed value of the numeral |
| FieldCleaning.ShowNat | flight_delay.py:30-31 | writes a natural number as decimal digits whose value is that number |
| FieldCleaning.ParseShowInt | flight_delay.py:30-31 | every integer written in decimal converts back to itself |
| FieldCleaning.ConvertCleaned | flight_delay.py:27-31 | cleaned text is missing exactly when it is `?` or `nan`, never 0; it is an error carrying the text exactly when it is none of these and not a whole numeral; otherwise it is the numeral's value |
| FieldCleaning.AsText | flight_delay.py:24 | no ensures; a missing cell reads as `"nan"` (specified by MissingCellIsAbsent) and a text cell as its text |
| FieldCleaning.CleanField | flight_delay.py:24-31 | no ensures; it is `ConvertCleaned` of `CleanText` of the cell text, and is specified by ConvertCleaned, MissingCellIsAbsent, PlaceholderIsAbsent, AnnotatedCountRoundTrip and BareAnnotationRaises |
| FieldCleaning.MissingCellIsAbsent | flight_delay.py:24-31 | a missing cell becomes `"nan"` and converts back to missing |
| FieldCleaning.PlaceholderIsAbsent | flight_delay.py:25-27 | `?` with padding and a bracketed note is missing |
| FieldCleaning.CleanAnnotated | flight_delay.py:25-26 | a token padded with whitespace and followed by a bracketed note cleans to the token alone |
| FieldCleaning.AnnotatedCountRoundTrip | flight_delay.py:25-31 | any count followed by whitespace and a bracketed note converts to that count |
| FieldCleaning.AnnotatedCountParses | flight_delay.py:25-31 | `"139 (all)"` converts to 139 |
| FieldCleaning.BareAnnotationRaises | flight_delay.py:25-31 | a cell that is only a bracketed note cleans to the empty text, and the conversion raises |
| FieldCleaning.Collect | flight_delay.py:30-31 | a column converts exactly when every cell does, value for value; otherwise the error is the first failing cell's |
| FieldCleaning.CleanColumn | flight_delay.py:30-31 | a column converts exactly when every cell converts, each value being that cell's; otherwise it fails with the cleaned text of the first cell that does not convert |
| Records.IsAccidentHeader | flight_delay.py:10 | no ensures; the header is at least as long as "accident" and its first eight characters, ASCII lower-cased, spell it (specified through KeptColumns and AccidentDetailsHeaderDropped) |
| Records.KeptColumns | flight_delay.py:10-11 | the first column is dropped exactly when its lower-cased name starts with "accident"; the others are kept in order |
| Records.AccidentDetailsHeaderDropped | flight_delay.py:10-11 | "ACCIDENT DETAILS" is dropped whatever its case, and "Date" is kept |
| Records.Survivors | flight_delay.py:34 | survivors are present exactly when aboard and fatalities both are, and then survivors plus fatalities equal aboard |
| Records.YearOf | flight_delay.py:42 | the year is present exactly when the date is, and is the date's year |
| Records.PrepareTable | flight_delay.py:30-42 | `Fatalities` is converted first and its failure is reported first; then `Aboard`; on success every record keeps its operator and gets its converted counts, its survivors and its year |
| Grouping.SumPresent | flight_delay.py:101-102 | no ensures; `Series.sum` skipping missing values, specified by SumPresentAllMissing and SumPresentDifference |
| Grouping.SumPresentAllMissing | flight_delay.py:101-102 | values that are all missing sum to 0 |
| Grouping.SumPresentDifference | flight_delay.py:102 | where every survivors value is aboard less fatalities, the survivors sum is the aboard sum less the fatalities sum |
| Grouping.GroupCount | flight_delay.py:43 | the groups are exactly the keys present; each maps to the number of records with that key |
| Grouping.GroupCountTotal | flight_delay.py:43 | the counts add up to the number of records that have a key |
| Grouping.GroupSum | flight_delay.py:54 | the groups are exactly the keys present, including groups whose values are all missing |
| Grouping.GroupSumValue | flight_delay.py:54 | each group's sum is the sum of the present values of exactly its records |
| Grouping.GroupSumAllMissing | flight_delay.py:54 | a group whose values are all missing still exists and sums to 0 |
| Grouping.GroupSumTotal | flight_delay.py:54 | the group sums add up to the present values of the records that have a key |
| Grouping.GroupSumDifference | flight_delay.py:86-88 | when every record of a group has aboard and fatalities, the group's survivors sum is its aboard sum less its fatalities sum |
| Grouping.KeyedValuesAllKeyed | flight_delay.py:76 | when every record has a key, no value is left out of the groups |
| Ranking.MaxKey | flight_delay.py:76 | a key with the largest value of the map |
| Ranking.TopK | flight_delay.py:76 | the ranking of the n largest entries: `min(n, size)` entries of the map, distinct keys, non-increasing values, nothing left out above a kept entry |
| Ranking.TopKRespectsOrder | flight_delay.py:76 | when a ranked key has a smaller value than another key, that other key is ranked too, and ahead of it |
| Ranking.RankingPrefix | flight_delay.py:103-104 | the first p entries of a ranking of the n largest rank the p largest |
| Analysis.YearlyCrashes | flight_delay.py:43 | the years are exactly the years present; each maps to the number of records of that year |
| Analysis.YearlyCrashesTotal | flight_delay.py:42-43 | the yearly counts plus the undated records make up all crashes |
| Analysis.YearlyCrashesExample | flight_delay.py:43 | two records of 1985 and one of 1986 give {1985: 2, 1986: 1} |
| Analysis.YearlyFatalities | flight_delay.py:54 | the years are exactly the years present |
| Analysis.YearlyFatalitiesValue | flight_delay.py:54 | a year's fatalities are the sum of the present counts of that year's records, and 0 when none is present |
| Analysis.YearlyFatalitiesTotal | flight_delay.py:54 | the yearly sums add up to the fatalities of the dated records |
| Analysis.OperatorCrashes | flight_delay.py:68 | the operators are exactly those present; each maps to its number of records |
| Analysis.OperatorFatalities | flight_delay.py:76 | the operators are exactly those present |
| Analysis.OperatorFatalitiesValue | flight_delay.py:76 | an operator's fatalities are the sum of the present counts of its records, and 0 when none is present |
| Analysis.OperatorFatalitiesTotal | flight_delay.py:76 | when every record has an operator, the per-operator fatalities add up to the fatality total |
| Analysis.OperatorTotals | flight_delay.py:84-87 | the operators are exactly those present |
| Analysis.OperatorTotalsValue | flight_delay.py:84-87 | each operator's aboard, fatalities and survivors are the sums of the present values of its records |
| Analysis.SurvivalRate | flight_delay.py:88 | no ensures; the rate is the pair (summed survivors, summed aboard), specified by PooledSurvivalRate |
| Analysis.PooledSurvivalRate | flight_delay.py:84-88 | when every record of an operator has both counts, its survival rate is (summed aboard - summed fatalities) / summed aboard: pooled, not an average of per-record rates |
| Analysis.TopByCrashes | flight_delay.py:68 | the top ten operators by crash count |
| Analysis.TopByFatalities | flight_delay.py:76 | the top ten operators by fatality sum |
| Analysis.RankByAboard | flight_delay.py:89 | at most ten operators, no operator twice, each with its own sums, aboard non-increasing, and no operator left out with a larger aboard sum than a kept one |
| Analysis.TopByAboard | flight_delay.py:89 | no ensures; `RankByAboard` of the table's per-operator sums, specified by RankByAboard and PrintedTopSurvival |
| Analysis.RankByAboardIsTop | flight_delay.py:89 | read by its aboard column, the aboard ranking is a top-ten ranking of the per-operator aboard sums |
| Analysis.PrintedTopFive | flight_delay.py:103-104 | the five printed operators are the top five by crashes and the top five by fatalities |
| Analysis.PrintedTopSurvival | flight_delay.py:105 | the five printed survival rates belong to the five operators with the largest aboard sums, largest first, each with its own sums |
| Analysis.AboardPrefix | flight_delay.py:105 | the first n rows of a top-ten aboard ranking with attached sums are a top-n ranking, sums still attached |
| Analysis.TotalCrashes | flight_delay.py:100 | no ensures; `len(df)`, specified by YearlyCrashesTotal |
| Analysis.TotalFatalities | flight_delay.py:101 | no ensures; the sum of the present fatality counts, specified by OperatorFatalitiesTotal and TotalSurvivorsIsDifference |
| Analysis.TotalSurvivors | flight_delay.py:102 | no ensures; the sum of the present survivor counts, specified by TotalSurvivorsIsDifference |
| Analysis.TotalSurvivorsIsDifference | flight_delay.py:102 | when every record has both counts, the survivor total is the aboard total less the fatality total |
| Analysis.EmptyTable | flight_delay.py:100-102 | an empty table gives empty aggregates and rankings and totals of 0 |

## Left out

- CSV loading (line 7) is left out. The model starts from rows whose cells are text or missing.
- Date parsing with `pd.to_datetime(..., errors="coerce")` (line 18) is left out. A record's date arrives already parsed, or missing when unparsable.
- Plotting and printing (lines 45-51, 55-61, 69-73, 77-81, 91-95, 100-105) are left out. Only the values printed are modelled.
- Floating point is not modelled:
  - The per-record `Survival Rate` column (line 35) is not modelled. Nothing downstream reads it.
  - The per-operator percentage (line 88), including the inf/NaN results when aboard is 0, is not modelled. `SurvivalRate` is the numerator/denominator pair.
  - The `int(...)` at lines 101-102 is not modelled. The sums of whole counts are already integers.
- `ParseNumber` models only whole numbers. Python's `float` also reads fractions, exponents, `inf`, underscores and non-ASCII digits. The model reports those as not numeric, because head-counts are whole.
- Tie order in the rankings is not fixed. `TopK` chooses one largest key by a `:|` choice, and the lemmas state only what holds for every order among equal values. For the same reason the rankings are ghost.
- `Series.replace("?", None)` (line 27) is modelled as giving a missing value. Older pandas versions instead fill from the previous row.
- The regex `.` does not match a newline. Field text is taken to contain none.
- Records.IsAccidentHeader lower-cases ASCII letters only. Python's `str.lower` also folds other scripts, but the header compared is ASCII.
- Records.PrepareTable states each converted value through `CleanColumn`'s result, not cell by cell. `CleanColumn`'s contract ties each value to its cell's `CleanField`.

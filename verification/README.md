# Plan/fact visit report — a Dafny model

This project models the computing core of a Streamlit report that compares
planned and actual mystery-shopper visits per field project. It covers:

- the **visit calculator**. It builds the base list of field projects. It
  spreads each project's plan over four stages of its dates and sums it over
  a reporting period ("plan on date"). It counts the project's visits, in
  total and inside both its dates and the period ("fact" and "fact on date");
- the **table cleaners** the calculator depends on:
  - first-match column lookup and keep-first duplicate removal;
  - code stripping and back-fill, and the capitalising of pilot, sample and multi-code labels;
  - the fill of empty project dates, the month-boundary date clamps and the
    "wrong year" fix for finish dates;
  - the field flag;
  - the 1900-01-01 surrogate for unreadable visit dates;
  - N/A normalisation;
  - filling empty questionnaire codes from the project sheet, with its statistics;
- the **plan/fact tab**'s per-row percentages, KPI ratio and totals row;
- the **upload validator** and the merge step.

Tables are sequences of rows. A row maps a column name to a `Cell`, which is
one of: missing, text, integer, or date. Dates are (year, month, day)
triples mapped to day numbers, and quantities are exact `real`s. Python's `//`
and `%` by 4 agree with Dafny's for every sign of the dividend, so negative
durations are modelled as the source computes them. Exceptions the source
lets escape are `Result.Failure`s. Where the source reports a `KeyError` and
returns an empty frame, the model returns the empty result.

The modules are:

- `Common`: Option/Result and counting.
- `Strings`: `str.strip`, ASCII lower-casing and substring tests.
- `Calendar`: dates and day numbers.
- `Tables`: cells, rows, column lookup and keep-first.
- `GoogleCleaning` and `ArrayCleaning`: the cleaners.
- `Enrichment`: filling empty questionnaire codes.
- `Stages`: the four-stage schedule, the plan and the fact walk.
- `VisitCalculator`: the base list and the plan and fact columns.
- `Dataviz`: percentages, KPI and totals.
- `DataLoader`: upload validation and merge.

The row percentages of the plan/fact tab read `План на дату, шт.`,
`План проекта, шт.` and `Прогноз на месяц, шт.` without a trailing space. The
totals and the KPI read the displayed columns, which have one. The model
keeps both spellings as the code has them.

## Model

| member | source | states |
|---|---|---|
| Tables.FindColumn | data_cleaner.py:13-18 | the result is a candidate that is a column, no earlier candidate is a column, and the result is None exactly when no candidate is a column |
| Tables.DropDuplicates | data_cleaner.py:67-69 | keep-first deduplication: the result is a subsequence of the input, no two kept rows share a key, every key survives, and every first occurrence is kept |
| GoogleCleaning.DedupFields | data_cleaner.py:36-64 | the duplicate key is exactly the columns present among project code, start date and finish date |
| GoogleCleaning.RemoveDuplicateProjects | data_cleaner.py:34-101 | with no key column the sheet is unchanged; otherwise rows are a subsequence, keys distinct, every key kept, first occurrences kept, and the row count never grows |
| GoogleCleaning.StripCodes | data_cleaner.py:103-125 | when a code column is found, each code becomes the stripped text of its `str()`; nothing else in the row changes |
| GoogleCleaning.FillEmptyCodes | data_cleaner.py:127-152 | codes that are missing, or strip to '', 'nan' or 'None', are replaced by the project name; all other cells are unchanged |
| GoogleCleaning.FilledCodesAreNames | data_cleaner.py:135-146 | after the fill, a row whose project name is not itself empty has a non-empty code |
| GoogleCleaning.FormatColumn | data_cleaner.py:157-165 | step 4 works on the code column of step 2 when there is one, and otherwise on the first of its own three candidate columns |
| GoogleCleaning.FormatCode | data_cleaner.py:170-185 | a missing value, or one whose lower-cased stripped text holds none of 'пилот', 'семпл', 'мультикод', is kept; otherwise the value is kept or replaced by its capitalised stripped text, and a replacement always differs from the stripped text |
| GoogleCleaning.FormatCodes | data_cleaner.py:153-193 | every cell of step 4's column is formatted, no other cell changes, and with no such column the sheet is unchanged |
| Tables.ToDatetime | data_cleaner.py:417 | coercion gives no date for a missing value, keeps a date, reads anything else with the text parser, and turns into NaT every date outside 1677-09-22 to 2262-04-11 |
| Tables.TimestampRangeEnds | data_cleaner.py:417 | 1677-09-22 and 2262-04-11 are the first and last days a `datetime64[ns]` column holds |
| GoogleCleaning.DateFill | data_cleaner.py:214-227 | an empty start date is filled with the first of the current month, an empty end or closing date with its last day, any other date with today; all lie in today's month |
| GoogleCleaning.FilledDate | data_cleaner.py:209-227 | the result is always a date: the coerced date when there is one, the fill value for a missing or unreadable cell |
| GoogleCleaning.FillEmptyDates | data_cleaner.py:195-239 | every date column of the sheet holds, in every row, its coerced value or its fill value; every other cell is unchanged |
| GoogleCleaning.FilledColumnsAreDateColumns | data_cleaner.py:209-227 | after step 5 each date column holds dates only, so the year check's dtype test passes for it |
| GoogleCleaning.FillEmptyDatesIdempotent | data_cleaner.py:195-239 | filling a filled sheet again changes nothing |
| Calendar.LastDayOfMonth | data_cleaner.py:246-248 | the 28th plus four days, minus that date's day of month, lands on the true last day of today's month (its length from the leap-year rule) |
| GoogleCleaning.ClampStart | data_cleaner.py:261-264 | a start date before the first of the month becomes the first; any other cell is unchanged; a resulting date is never before the first |
| GoogleCleaning.ClampFinish | data_cleaner.py:275-278 | a finish date after the month's last day becomes that day; any other cell is unchanged |
| GoogleCleaning.ClampDates | data_cleaner.py:245-282 | start columns are clamped below and finish columns above, in every row; every other column is unchanged |
| GoogleCleaning.ClampDatesIdempotent | data_cleaner.py:241-282 | clamping twice gives the same as clamping once |
| GoogleCleaning.YearFixOf | data_cleaner.py:314-325 | a change is decided exactly when the finish is 1 to 365 days before the start; the new finish is the start's year with the finish's month and day; the decision raises exactly when that date is invalid |
| GoogleCleaning.FixYearPairAsWritten | data_cleaner.py:300-335 | row i is fixed unless some row up to i raises, in which case it is left as it was |
| GoogleCleaning.FixYearPair | data_cleaner.py:314-325 | every row is judged on its own: replaced rows get the new finish, all others stay |
| GoogleCleaning.FixYearPairChangesOnlyFinishYear | data_cleaner.py:308-325 | a changed row had its finish 1 to 365 days before its start; only the finish changed, and it moved into the start's year |
| GoogleCleaning.FixYearPassesAgreeWithoutRaise | data_cleaner.py:302-335 | when no row raises, the as-written pass and the corrected pass agree |
| GoogleCleaning.LeapDayFinishStopsYearFix | data_cleaner.py:302-335 | a 2024-02-29 finish before a 2025 start stops the written pass, so a following 2024-12-31 finish is not moved to 2025 |
| GoogleCleaning.FixPair | data_cleaner.py:300-335 | the year check of one pair leaves the rows alone unless both columns are date columns; otherwise the corrected pass gives each row its own year fix, and the pass as written fixes a row only while no row up to it raises |
| GoogleCleaning.FixYearsKeepsOtherColumns | data_cleaner.py:287-335 | the year check over all column pairs, in either pass, changes no column outside the finish columns |
| GoogleCleaning.FixYearsCell | data_cleaner.py:299-335 | with one start column, a finish column's cell in row i is the start/finish pair's year fix of that row (a replaced date, else the finish), and in the pass as written it is the unchanged finish once some row up to i raises |
| GoogleCleaning.ForStartFinishCell | data_cleaner.py:299-301 | a finish column listed once ends up as the year check of its own pair leaves it; the pairs with other finish columns never touch it |
| GoogleCleaning.CleanGoogleYearCheck | data_cleaner.py:284-335 | on the cleaned sheet with one start column, each finish cell is the filled and clamped finish with its row's year fix applied: always in the corrected pass, and in the pass as written only while no row up to it raises |
| GoogleCleaning.FixYearsKeepsMonthAndDay | data_cleaner.py:300-325 | the year check keeps every date a date with the same month and day; only years move |
| GoogleCleaning.AddFieldFlag | data_cleaner.py:342-355 | the flag column exists afterwards; a missing flag becomes 1, a set flag stays, and nothing else changes |
| GoogleCleaning.CleanGoogle | data_cleaner.py:20-376 | an empty sheet gives None, and only an empty sheet does. Otherwise the rows are those step 1 keeps, in order, with the flag set. Untouched columns keep their cells. The code column holds the formatted stripped code, or the formatted name where the code is empty. Start columns hold the filled date clamped up to the month's first day. Finish columns hold the filled date clamped down to the month's last day, with at most its year changed. Other date columns hold the filled date. `AsWritten` is the year check as the code runs it |
| GoogleCleaning.YearPassesDifferOnlyInFinishes | data_cleaner.py:300-335 | the as-written and the corrected year check give the same cleaned sheet outside the finish columns |
| ArrayCleaning.DateOrSurrogate | data_cleaner.py:417-424 | the result is always a date a timestamp can hold; an in-range date stays; a missing cell, a date out of the timestamp range or an unparseable cell becomes 1900-01-01 |
| ArrayCleaning.ReplaceUnparsedDates | data_cleaner.py:391-448 | each listed date column the sheet has holds the parsed date or the surrogate in every row; other columns are unchanged |
| ArrayCleaning.NormaliseCell | data_cleaner.py:454-472 | a cell whose stripped text is an N/A marker, or is nan/none/null in any case, becomes ''; any other cell is unchanged; the result is never a marker |
| ArrayCleaning.DatesAndNumbersAreNotMarkers | data_cleaner.py:460-472 | a date or number cell is never taken for a marker, because its text ends in a digit and no marker contains one |
| ArrayCleaning.NormaliseNa | data_cleaner.py:450-476 | every column of every row is normalised, and cells outside the sheet's columns are untouched |
| ArrayCleaning.NormaliseNaIdempotent | data_cleaner.py:450-476 | normalising twice gives the same as normalising once |
| ArrayCleaning.CleanArray | data_cleaner.py:378-507 | an empty sheet gives None, and only an empty sheet does. Otherwise each date column holds, cell by cell, the coerced date or the surrogate. Every other column of the sheet has its N/A markers replaced by '' and its other cells kept. Cells outside the sheet's columns are untouched, and no cell is a marker |
| Strings.StripIdempotent | data_cleaner.py:116 | `str.strip` applied twice equals applying it once |
| Strings.StripKeeps | data_cleaner.py:463 | stripping keeps every non-space character: a non-space character is in the text iff it is in the stripped text |
| Enrichment.OutcomeOf | data_cleaner.py:681-714 | a row needs work iff its code is missing or blank. No match iff no project has the row's stripped client and wave. A KeyError iff there is a match but the project sheet has no code column. Otherwise the row is filled iff the first match's code strips to a non-empty text, and that stripped text is the code; it is a code-empty discrepancy iff the code is missing or strips to '' |
| Enrichment.EnrichRow | data_cleaner.py:693-700 | a filled row gets the found code, as text, in its questionnaire-code column and no longer needs work; every other column is unchanged, and a row that is not filled is unchanged |
| Enrichment.EnrichRowIdempotent | data_cleaner.py:644-700 | enriching an enriched row changes nothing |
| Enrichment.OutcomeCounts | data_cleaner.py:681-714 | rows needing work = filled + discrepancies + crashing rows, and discrepancies = code-empty + no-match |
| Enrichment.Enrich | data_cleaner.py:620-753 | a missing code column fails; with no empty codes the sheet comes back unchanged with zero stats; otherwise each row is its enrichment, and processed = filled + discrepancies |
| Stages.StageLengthsSum | visit_calculator.py:85-93 | the four stage lengths sum to the duration, for every duration |
| Stages.StageLengthsBalanced | visit_calculator.py:86-93 | lengths are non-increasing and differ by at most one; stage i is one day longer than stage j iff i < duration mod 4 <= j |
| Stages.EmptyStageIff | visit_calculator.py:93-105 | some stage has zero days exactly when the duration is between -3 and 3 |
| Stages.Schedule | visit_calculator.py:85-113 | stage 0 starts at the project start; each stage starts the day after the previous one ends; the last ends on the finish date |
| Stages.ScheduleTilesProject | visit_calculator.py:90-113 | for a non-negative duration, each stage lies inside the project and each project day is in exactly one stage |
| Stages.StagePlansSum | visit_calculator.py:96-102 | the four stage plans sum to the plan total |
| Stages.OverfullCoefficientsMakeLastPlanNegative | visit_calculator.py:98-100 | coefficients summing above one give the last stage a negative plan |
| Stages.OverlapCountsDays | visit_calculator.py:108-111 | the closed-form overlap equals the number of stage days the day loop finds inside the window |
| Stages.PlanInWindow | visit_calculator.py:92-113 | the plan fails exactly when there are fewer than three coefficients or the duration is between -3 and 3 |
| Stages.PlanOnDateByDays | visit_calculator.py:85-113 | the stage and day loops compute the same result as the closed-form plan, including which error stops them |
| Stages.WholeWindowGetsTotal | visit_calculator.py:96-111 | a window holding a project of four days or more gets exactly the plan total |
| Stages.DisjointWindowGetsZero | visit_calculator.py:106-111 | for a plan that does not fail, a window missing the project gets zero |
| Stages.PlanSplitsOverWindows | visit_calculator.py:106-111 | the plan over a period is the plan over its first part plus the plan over the rest |
| Stages.OneDayProjectCrashes | visit_calculator.py:105 | a one-day project makes the plan raise at stage 1, while the guarded plan gives the first stage's share |
| Stages.PlanInWindowGuarded | visit_calculator.py:92-113 | with empty stages skipped, the plan fails only for fewer than three coefficients |
| Stages.GuardedPlanAgrees | visit_calculator.py:92-113 | wherever the source's plan succeeds, the guarded plan gives the same value |
| Stages.StageCountsAddUp | visit_calculator.py:164-179 | the four per-stage visit counts sum to the count of visits inside the project dates and the window, for every duration |
| Stages.FactOnDateByStages | visit_calculator.py:157-179 | the stage-by-stage walk counts exactly the visits inside the project dates and the window |
| VisitCalculator.ExtractBaseData | visit_calculator.py:18-48 | empty iff the sheet is empty or lacks one of the eight columns; otherwise one row per (name, code) pair, the first met, every pair kept |
| VisitCalculator.GoogleMatch | visit_calculator.py:75-82 | the result is the first project-sheet row whose code and wave equal the project's; missing values match nothing |
| VisitCalculator.PlanOnDate | visit_calculator.py:63-113 | zero without a project-sheet row; otherwise the plan fails exactly for fewer than three coefficients or a duration from -3 to 3 |
| VisitCalculator.PlanOnDateGuarded | visit_calculator.py:63-113 | with empty stages skipped, the plan fails only for fewer than three coefficients |
| VisitCalculator.PlanGuardedAgrees | visit_calculator.py:63-113 | wherever the source's plan succeeds, the guarded plan agrees |
| VisitCalculator.PlanOverWholeProject | visit_calculator.py:67-111 | a period holding a whole project of four days or more gets the number of the project's rows in the visit sheet |
| VisitCalculator.PlanOutsideProject | visit_calculator.py:106-111 | a period that misses the project's dates gets no plan |
| VisitCalculator.CalculatePlanOnDate | visit_calculator.py:53-116 | success iff every project's plan succeeds, with one row per base row; otherwise the error of the first failing row |
| VisitCalculator.FactOnDate | visit_calculator.py:145-179 | zero without a project-sheet row, and never more than the fact total |
| VisitCalculator.FactGuardIsRedundant | visit_calculator.py:145-179 | with a project-sheet row, fact on date is the count of dated visits inside the project dates and the period, whatever the `fact_total > 0` guard says |
| VisitCalculator.FactWithinPlan | visit_calculator.py:67-72 | every fact visit is counted in the plan total, so fact ≤ plan total |
| VisitCalculator.FactOverWholeProject | visit_calculator.py:145-179 | a period holding the project's dates counts every dated visit inside them |
| VisitCalculator.CountFilteredDays | visit_calculator.py:169-177 | counting the days of the filtered visits counts the visits passing both the filter and the day test |
| VisitCalculator.CalculateFactOnDate | visit_calculator.py:119-181 | for each base row, fact on date ≤ fact total ≤ plan total, with the fact total counting matching visits without the 1900-01-01 date |
| Dataviz.Percent | dataviz.py:121-132 | zero for a zero denominator; otherwise the result times the denominator is one hundred times the numerator |
| Dataviz.RowPercent | dataviz.py:16-26 | KeyError when the denominator column is missing, or when the numerator column is missing and the denominator is not zero. Zero for a zero denominator. With both values present and a nonzero denominator, the value is numerator/denominator×100. Otherwise NaN |
| Dataviz.AddRowPercents | dataviz.py:16-26 | succeeds exactly when both percentage lambdas succeed on every row, and then every row holds the two values `RowPercent` gives for it (0 where the plan is 0, delta/plan×100 where it is not); a frame with rows but no plan-on-date column raises on it |
| Dataviz.RatioTotal | dataviz.py:121-132 | the totals percentage is the summed numerator over the summed denominator times 100, and 0 when that sum is 0; a missing column raises |
| Dataviz.TotalFor | dataviz.py:118-134 | the seven sum columns get their column sums, the three percentage columns their summed ratios, and every other column '' |
| Dataviz.CalculateTotals | dataviz.py:107-141 | one cell per column plus the three heading cells, with 'Итого' as the code; or the KeyError of the first column that raises |
| Dataviz.TotalIsWeightedMean | dataviz.py:121-124 | the totals percentage is the denominator-weighted mean of the row percentages |
| Dataviz.TotalIsNotPlainMean | dataviz.py:121-124 | two rows with 100% and 0% over plans 1 and 3 give a total of 25%, not 50% |
| Dataviz.KpiPercent | dataviz.py:96 | the KPI is zero unless the plan is positive; otherwise it is fact/plan×100 |
| Dataviz.KpiIsGuardedPercent | dataviz.py:96 | the KPI agrees with the totals percentage except for a negative plan |
| Dataviz.PlanFactKpi | dataviz.py:88-97 | a missing plan or fact column gives 0; otherwise the KPI is taken over the column sums |
| DataLoader.ValidateData | data_loader.py:11-23 | true exactly when all four required uploads are present, not None and not empty; otherwise the complaint about the first failing one, in the fixed order |
| DataLoader.Complaint | data_loader.py:16-21 | an absent upload is reported missing and a present None or empty one is reported empty |
| DataLoader.OtherUploadsDoNotMatter | data_loader.py:13-15 | uploads outside the four required names never change the verdict or message |
| DataLoader.MergeKeepsValidation | data_loader.py:26-33 | merged uploads validate as the originals do |

## Left out

- `app.py` (the Streamlit UI, session state and uploads) and `config.py` (paths and cache settings) are not part of this model.
- All `st.*` messages, metrics and filter widgets are left out. So are the column renaming and display selection of the plan/fact tab. The frame given to the totals is whatever the filters leave.
- Excel export (`export_array_to_excel`, `export_discrepancies_to_excel`, `export_to_excel`) is left out as file I/O.
- Unicode case mapping is a parameter (`CaseMap`): step 4's `str.lower` and `str.capitalize` are not modelled.
- Keyword detection of date columns is left out. The date column lists are an input (`DateColumns`: start, finish, closing and other date columns, split as steps 5 and 6 split them), and so is "today".
- `pd.to_datetime` text parsing is a parameter (`parse`), not modelled.
- Tables.Render: `str()` of a cell is rendered from the cell alone. The column's dtype is not modelled, so a whole number in a float column (`'123.0'`) and a missing date in a date column (`'NaT'`) are not rendered as pandas would.
- GoogleCleaning.StripCodes: a code in a float column is stripped as its integer text, not as `'123.0'` (see Tables.Render).
- GoogleCleaning.FillEmptyCodes: a code rendered `'NaT'` or `'123.0'` by its dtype is not considered (see Tables.Render).
- GoogleCleaning.FormatCode: the text tested and capitalised does not depend on the column's dtype (see Tables.Render).
- Enrichment.OutcomeOf: the client, wave and code texts compared and written do not depend on the column's dtype (see Tables.Render).
- ArrayCleaning.NormaliseNa: a marker test on a dtype-rendered text such as `'NaT'` is not modelled (see Tables.Render).
- VisitCalculator.CalculatePlanOnDate: the `KeyError` raised when `calc_params` lacks `start_date`, `end_date` or `coefficients` is not modelled. The parameters are a typed record that always has all three.
- VisitCalculator.PlanOnDate: the `KeyError` raised when the project sheet lacks the code or wave column, or when a matched row lacks the start or finish column, is not modelled. The sheet is a sequence of typed rows that always have all four.
- VisitCalculator.CalculateFactOnDate: the `KeyError` for a missing `calc_params` key or a missing project-sheet column is not modelled, for the same reasons.
- The `had_na_rows` report mask of `clean_array` is left out. It reads a name that is never defined, the bare `except` swallows the error, and the mask is always empty.
- VisitCalculator.PlanOnDate: the plan is the exact sum before `round(1)`. Floating-point rounding and float accumulation error are not modelled.
- GoogleCleaning.CleanGoogleYearCheck: it states the year check for a sheet with one start column whose date lists are `WellFormed`, as the `if`/`elif` keyword split produces them. With several start columns a finish cell goes through one pair per start column, in order; `CleanGoogle` then promises only that the month and day are kept.
- Time of day is not modelled: every timestamp is a whole day.
- GoogleCleaning.YearFixOf: the day difference is taken between whole days, so it can differ from `.days` of two timestamps. A finish that step 5 fills, or step 6 clamps, to the month's last day keeps the current time of day. When that month is December and the start is 1 January at midnight, the year check sees a difference of under one day. `.days` is then 0 and the code leaves the finish alone, while the model moves it into the start's year.
- The calculator reads the visit sheet as code, name and visit date. It assumes the sheet is cleaned, so every visit date is a date.
- Project-sheet dates are dates. A missing start or finish date (NaT) in the matched row is not modelled.
- Rows are addressed by position. Duplicate index labels, which make `.at[idx, …]` write several rows, are not modelled.
- The `except` branch of `merge_data` is not modelled. It could only catch a failure of the `st.info` message, which the model leaves out.

## Findings

| source | as written | input that shows it | evidently intended | confidence | as-written member | corrected member |
|---|---|---|---|---|---|---|
| visit_calculator.py:105 | `daily_plan = stage_plan / days_in_stage` divides by zero when a stage has no days. The `ZeroDivisionError` escapes and aborts the plan for every project | a matched project whose start and finish dates are the same day, i.e. a duration of 1 (any duration from -3 to 3) | an empty stage contributes nothing, and the other projects still get their plan | not executed; high that it raises when the coefficients are Python numbers, medium on the intended value. The code that builds `calc_params` is not part of this model: with NumPy float64 coefficients the division would give inf or nan with a warning instead of raising, and the empty stage's day loop would add nothing | Stages.OneDayProjectCrashes | Stages.PlanInWindowGuarded |
| data_cleaner.py:324 | `end_date.replace(year=start_date.year)` raises for 29 February when the start year is not a leap year. The `except` around the whole column pair ends the pass, so the later rows of that pair keep wrong-year finishes | rows (start 2025-01-15, finish 2024-02-29) then (start 2025-02-10, finish 2024-12-31): the second finish stays 2024-12-31 | a row that cannot be fixed is skipped, and the other rows are still checked | not executed; high | GoogleCleaning.LeapDayFinishStopsYearFix (`CleanGoogleYearCheck` with `AsWritten`) | GoogleCleaning.FixYearPair (`CleanGoogleYearCheck` with `Corrected`) |

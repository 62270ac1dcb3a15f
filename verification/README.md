# patrickjane: a verified model of the infection-summary rules

`patrickjane.py` reads CellProfiler-style CSV tables of cells and writes
one Excel workbook per table. The workbook has four category sheets
(mononucleated or multinucleated, infected or uninfected) and a
"Cell Count Summary" sheet. That sheet holds infected-cell counts, nuclei
sums, a nuclei-per-infected-cell histogram and a bar chart of it. The
workbook also gets one "<column> Summary" sheet per requested measurement
column (the `jane` step). Finally the sheets are reordered so that the
summary sheets come first.

This project models the rules of that pipeline as pure Dafny functions
and proves what they guarantee.

- A CSV row is a `Records.Record`.
- A workbook is an ordered list of `Workbook.Sheet` values (name and header
  row).
- The file system is the set of paths that exist.
- Python's `str(n)` and `s[:k]` are modelled exactly (`Text.Dec`,
  `Text.Prefix`), negative slice bounds included.
- pandas' boolean-mask selection is the order-preserving `Seqs.Filter`.
- `pd.cut(..., right=True, include_lowest=True)` over the edges
  `0, 1, …, max_bin-1, inf` is `Histogram.InInterval`/`Histogram.BucketOf`.

Modules, in dependency order:

| module | file | models |
|---|---|---|
| Wrappers | wrappers.dfy | `Option` and `Result` |
| Text | text.dfy | `str(n)` for `n >= 0` with its parser, and `s[:k]` |
| Seqs | seqs.dfy | `df[mask]` and `Series.sum()`, order and multiset facts, distinctness |
| Fresh | fresh.dfy | the "try 1, 2, … until free" loop both name pickers use |
| SheetNames | sheet_names.dfy | `get_unique_sheet_name` |
| Records | records.dfy | the input row and the zero-nuclei filter |
| Classifier | classify.dfy | the four categories |
| Summary | summary.dfy | infected and total counts and the summary table |
| Histogram | histogram.dfy | bins, labels and counts of the nuclei histogram |
| Chart | chart.dfy | the section-marker search and the chart's cell ranges |
| OutputFile | output_name.dfy | the `output_<stem>[_k].xlsx` probe |
| Workbook | workbook.dfy | writing a sheet in replace mode, and the final reordering |
| Jane | jane.dfy | the per-column summary sheets |
| Pipeline | pipeline.dfy | one input table end to end, and the loop over inputs |

Behaviour of the code that is easy to misread:

- The allocator's default length limit is 25 characters (Excel itself
  allows 31).
  This is why the nuclei column's summary sheet is called
  "Children_Nuclei_Count Sum", the name the priority list expects
  (`SheetNames.NucleiSummaryName`).
- The histogram lists every bucket, zero counts included. The cut result
  is categorical, so `value_counts()` reports every label
  (`Histogram.Distribution`, `Histogram.ExampleDistribution`).
- A count of 0 falls in the first bucket, "1", because the lowest edge is
  included.
- When `Children_Nuclei_Count` is not among the requested columns, the
  zero-nuclei filter only reports that it is skipping. The nuclei sum on
  the next step then raises `KeyError`, which nothing catches, so the
  whole run stops (`Pipeline.Failure.NucleiColumnMissing`).
- A `max_bin` below 1 gives the edge list `[inf]`: one edge, so no
  interval at all, but still one label (`f"{max_bin}+"`). There is one
  label too many, and `pd.cut` raises. This happens after the category
  sheets were written, so the run stops and leaves that file behind
  (`Pipeline.Failure.BinsRejected`).
- Missing required columns are reported with one generic message, not a
  list of the missing columns (`Pipeline.SkipReason.MissingColumns`).
- The sheet-name set is reset for each input file (line 267 rebinds the
  module-level set). The `jane` step continues the same set. The summary
  sheet is written at line 305 without going through the allocator, so
  its name is never recorded (see "## Findings").
- `jane` opens the workbook in replace mode. An existing sheet keeps its
  place unless a summary sheet is allocated its name, in which case the
  summary replaces it.
- The loop that searches for the histogram marker breaks only out of the
  inner loop over a row's single cell. The last matching row therefore
  wins (`Chart.LastRowWith`). The marker occurs exactly once, so this makes
  no difference (`Chart.ChartCoversHistogram`).

The pipeline as modelled (`Pipeline.ProcessTable`) uses the corrected
writing order of `Pipeline.Assemble`, in which the summary sheet's name is
recorded before `jane` runs. The order as written is
`Pipeline.AssembleAsWritten`.

The loop over the input files is `Pipeline.Drive`, written for any
per-input step; `Pipeline.Run` applies it to the driver's step
`Pipeline.ProcessInput`. `Pipeline.Follows` checks a run step by step
against its inputs, and `Pipeline.RunSteps` reads that check by index.

## Model

| member | source | states |
|---|---|---|
| Text.Prefix | patrickjane.py:87 | `name[:max_length]` is a prefix of the name, of length `min(k, len)` for `k >= 0` and `len + k` (or 0) for negative `k` |
| Text.ParseDec | patrickjane.py:93 | the decimal text of a counter reads back as that counter, so the rendering loses nothing |
| Text.DecInjective | patrickjane.py:93-94 | different counters give different suffix digits |
| Text.DecLengthMonotone | patrickjane.py:93-94 | a larger counter never gives a shorter suffix, so the suffix room is largest at the last attempt |
| Fresh.FirstFree | patrickjane.py:92-95 | probing distinct candidates from k on stops at the first untaken one, after at most one more attempt than there are taken names |
| SheetNames.CandidatesDistinct | patrickjane.py:93-94 | the names tried at different counters differ, whatever the base, because the text after the last `_` is the counter |
| SheetNames.Attempt | patrickjane.py:92-95 | the counter at which the loop stops is the smallest k >= 1 whose candidate is unused, and it is at most one more than the number of used names |
| SheetNames.UniqueSheetName | patrickjane.py:86-98 | the returned name was not used before and is recorded; it is the truncated name when that is free, and otherwise the candidate with the smallest free counter; it fits in max_length whenever the largest possible suffix does |
| SheetNames.UniqueSheetNames | patrickjane.py:267-273 | the four category sheets in one fresh scope get pairwise distinct new names, and all of them are recorded |
| SheetNames.UniqueSheetNamesKeepsFresh | patrickjane.py:270-272 | distinct, unused names that fit the limit come out unchanged |
| SheetNames.NucleiSummaryName | patrickjane.py:140 | "Children_Nuclei_Count Summary" is cut to "Children_Nuclei_Count Sum" when that name is free |
| Records.RemoveZeroNuclei | patrickjane.py:179-187 | with the option off, or the nuclei column absent, the rows are unchanged and the reason is reported; otherwise exactly the rows with a nonzero nuclei count remain and the reported count is the number removed |
| Records.RemoveZeroNucleiKeepsOrder | patrickjane.py:183 | the kept rows are the nonzero rows read at their ascending positions in the input |
| Classifier.CategoryOfRow | patrickjane.py:247-252 | a row is in at most one category, and in some category exactly when both flags are 0 or 1 |
| Classifier.Select | patrickjane.py:248-251 | a category's rows are exactly the input rows whose two flags match that category |
| Classifier.Classify | patrickjane.py:247-252 | four entries in dictionary order, labelled with the dictionary keys, each holding exactly its category's rows |
| Classifier.ClassifyDisjoint | patrickjane.py:247-252 | no row appears in two categories |
| Classifier.ClassifyPartition | patrickjane.py:247-252 | together the categories hold every row with 0/1 flags exactly as often as the input does, and nothing else |
| Classifier.ClassifyPartitionsWellFlagged | patrickjane.py:247-252 | when all flags are 0 or 1, the categories partition the input as a multiset |
| Classifier.ClassifyKeepsOrder | patrickjane.py:248-251 | each category keeps the input's relative order |
| Summary.SameAsCategories | patrickjane.py:196-206 | the mononucleated and multinucleated infected groups are the rows of the first two category sheets |
| Summary.Summarize | patrickjane.py:189-221 | the mono and multi counts are the cell count and nuclei sum of the first two categories; the infected totals add them; the overall totals cover every row and are never below the infected totals |
| Summary.InfectedWithinTotal | patrickjane.py:209-221 | the infected cell count and nuclei sum never exceed the totals over all rows |
| Summary.InfectedTotals | patrickjane.py:196-210 | when every infected row has a 0/1 mononucleated flag, the infected totals are the count and nuclei sum of all infected rows |
| Summary.SummaryTable | patrickjane.py:189-244 | the table's rows are, in order, the mononucleated infected, multinucleated infected, total infected and overall rows; the first two hold the count and nuclei sum of the first two categories, the third adds them, and the last holds the row count and nuclei sum of the whole table, never below the third |
| Histogram.LabelsFitIff | patrickjane.py:284-290 | the labels match the intervals in number exactly when max_bin >= 1 |
| Histogram.Labels | patrickjane.py:285 | the labels are "1" … "max_bin-1" followed by "max_bin+" |
| Histogram.BucketOf | patrickjane.py:284-290 | each count lies in exactly one interval of the cut, (i, i+1] with 0 included in the first, and the last interval is open-ended |
| Histogram.TallyCounts | patrickjane.py:286-292 | each bucket's count is the number of values in that interval, and the counts add up to the number of values |
| Histogram.Distribution | patrickjane.py:282-293 | an error exactly when max_bin < 1; otherwise max_bin buckets with their labels in order, each counting the values in its interval, zero counts kept, totalling the number of values |
| Histogram.ExampleDistribution | patrickjane.py:282-292 | counts [1,1,2,5,7] with max_bin 5 give 2, 1, 0, 0, 2 |
| Chart.LastRowWith | patrickjane.py:316-320 | the search finds a row exactly when the text is present, and it is the last row holding the text |
| Chart.PlaceChart | patrickjane.py:315-345 | the placement fails exactly when the marker is missing |
| Chart.ColumnLayout | patrickjane.py:296-301 | below the four-row table and two blank rows, the marker sits at element 7 and bucket k at element 8 + k |
| Chart.ChartCoversHistogram | patrickjane.py:295-345 | the marker is found on row 8; the chart reads rows 9 to 8 + max_bin, which hold exactly the histogram buckets in order; it is anchored at row 12 + max_bin |
| OutputFile.Numbered | patrickjane.py:263 | the numbered name is always built from the original name, as `output_<stem>_<k>.xlsx`, so numbers never stack |
| OutputFile.NumberedDistinct | patrickjane.py:263 | different counters give different file names |
| OutputFile.OutputName | patrickjane.py:257-264 | the chosen path does not exist yet; it is the plain name when that is free, and otherwise the numbered name with the smallest free counter |
| OutputFile.SecondRunGetsSuffix | patrickjane.py:257-264 | a second run on the same input writes `output_<stem>_1.xlsx` |
| Workbook.WriteSheet | patrickjane.py:304-305 | writing replaces a same-named sheet in place or appends a new one; the written sheet is present, every sheet of another name stays at its position, and distinct names stay distinct |
| Workbook.AppendedLayout | patrickjane.py:136-141 | a workbook with distinct names that extends the old names by new ones, keeps the old sheets and holds the new ones is the old sheets followed by the new ones |
| Workbook.ReorderIsPermutation | patrickjane.py:359-363 | with distinct names, the reordered list is a permutation of the existing sheets |
| Workbook.ReorderLayout | patrickjane.py:360 | the reordered list starts with the existing priority names in priority order, followed by the other names in their existing order |
| Workbook.ReorderIdempotent | patrickjane.py:356-360 | reordering twice is the same as reordering once |
| Workbook.SameMembers | patrickjane.py:360 | reordering neither loses nor invents a name |
| Jane.Occurrences | patrickjane.py:120-122 | a column is appended zero times exactly when it is not requested |
| Jane.Keys | patrickjane.py:114 | the dictionary keys are the requested columns, each once |
| Jane.KeysOfDistinct | patrickjane.py:114 | requested columns without repeats are the keys in the same order |
| Jane.GatheredOnce | patrickjane.py:117-122 | a column requested once is gathered from exactly the sheets that hold it, in workbook order |
| Jane.GatheredEmpty | patrickjane.py:117-128 | nothing is gathered for a column exactly when it is not requested or no sheet holds it |
| Jane.GatheredNames | patrickjane.py:117-122 | everything gathered for a column names a sheet of the workbook |
| Jane.WriteSummaries | patrickjane.py:136-141 | the summary names are those the allocator hands out for "<column> Summary", column by column over the columns with data; each summary sheet holds its column's gathered data; every existing sheet whose name no summary took is kept; a summary whose name is already a sheet's takes that sheet's place, the others are appended in order; distinct names stay distinct |
| Jane.Jane | patrickjane.py:105-141 | the same for the whole `jane` call, gathering from the workbook as written so far; when every existing name is already recorded, the summaries are all appended |
| Jane.JaneAppends | patrickjane.py:105-141 | when every existing name is recorded, the workbook afterwards is the old sheets followed by one sheet per column with data, in key order, holding that column's gathered data |
| Pipeline.CategorySheets | patrickjane.py:267-273 | four category sheets with distinct names, each with the required columns, and the names recorded |
| Pipeline.CategorySheetNames | patrickjane.py:247-273 | the category sheets keep their dictionary keys as names |
| Pipeline.FinalOrder | patrickjane.py:355-363 | the final order is a permutation of the workbook's sheets and starts with "Cell Count Summary" |
| Pipeline.BaseWorkbook | patrickjane.py:266-305 | the category sheets followed by the summary sheet are the five base sheets, and only the category names are recorded at that point |
| Pipeline.Assemble | patrickjane.py:266-363 | in the corrected order: the workbook is the four category sheets with the required columns and the summary sheet, followed by one sheet per requested column with data, named as the allocator hands out "<column> Summary" with the base names recorded and holding that column's gathered data; the summary sheet is kept; names are distinct; the order is the priority reordering of the names, a permutation starting with the summary sheet |
| Pipeline.AssembleAsWritten | patrickjane.py:266-363 | as written: the base names are kept in order, followed by the allocated summary names not already present; each summary sheet holds its gathered data; names are distinct; the order is the priority reordering, starting with the summary sheet's name |
| Pipeline.CellCountSummaryName | patrickjane.py:136-141 | with only the category names recorded, the nuclei column and "Cell Count" are allocated "Children_Nuclei_Count Sum" and "Cell Count Summary" |
| Pipeline.SummaryColumnReplacesSummarySheet | patrickjane.py:136-141 | as written, requesting "Cell Count" puts its summary in place of the summary sheet, whose contents are lost; the corrected order keeps the summary sheet |
| Pipeline.ReorderMovesPriorityFirst | patrickjane.py:360 | priority sheets written after the others are moved in front of them |
| Pipeline.DefaultSummaryNames | patrickjane.py:136-141 | with the base names recorded, the default columns get "AreaShape_Area Summary" and "Children_Nuclei_Count Sum" |
| Pipeline.DefaultSheetOrder | patrickjane.py:356 | with the default columns the final order is "Cell Count Summary", "AreaShape_Area Summary", "Children_Nuclei_Count Sum", then the four category sheets |
| Pipeline.Filtering | patrickjane.py:179-187 | the nuclei column is present by then, so with the option on exactly the nonzero rows remain, in order, and the number of zero rows is reported; with it off the rows are unchanged |
| Pipeline.ProcessTable | patrickjane.py:176-366 | a missing nuclei column aborts the run; otherwise a max_bin below 1 aborts after choosing the output path, and any other max_bin gives a report; the report goes to the new path the probe picks; its table is the input, or with the option on exactly the nonzero rows in order, with the removal count; its summary, categories and histogram are those of that table, with max_bin buckets adding up to the number of infected rows, charted at rows 9 to 8 + max_bin; its workbook and order are those of the corrected assembly |
| Pipeline.ProcessInput | patrickjane.py:159-175 | an input is skipped exactly when it is missing, has no data or lacks a required column, each with its reason; any other input is processed: a report it gives is written to a path that did not exist, and an error it raises ends the run; the error is the missing nuclei column exactly when that column was not requested, a rejected histogram only when max_bin is below 1, and with the nuclei column requested and max_bin at least 1 no input ends the run |
| Pipeline.Drive | patrickjane.py:159-366 | for any per-input step, the loop takes the inputs in order, each from the paths existing at that point, and stops at the first error; its outcomes and error are exactly those the steps give, and the paths existing afterwards are those before plus every written report's, plus the half-written file of a rejected histogram |
| Pipeline.Run | patrickjane.py:159-366 | the run is the driver's step applied to each input in turn from the paths existing at that point, stopping at the first error; no two reports share a path and none overwrites a path that existed before; an input's outcome is a skip exactly when that input is one the driver skips; every input has an outcome unless an error stopped the run, and the input that stopped it is not one that is skipped; the error is the missing nuclei column exactly when that column was not requested, a rejected histogram only when max_bin is below 1, and with the nuclei column requested and max_bin at least 1 the run never stops early |
| Pipeline.RunSteps | patrickjane.py:159-366 | read by index, the i-th outcome of a run is the step the i-th input takes from the paths existing before it and the paths of the reports before it; every written report is the table processing of its own input's rows from those paths, so its path, table, summary, histogram, chart and workbook are those of that input; an error is the step the input after the last outcome takes |

## Left out

- Reading the command line: `load_commandline` is not part of this model. Its values arrive as `Pipeline.Options`.
- CSV parsing, `usecols` and the header whitespace strip are left out. An input arrives already parsed as `Pipeline.Input`.
- Spreadsheet I/O is left out. `openpyxl` and `pd.ExcelWriter` are reduced to the list of sheet names and header rows. The cell values of the category and summary sheets are not tracked, apart from column A of the summary sheet, which the chart search reads.
- Chart styling, titles and axes are left out because they are presentation only.
- Printing and logging are left out. Every logged skip is kept as a `SkipReason`, and the removal count is kept as `Records.Removal`.
- `os.path.getsize`, `os.path.basename` and `os.path.splitext` are left out. The input's stem is given directly.
- Summary.Summarize: the two percentage columns are not modelled, because they are floating point (`round(…, 2)`, with `inf`/`NaN` on division by zero).
- Records.Record: the nuclei count is a natural number. Negative, fractional or missing (`NaN`) counts, which pandas would accept, are not modelled.
- Records.Record: the flags are integers. Values other than 0 and 1 fall in no category, as in the source, but non-numeric flags are not modelled.
- Jane.Jane: the contents of a summary sheet are the names of the sheets its columns come from. The column data themselves are not tracked.
- Workbook.WriteSheet: sheet names are compared exactly. openpyxl also treats a title that differs from an existing one only in letter case as taken and renames the new sheet; that renaming is not modelled, because it depends on openpyxl's title handling rather than on the script. It only matters when a requested column's summary name differs from another sheet's name in letter case alone, and for such columns the model's names are not the workbook's.
- Pipeline.Run: when an uncaught error ends the run, only the file written so far is recorded. The partially written workbook's contents are not modelled.
- Pipeline.ProcessTable: the report's workbook is the corrected assembly of `Pipeline.Assemble`, in which the summary sheet's name is recorded before the column summaries are named. The program as written instead loses the summary sheet and its chart when a requested column's summary name comes out as "Cell Count Summary" (see "## Findings"); that order is `Pipeline.AssembleAsWritten`.
- Pipeline.ProcessTable: openpyxl rejects a sheet title that contains one of `\ * ? : / [ ]`. A requested column whose summary name contains one of these characters therefore raises an uncaught `ValueError` at patrickjane.py:141, after the category sheets, the summary sheet and its chart were written and before the sheets are reordered, and the run ends. The model does not check sheet titles, so it reports a finished workbook for such a column. This is left out because the rule belongs to openpyxl's title handling rather than to the script.
- Pipeline.Run: for the same reason, a requested column whose summary name contains one of `\ * ? : / [ ]` ends the program's run at the first input that is processed, while the model's run goes on. The clause "with the nuclei column requested and max_bin at least 1 the run never stops early" holds only for columns whose summary names openpyxl accepts.

## Findings

| source | as written | input that shows it | evidently intended | confidence | as-written member | corrected member |
|---|---|---|---|---|---|---|
| patrickjane.py:136-141 | `jane` allocates its sheet names from a set holding only the category names; "Cell Count Summary" was written at line 305 without being recorded, so a summary can be allocated that name and, in replace mode, overwrite the summary sheet and its chart | `--columns Children_Nuclei_Count "Cell Count"` on a table that has a "Cell Count" column | summary sheets are added without overwriting existing sheets (the comment on line 135) | medium; not executed | Pipeline.AssembleAsWritten, Pipeline.SummaryColumnReplacesSummarySheet | Pipeline.Assemble |

/** The per-file driver (patrickjane.py, lines 153-366) with all I/O
    replaced by values: an input is already parsed, the file system is the
    set of existing paths, and a workbook is its list of sheets. */
module Pipeline {
  import opened Wrappers
  import opened Text
  import opened Seqs
  import opened Records
  import opened Classifier
  import opened Summary
  import opened Histogram
  import opened Chart
  import opened OutputFile
  import opened SheetNames
  import opened Workbook
  import Jane

  /** The command-line options the rules read. */
  datatype Options = Options(removeZeroNuclei: bool, columns: seq<string>, maxBin: int)

  const DefaultColumns: seq<string> := ["AreaShape_Area", "Children_Nuclei_Count"]
  const DefaultMaxBin: int := 5

  /** `required_columns`: identifier, both flags, then the summary columns. */
  function Required(opts: Options): seq<string>
  {
    [ObjectColumn, MonoColumn, InfectedColumn] + opts.columns
  }

  const SummarySheet := "Cell Count Summary"
  const SummarySheetColumns: seq<string> :=
    ["Category", "Infected Cell Count", "Infected Nuclei Count", "% of Total Cells", "% of Total Nuclei"]

  /** `priority_order` of the final reordering. */
  const Priority: seq<string> := ["Cell Count Summary", "AreaShape_Area Summary", "Children_Nuclei_Count Sum"]

  datatype Report = Report(
    outfile: string,
    table: seq<Record>,
    removal: Removal,
    categories: seq<(string, seq<Record>)>,
    summary: Summary,
    histogram: seq<Bucket>,
    chart: Placement,
    workbook: seq<Sheet>,
    order: seq<string>)

  /** Errors the script does not catch, which end the whole run. */
  datatype Failure =
    | NucleiColumnMissing        // KeyError at line 193
    | BinsRejected(outfile: string)  // ValueError from pd.cut, after the category sheets were written

  /** The four category sheets, in dictionary order, under allocated names. */
  function CategorySheets(columns: seq<string>): (r: (seq<Sheet>, set<string>))
    ensures |r.0| == 4
    ensures Distinct(Names(r.0))
    ensures forall i :: 0 <= i < 4 ==> r.0[i].columns == columns
    ensures forall x :: x in r.1 <==> x in Names(r.0)
  {
    var labels := seq(4, i requires 0 <= i < 4 => Label(Categories[i]));
    var alloc := UniqueSheetNames(labels, MaxLength, {});
    var sheets := seq(4, i requires 0 <= i < 4 => Sheet(alloc.0[i], columns));
    assert Names(sheets) == alloc.0;
    (sheets, alloc.1)
  }

  function NucleiOf(rows: seq<Record>): (v: seq<nat>)
    ensures |v| == |rows|
    ensures forall i :: 0 <= i < |rows| ==> v[i] == rows[i].nuclei
  {
    seq(|rows|, i requires 0 <= i < |rows| => rows[i].nuclei)
  }

  /** The final sheet order always starts with the summary sheet and is a
      permutation of the workbook's sheets. */
  lemma FinalOrder(names: seq<string>)
    requires Distinct(names)
    requires SummarySheet in names
    ensures multiset(Reorder(Priority, names)) == multiset(names)
    ensures |Reorder(Priority, names)| >= 1 && Reorder(Priority, names)[0] == SummarySheet
  {
    ReorderIsPermutation(Priority, names);
    ReorderLayout(Priority, names);
    var p := s => s in names;
    FilterSelectsInOrder(Priority, p);
    var idx := Positions(Priority, p);
    assert 0 in idx;
    assert idx[0] == 0;
  }

  const CategoryNames: seq<string> :=
    ["Mononucleated_Infected", "Multinucleated_Infected", "Mononucleated_Uninfected", "Multinucleated_Uninfected"]

  /** The five sheets every report starts with: the category sheets under
      their labels, holding the required columns, then the summary sheet. */
  function BaseSheets(opts: Options): seq<Sheet>
  {
    seq(4, i requires 0 <= i < 4 => Sheet(CategoryNames[i], Required(opts))) + [Sheet(SummarySheet, SummarySheetColumns)]
  }

  /** The sheet names recorded once the category sheets are written. */
  const CategorySet: set<string> := set n | n in CategoryNames

  /** The requested columns that get a summary sheet over the base sheets. */
  function ColumnsWithData(opts: Options): seq<string>
  {
    Jane.WithData(BaseSheets(opts), opts.columns, Jane.Keys(opts.columns))
  }

  /** The per-column summary sheets written after the base sheets, under
      the given names. */
  function SummarySheets(opts: Options, names: seq<string>): seq<Sheet>
    requires |names| == |ColumnsWithData(opts)|
  {
    var data := ColumnsWithData(opts);
    seq(|data|, i requires 0 <= i < |data| => Sheet(names[i], Jane.Gathered(BaseSheets(opts), opts.columns, data[i])))
  }

  /** Writing the report once the output path and histogram are known:
      the category sheets, the summary sheet, then `jane`, then the
      reordering. In this corrected order the summary sheet's name is
      recorded before `jane` allocates its names, so every per-column
      summary is appended after the five base sheets and none replaces
      them; the final order starts with the summary sheet. */
  function Assemble(opts: Options): (r: (seq<Sheet>, seq<string>))
    ensures var names := UniqueSheetNames(Jane.Titles(ColumnsWithData(opts)), MaxLength, CategorySet + {SummarySheet}).0;
      && r.0 == BaseSheets(opts) + SummarySheets(opts, names)
      && Names(r.0) == CategoryNames + [SummarySheet] + names
    ensures Sheet(SummarySheet, SummarySheetColumns) in r.0
    ensures Distinct(Names(r.0))
    ensures r.1 == Reorder(Priority, Names(r.0))
    ensures multiset(r.1) == multiset(Names(r.0))
    ensures |r.1| >= 1 && r.1[0] == SummarySheet
  {
    var categories := CategorySheets(Required(opts));
    var wb := WriteSheet(categories.0, Sheet(SummarySheet, SummarySheetColumns));
    BaseWorkbook(opts);
    BaseNames(opts);
    var jane := Jane.Jane(wb, opts.columns, categories.1 + {SummarySheet});
    AssembleLayout(wb, opts.columns, categories.1 + {SummarySheet});
    var names := Names(jane.workbook);
    FinalOrder(names);
    (jane.workbook, Reorder(Priority, names))
  }

  /** `jane` over a workbook whose names are all recorded appends its
      summary sheets after the existing ones. */
  lemma AssembleLayout(base: seq<Sheet>, cols: seq<string>, used: set<string>)
    requires Names(base) == CategoryNames + [SummarySheet]
    requires Distinct(Names(base))
    requires forall x :: x in Names(base) ==> x in used
    ensures var jane := Jane.Jane(base, cols, used);
      var data := Jane.WithData(base, cols, Jane.Keys(cols));
      && jane.summaries == UniqueSheetNames(Jane.Titles(data), MaxLength, used).0
      && jane.workbook == base + seq(|data|, i requires 0 <= i < |data| => Sheet(jane.summaries[i], Jane.Gathered(base, cols, data[i])))
      && Names(jane.workbook) == CategoryNames + [SummarySheet] + jane.summaries
      && SummarySheet in Names(jane.workbook)
  {
    var jane := Jane.Jane(base, cols, used);
    Jane.JaneAppends(base, cols, used);
    assert Names(jane.workbook)[4] == SummarySheet;
  }

  /** The base sheets have the category names and the summary sheet's
      name, all recorded once the summary sheet's name is. */
  lemma BaseNames(opts: Options)
    ensures Names(BaseSheets(opts)) == CategoryNames + [SummarySheet]
    ensures Distinct(Names(BaseSheets(opts)))
    ensures forall x :: x in Names(BaseSheets(opts)) ==> x in CategorySet + {SummarySheet}
  {
    var ns := Names(BaseSheets(opts));
    assert ns == CategoryNames + [SummarySheet];
    CategoryNamesDistinct();
    NotCategoryNames();
    assert Priority[0] == SummarySheet;
    forall i, j | 0 <= i < j < |ns|
      ensures ns[i] != ns[j]
    {
      if j == 4 {
        assert ns[i] == CategoryNames[i];
      }
    }
  }

  /** Writing the summary sheet after the category sheets gives the base
      sheets, and the names recorded by then are the category names. */
  lemma BaseWorkbook(opts: Options)
    ensures var categories := CategorySheets(Required(opts));
      && WriteSheet(categories.0, Sheet(SummarySheet, SummarySheetColumns)) == BaseSheets(opts)
      && categories.1 == CategorySet
  {
    var categories := CategorySheets(Required(opts));
    CategorySheetNames(Required(opts));
    BaseNames(opts);
    var cats := seq(4, i requires 0 <= i < 4 => Sheet(CategoryNames[i], Required(opts)));
    forall i | 0 <= i < 4
      ensures categories.0[i] == cats[i]
    {
      assert categories.0[i].name == Names(categories.0)[i];
    }
    assert categories.0 == cats;
    assert SummarySheet !in Names(categories.0);
  }

  /** The writing order as the script has it: the summary sheet's name is
      never recorded, so `jane` may allocate it. Existing names are kept,
      a summary taking an existing sheet's name replaces that sheet, and
      the final order still starts with the summary sheet's name. */
  function AssembleAsWritten(opts: Options): (r: (seq<Sheet>, seq<string>))
    ensures var alloc := UniqueSheetNames(Jane.Titles(ColumnsWithData(opts)), MaxLength, CategorySet);
      && Names(r.0) == CategoryNames + [SummarySheet] + Jane.Added(alloc.0, CategoryNames + [SummarySheet])
      && forall i :: 0 <= i < |alloc.0| ==> Sheet(alloc.0[i], Jane.Gathered(BaseSheets(opts), opts.columns, ColumnsWithData(opts)[i])) in r.0
    ensures Distinct(Names(r.0))
    ensures r.1 == Reorder(Priority, Names(r.0))
    ensures multiset(r.1) == multiset(Names(r.0))
    ensures |r.1| >= 1 && r.1[0] == SummarySheet
  {
    var categories := CategorySheets(Required(opts));
    var wb := WriteSheet(categories.0, Sheet(SummarySheet, SummarySheetColumns));
    BaseWorkbook(opts);
    BaseNames(opts);
    var jane := Jane.Jane(wb, opts.columns, categories.1);
    AsWrittenLayout(wb, CategoryNames, SummarySheet, opts.columns, categories.1);
    var names := Names(jane.workbook);
    FinalOrder(names);
    (jane.workbook, Reorder(Priority, names))
  }

  /** `jane` over sheets with distinct names keeps those names in front and
      adds the names it took that were not there yet, so the last of the
      existing names stays in the workbook. */
  lemma AsWrittenLayout(base: seq<Sheet>, front: seq<string>, last: string, cols: seq<string>, used: set<string>)
    requires Names(base) == front + [last]
    requires Distinct(Names(base))
    ensures var jane := Jane.Jane(base, cols, used);
      && Names(jane.workbook) == front + [last] + Jane.Added(jane.summaries, front + [last])
      && Distinct(Names(jane.workbook))
      && last in Names(jane.workbook)
  {
    var jane := Jane.Jane(base, cols, used);
    assert Names(jane.workbook)[|front|] == last;
  }

  /** As written, requesting a column named "Cell Count" (which every input
      must then carry) makes `jane` allocate "Cell Count Summary" and write
      that column's summary over the summary sheet and its chart; the
      corrected order keeps the summary sheet. */
  lemma SummaryColumnReplacesSummarySheet(removeZeroNuclei: bool)
    ensures var opts := Options(removeZeroNuclei, [NucleiColumn, "Cell Count"], DefaultMaxBin);
      && Sheet(SummarySheet, SummarySheetColumns) !in AssembleAsWritten(opts).0
      && Sheet(SummarySheet, SummarySheetColumns) in Assemble(opts).0
  {
    var opts := Options(removeZeroNuclei, [NucleiColumn, "Cell Count"], DefaultMaxBin);
    var base := BaseSheets(opts);
    var cols := opts.columns;
    ColumnsFound(opts);
    var alloc := UniqueSheetNames(Jane.Titles(cols), MaxLength, CategorySet);
    CellCountSummaryName();
    var r := AssembleAsWritten(opts);
    var g := Jane.Gathered(base, cols, cols[1]);
    assert Sheet(SummarySheet, g) in r.0 by {
      assert alloc.0[1] == SummarySheet;
    }
    Jane.GatheredNames(base, cols, cols[1]);
    BaseNames(opts);
    NotSummaryColumns(r.0, g);
  }

  /** Both requested columns are found in the base sheets. */
  lemma ColumnsFound(opts: Options)
    requires opts.columns == [NucleiColumn, "Cell Count"]
    ensures Jane.Keys(opts.columns) == opts.columns
    ensures ColumnsWithData(opts) == opts.columns
  {
    var base := BaseSheets(opts);
    var cols := opts.columns;
    assert |cols[0]| != |cols[1]|;
    Jane.KeysOfDistinct(cols);
    assert base[0].columns == Required(opts);
    assert Required(opts)[3] == cols[0] && Required(opts)[4] == cols[1];
    Jane.GatheredEmpty(base, cols, cols[0]);
    Jane.GatheredEmpty(base, cols, cols[1]);
    Jane.WithDataAll(base, cols, cols);
  }

  lemma CellCountSummaryName()
    ensures UniqueSheetNames(Jane.Titles([NucleiColumn, "Cell Count"]), MaxLength, CategorySet).0
      == ["Children_Nuclei_Count Sum", SummarySheet]
  {
    var titles := Jane.Titles([NucleiColumn, "Cell Count"]);
    TwoTitles(NucleiColumn, "Cell Count");
    assert Jane.SummaryTitle(NucleiColumn) == "Children_Nuclei_Count Summary";
    assert Jane.SummaryTitle("Cell Count") == "Cell Count Summary";
    TwoNames(titles[0], titles[1], MaxLength, CategorySet);
    NamesFree();
    SheetNames.NucleiSummaryName(CategorySet);
    CellCountName(CategorySet + {Priority[2]});
  }

  lemma TwoTitles(c1: string, c2: string)
    ensures Jane.Titles([c1, c2]) == [Jane.SummaryTitle(c1), Jane.SummaryTitle(c2)]
  {
  }

  lemma CellCountName(used: set<string>)
    requires SummarySheet !in used
    ensures UniqueSheetName("Cell Count Summary", MaxLength, used).name == SummarySheet
  {
    assert Prefix("Cell Count Summary", MaxLength) == SummarySheet;
  }

  /** The names of the priority list that the allocator hands out are free
      at the point they are asked for. */
  lemma NamesFree()
    ensures Priority[2] !in CategorySet
    ensures SummarySheet !in CategorySet + {Priority[2]}
    ensures Priority[1] !in CategorySet + {SummarySheet}
    ensures Priority[2] !in CategorySet + {SummarySheet} + {Priority[1]}
  {
    NotCategoryNames();
    assert Priority[0] == SummarySheet;
    assert |Priority[0]| != |Priority[1]| && |Priority[0]| != |Priority[2]| && |Priority[1]| != |Priority[2]|;
  }

  /** A sheet named like the summary sheet whose columns are sheet names of
      the base workbook is not the summary sheet: "Category" names no
      sheet. With distinct names, it is the only sheet of that name. */
  lemma NotSummaryColumns(wb: seq<Sheet>, g: seq<string>)
    requires Distinct(Names(wb))
    requires Sheet(SummarySheet, g) in wb
    requires forall x :: x in g ==> x in CategoryNames + [SummarySheet]
    ensures Sheet(SummarySheet, SummarySheetColumns) !in wb
  {
    assert "Category" !in CategoryNames + [SummarySheet] by {
      assert forall x :: x in CategoryNames + [SummarySheet] ==> |x| > 8;
    }
    assert SummarySheetColumns[0] == "Category";
    assert g != SummarySheetColumns;
    if Sheet(SummarySheet, SummarySheetColumns) in wb {
      var i :| 0 <= i < |wb| && wb[i] == Sheet(SummarySheet, g);
      SheetAt(wb, Sheet(SummarySheet, SummarySheetColumns), i);
    }
  }

  /** Each category label fits in 25 characters, so a fresh scope keeps the
      labels as sheet names. */
  lemma CategorySheetNames(columns: seq<string>)
    ensures Names(CategorySheets(columns).0) == CategoryNames
  {
    var labels := seq(4, i requires 0 <= i < 4 => Label(Categories[i]));
    assert labels == CategoryNames;
    CategoryNamesDistinct();
    UniqueSheetNamesKeepsFresh(labels, MaxLength, {});
  }

  lemma CategoryNamesDistinct()
    ensures Distinct(CategoryNames)
  {
    assert CategoryNames[0][1] != CategoryNames[1][1];
    assert CategoryNames[0][1] != CategoryNames[3][1];
    assert CategoryNames[2][1] != CategoryNames[1][1];
    assert CategoryNames[2][1] != CategoryNames[3][1];
    assert |CategoryNames[0]| != |CategoryNames[2]|;
    assert |CategoryNames[1]| != |CategoryNames[3]|;
  }

  /** With the default columns the final order is the summary sheet, the
      two column summaries, then the category sheets in dictionary order:
      every name of the priority list is found, including the nuclei
      summary, whose name the allocator cuts to 25 characters. */
  lemma DefaultSheetOrder(removeZeroNuclei: bool)
    ensures Assemble(Options(removeZeroNuclei, DefaultColumns, DefaultMaxBin)).1 == Priority + CategoryNames
  {
    DefaultNames(Options(removeZeroNuclei, DefaultColumns, DefaultMaxBin));
    ReorderOfDefault();
  }

  lemma DefaultNames(opts: Options)
    requires opts.columns == DefaultColumns
    ensures Names(Assemble(opts).0) == CategoryNames + Priority
  {
    var used := CategorySet + {SummarySheet};
    var names := UniqueSheetNames(Jane.Titles(ColumnsWithData(opts)), MaxLength, used).0;
    assert Names(Assemble(opts).0) == CategoryNames + [SummarySheet] + names;
    DefaultColumnsFound(opts);
    DefaultSummaryNames();
    DefaultNamesFrom(Names(Assemble(opts).0), names);
  }

  lemma DefaultNamesFrom(ns: seq<string>, names: seq<string>)
    requires ns == CategoryNames + [SummarySheet] + names
    requires names == Priority[1..]
    ensures ns == CategoryNames + Priority
  {
    assert Priority == [SummarySheet] + Priority[1..];
  }

  lemma DefaultColumnsFound(opts: Options)
    requires opts.columns == DefaultColumns
    ensures ColumnsWithData(opts) == DefaultColumns
  {
    var base := BaseSheets(opts);
    var cols := opts.columns;
    assert |cols[0]| != |cols[1]|;
    Jane.KeysOfDistinct(cols);
    assert base[0].columns == Required(opts);
    assert Required(opts)[3] == cols[0] && Required(opts)[4] == cols[1];
    Jane.GatheredEmpty(base, cols, cols[0]);
    Jane.GatheredEmpty(base, cols, cols[1]);
    Jane.WithDataAll(base, cols, cols);
  }

  /** With the base names recorded, the two default columns get the summary
      sheet names of the priority list. */
  lemma DefaultSummaryNames()
    ensures UniqueSheetNames(Jane.Titles(DefaultColumns), MaxLength, CategorySet + {SummarySheet}).0 == Priority[1..]
  {
    var titles := Jane.Titles(DefaultColumns);
    var used := CategorySet + {SummarySheet};
    TwoTitles(DefaultColumns[0], DefaultColumns[1]);
    assert Jane.SummaryTitle(DefaultColumns[0]) == "AreaShape_Area Summary";
    assert Jane.SummaryTitle(DefaultColumns[1]) == "Children_Nuclei_Count Summary";
    TwoNames(titles[0], titles[1], MaxLength, used);
    NamesFree();
    AreaSummaryName(used);
    SheetNames.NucleiSummaryName(used + {Priority[1]});
  }

  /** No name of the priority list is a category sheet name. */
  lemma NotCategoryNames()
    ensures forall i, j :: 0 <= i < |CategoryNames| && 0 <= j < |Priority| ==> CategoryNames[i] != Priority[j]
    ensures forall j :: 0 <= j < |Priority| ==> Priority[j] !in CategorySet
  {
    forall i, j | 0 <= i < |CategoryNames| && 0 <= j < |Priority|
      ensures CategoryNames[i] != Priority[j]
    {
      assert CategoryNames[i][0] == 'M';
      assert Priority[j][0] != 'M';
    }
  }

  lemma AreaSummaryName(used: set<string>)
    requires "AreaShape_Area Summary" !in used
    ensures UniqueSheetName(Jane.SummaryTitle("AreaShape_Area"), MaxLength, used).name == "AreaShape_Area Summary"
  {
    assert Jane.SummaryTitle("AreaShape_Area") == "AreaShape_Area Summary";
    assert Prefix("AreaShape_Area Summary", MaxLength) == "AreaShape_Area Summary";
  }

  lemma ReorderOfDefault()
    ensures Reorder(Priority, CategoryNames + Priority) == Priority + CategoryNames
  {
    forall i | 0 <= i < |CategoryNames|
      ensures CategoryNames[i] !in Priority
    {
      assert CategoryNames[i][0] == 'M';
      assert forall j :: 0 <= j < |Priority| ==> Priority[j][0] != 'M';
    }
    ReorderMovesPriorityFirst(Priority, CategoryNames);
  }

  lemma ReorderMovesPriorityFirst(priority: seq<string>, others: seq<string>)
    requires forall i :: 0 <= i < |others| ==> others[i] !in priority
    ensures Reorder(priority, others + priority) == priority + others
  {
    var names := others + priority;
    FilterKeepsAll(priority, s => s in names);
    FilterConcat(others, priority, s => s !in priority);
    FilterKeepsAll(others, s => s !in priority);
    FilterKeepsNone(priority, s => s !in priority);
  }

  /** One input table, start to finish: filter, summarise, classify, pick
      the output path, write the category sheets, the summary sheet with
      its histogram and chart, the per-column summary sheets, and reorder. */
  function ProcessTable(opts: Options, stem: string, rows: seq<Record>, existing: set<string>): (r: Result<Report, Failure>)
    ensures r == Err(NucleiColumnMissing) <==> NucleiColumn !in opts.columns
    ensures NucleiColumn in opts.columns && opts.maxBin < 1 ==> r == Err(BinsRejected(OutputName(stem, existing)))
    ensures NucleiColumn in opts.columns && 1 <= opts.maxBin ==> r.Ok?
    ensures r.Ok? ==> r.value.outfile == OutputName(stem, existing) && r.value.outfile !in existing
    ensures r.Ok? && !opts.removeZeroNuclei ==> r.value.table == rows && r.value.removal == NotRequested
    ensures r.Ok? && opts.removeZeroNuclei ==>
      && r.value.table == Filter(rows, HasNuclei)
      && r.value.removal == Removed(|Filter(rows, NoNuclei)|)
    ensures r.Ok? && opts.removeZeroNuclei ==> forall x :: x in r.value.table <==> x in rows && x.nuclei != 0
    ensures r.Ok? ==> r.value.summary == Summarize(r.value.table)
    ensures r.Ok? ==> r.value.categories == Classify(r.value.table)
    ensures r.Ok? ==> Distribution(NucleiOf(Filter(r.value.table, Infected)), opts.maxBin) == Ok(r.value.histogram)
    ensures r.Ok? ==> (r.value.workbook, r.value.order) == Assemble(opts)
    ensures r.Ok? ==> r.value.summary.total.cells == |r.value.table|
    ensures r.Ok? ==> |r.value.histogram| == opts.maxBin
    ensures r.Ok? ==> CountTotal(r.value.histogram) == |Filter(r.value.table, Infected)|
    ensures r.Ok? ==> r.value.chart == Placement(9, 8 + opts.maxBin, 12 + opts.maxBin)
    ensures r.Ok? ==> Distinct(Names(r.value.workbook))
    ensures r.Ok? ==> multiset(r.value.order) == multiset(Names(r.value.workbook))
    ensures r.Ok? ==> |r.value.order| >= 1 && r.value.order[0] == SummarySheet
  {
    if NucleiColumn !in opts.columns then Err(NucleiColumnMissing)
    else
      var filtered := Filtering(opts, rows);
      var outfile := OutputName(stem, existing);
      match Distribution(NucleiOf(Filter(filtered.rows, Infected)), opts.maxBin)
      case Err(_) => Err(BinsRejected(outfile))
      case Ok(buckets) => Ok(Compose(opts, outfile, filtered, buckets))
  }

  /** The zero-nuclei filter as the driver applies it: the nuclei column is
      required, so it is always present once the table was read. */
  function Filtering(opts: Options, rows: seq<Record>): (f: Filtered)
    requires NucleiColumn in opts.columns
    ensures !opts.removeZeroNuclei ==> f == Filtered(rows, NotRequested)
    ensures opts.removeZeroNuclei ==>
      && f.rows == Filter(rows, HasNuclei)
      && f.removal == Removed(|Filter(rows, NoNuclei)|)
      && forall x :: x in f.rows <==> x in rows && x.nuclei != 0
  {
    var columns := set c | c in Required(opts);
    assert NucleiColumn in columns;
    RemoveZeroNuclei(rows, opts.removeZeroNuclei, columns)
  }

  /** The report once the histogram is cut: the summary, the categories,
      the chart placed from the summary sheet's first column, and the
      assembled workbook. */
  function Compose(opts: Options, outfile: string, filtered: Filtered, buckets: seq<Bucket>): (rep: Report)
    requires Distribution(NucleiOf(Filter(filtered.rows, Infected)), opts.maxBin) == Ok(buckets)
    ensures rep.outfile == outfile && rep.table == filtered.rows && rep.removal == filtered.removal
    ensures rep.summary == Summarize(rep.table) && rep.categories == Classify(rep.table)
    ensures rep.histogram == buckets && |buckets| == opts.maxBin
    ensures CountTotal(buckets) == |Filter(rep.table, Infected)|
    ensures rep.chart == Placement(9, 8 + opts.maxBin, 12 + opts.maxBin)
    ensures (rep.workbook, rep.order) == Assemble(opts)
  {
    var df := filtered.rows;
    var summary := Summarize(df);
    var values := NucleiOf(Filter(df, Infected));
    ChartCoversHistogram(summary, values, opts.maxBin);
    var chart := PlaceChart(ColumnA(Table(summary), buckets), opts.maxBin).value;
    var assembled := Assemble(opts);
    Report(outfile, df, filtered.removal, Classify(df), summary, buckets, chart, assembled.0, assembled.1)
  }

  /** How an input reaches the driver: not found, without any parseable
      column, or read into a header and rows. */
  datatype Input = Absent | NoData | Parsed(stem: string, header: set<string>, rows: seq<Record>)

  /** Per-input failures the script logs before moving on. */
  datatype SkipReason = NotFound | EmptyData | MissingColumns

  datatype Outcome = Skipped(reason: SkipReason) | Written(report: Report)

  /** The outcomes of a run so far, the paths existing afterwards, and the
      failure that ended the run early, if any. */
  datatype RunResult = RunResult(outcomes: seq<Outcome>, existing: set<string>, failure: Option<Failure>)

  function Outfiles(outcomes: seq<Outcome>): seq<string>
    decreases |outcomes|
  {
    if |outcomes| == 0 then []
    else (if outcomes[0].Written? then [outcomes[0].report.outfile] else []) + Outfiles(outcomes[1..])
  }

  /** The paths that exist once the given outcomes are behind: those from
      before the run and every report written so far. */
  function Taken(existing: set<string>, outcomes: seq<Outcome>): (t: set<string>)
    ensures existing <= t
    ensures forall p :: p in Outfiles(outcomes) ==> p in t
  {
    existing + set p | p in Outfiles(outcomes)
  }

  datatype Step = Next(outcome: Outcome) | Stop(failure: Failure)

  /** The inputs the driver logs and skips: not found, nothing to parse,
      or a required column missing from the header. */
  predicate Skips(opts: Options, input: Input)
  {
    || input.Absent?
    || input.NoData?
    || (input.Parsed? && exists c :: c in Required(opts) && c !in input.header)
  }

  /** One input file: skipped with a logged reason, processed, or ended by
      an uncaught error. */
  function ProcessInput(opts: Options, input: Input, existing: set<string>): (s: Step)
    ensures input.Absent? ==> s == Next(Skipped(NotFound))
    ensures input.NoData? ==> s == Next(Skipped(EmptyData))
    ensures input.Parsed? && (exists c :: c in Required(opts) && c !in input.header) ==> s == Next(Skipped(MissingColumns))
    ensures s.Next? && s.outcome.Written? ==> input.Parsed? && s.outcome.report.outfile !in existing
    ensures s.Next? && s.outcome.Written? ==> ProcessTable(opts, input.stem, input.rows, existing) == Ok(s.outcome.report)
    ensures s.Stop? ==> input.Parsed? && ProcessTable(opts, input.stem, input.rows, existing) == Err(s.failure)
    ensures s.Stop? ==> (s.failure == NucleiColumnMissing <==> NucleiColumn !in opts.columns)
    ensures s.Stop? && s.failure.BinsRejected? ==> opts.maxBin < 1
    ensures NucleiColumn in opts.columns && 1 <= opts.maxBin ==> s.Next?
    ensures s.Next? && s.outcome.Skipped? <==> Skips(opts, input)
    ensures input.Parsed? && (forall c :: c in Required(opts) ==> c in input.header) ==>
      s == match ProcessTable(opts, input.stem, input.rows, existing)
           case Ok(rep) => Next(Written(rep))
           case Err(f) => Stop(f)
  {
    match input
    case Absent => Next(Skipped(NotFound))
    case NoData => Next(Skipped(EmptyData))
    case Parsed(stem, header, rows) =>
      if exists c :: c in Required(opts) && c !in header then Next(Skipped(MissingColumns))
      else
        match ProcessTable(opts, stem, rows, existing)
        case Ok(report) => Next(Written(report))
        case Err(f) => Stop(f)
  }

  /** The paths that exist once one more outcome is behind. */
  function After(existing: set<string>, o: Outcome): (t: set<string>)
    ensures t == existing + (set p | p in Outfiles([o]))
  {
    assert Outfiles([o]) == (if o.Written? then [o.report.outfile] else []) + Outfiles([o][1..]);
    if o.Written? then existing + {o.report.outfile} else existing
  }

  /** A run of a step function, checked against the inputs: each outcome
      is the step its input takes from the paths existing at that point,
      the run ends with the inputs when there is no failure, and otherwise
      the failure is the step the next input takes. */
  predicate Chain(step: (Input, set<string>) -> Step, inputs: seq<Input>, existing: set<string>,
                  outcomes: seq<Outcome>, failure: Option<Failure>)
    decreases |outcomes|
  {
    if |outcomes| == 0 then
      if failure.None? then |inputs| == 0
      else |inputs| > 0 && step(inputs[0], existing) == Stop(failure.value)
    else
      && |inputs| > 0
      && step(inputs[0], existing) == Next(outcomes[0])
      && Chain(step, inputs[1..], After(existing, outcomes[0]), outcomes[1..], failure)
  }

  /** The driver's step for one input under the given options. */
  function StepOf(opts: Options): (step: (Input, set<string>) -> Step)
    ensures forall input, paths :: step(input, paths) == ProcessInput(opts, input, paths)
  {
    (input, paths) => ProcessInput(opts, input, paths)
  }

  /** The driver's run over its inputs, checked step by step. */
  predicate Follows(opts: Options, inputs: seq<Input>, existing: set<string>, outcomes: seq<Outcome>, failure: Option<Failure>)
  {
    Chain(StepOf(opts), inputs, existing, outcomes, failure)
  }

  /** What the driver relies on from one step: an input is skipped exactly
      when it is one the driver skips, a written report's path is new, and
      an uncaught error is a missing nuclei column or a rejected maximum
      bin. */
  ghost predicate StepsWell(step: (Input, set<string>) -> Step, opts: Options)
  {
    forall input, paths ::
      && (step(input, paths).Next? && step(input, paths).outcome.Skipped? <==> Skips(opts, input))
      && (step(input, paths).Next? && step(input, paths).outcome.Written? ==> step(input, paths).outcome.report.outfile !in paths)
      && (step(input, paths).Stop? ==> (step(input, paths).failure == NucleiColumnMissing <==> NucleiColumn !in opts.columns))
      && (step(input, paths).Stop? && step(input, paths).failure.BinsRejected? ==> opts.maxBin < 1)
      && (NucleiColumn in opts.columns && 1 <= opts.maxBin ==> step(input, paths).Next?)
  }

  /** The driver's step is one the loop can rely on. */
  lemma ProcessInputWell(opts: Options)
    ensures StepsWell(StepOf(opts), opts)
  {
  }

  /** The loop over the inputs for any step: each input in turn, from the
      paths existing at that point, until the inputs run out or a step
      fails (a rejected histogram leaves its half-written file behind). */
  function Drive(step: (Input, set<string>) -> Step, inputs: seq<Input>, existing: set<string>): (r: RunResult)
    ensures Chain(step, inputs, existing, r.outcomes, r.failure)
    ensures r.existing == Taken(existing, r.outcomes) +
      (if r.failure.Some? && r.failure.value.BinsRejected? then {r.failure.value.outfile} else {})
    decreases |inputs|
  {
    if |inputs| == 0 then
      TakenCons(existing, existing, Skipped(NotFound), []);
      RunResult([], existing, None)
    else
      match step(inputs[0], existing)
      case Stop(f) =>
        TakenCons(existing, existing, Skipped(NotFound), []);
        RunResult([], if f.BinsRejected? then existing + {f.outfile} else existing, Some(f))
      case Next(o) =>
        var rest := Drive(step, inputs[1..], After(existing, o));
        TakenCons(existing, After(existing, o), o, rest.outcomes);
        assert ([o] + rest.outcomes)[1..] == rest.outcomes;
        RunResult([o] + rest.outcomes, rest.existing, rest.failure)
  }

  /** The driver's loop over the input files. A written report's path
      exists from then on; an uncaught error stops the run (a rejected
      histogram leaves its half-written file behind). No two reports share
      a path and no report overwrites a path that existed before the run. */
  function Run(opts: Options, inputs: seq<Input>, existing: set<string>): (r: RunResult)
    ensures Follows(opts, inputs, existing, r.outcomes, r.failure)
    ensures |r.outcomes| <= |inputs|
    ensures Distinct(Outfiles(r.outcomes))
    ensures forall p :: p in Outfiles(r.outcomes) ==> p !in existing
    ensures forall p :: p in Outfiles(r.outcomes) ==> p in r.existing
    ensures existing <= r.existing
    ensures r.existing == Taken(existing, r.outcomes) +
      (if r.failure.Some? && r.failure.value.BinsRejected? then {r.failure.value.outfile} else {})
    ensures r.failure.None? ==> |r.outcomes| == |inputs|
    ensures r.failure.Some? ==> |r.outcomes| < |inputs| && !Skips(opts, inputs[|r.outcomes|])
    ensures forall i :: 0 <= i < |r.outcomes| ==> (r.outcomes[i].Skipped? <==> Skips(opts, inputs[i]))
    ensures NucleiColumn in opts.columns && 1 <= opts.maxBin ==> r.failure.None?
    ensures r.failure.Some? ==> (r.failure.value == NucleiColumnMissing <==> NucleiColumn !in opts.columns)
    ensures r.failure.Some? && r.failure.value.BinsRejected? ==> opts.maxBin < 1
  {
    var r := Drive(StepOf(opts), inputs, existing);
    ProcessInputWell(opts);
    ChainFacts(StepOf(opts), opts, inputs, existing, r.outcomes, r.failure);
    r
  }

  /** A chain of steps the driver can rely on keeps its outcomes aligned
      with the inputs, its paths distinct and new, and fails only with a
      missing nuclei column or a rejected maximum bin. */
  lemma {:induction false} ChainFacts(step: (Input, set<string>) -> Step, opts: Options, inputs: seq<Input>,
                                      existing: set<string>, outcomes: seq<Outcome>, failure: Option<Failure>)
    requires StepsWell(step, opts)
    requires Chain(step, inputs, existing, outcomes, failure)
    ensures |outcomes| <= |inputs|
    ensures failure.None? ==> |outcomes| == |inputs|
    ensures Distinct(Outfiles(outcomes))
    ensures forall p :: p in Outfiles(outcomes) ==> p !in existing
    ensures forall i :: 0 <= i < |outcomes| ==> (outcomes[i].Skipped? <==> Skips(opts, inputs[i]))
    ensures failure.Some? ==> |outcomes| < |inputs| && !Skips(opts, inputs[|outcomes|])
    ensures NucleiColumn in opts.columns && 1 <= opts.maxBin ==> failure.None?
    ensures failure.Some? ==> (failure.value == NucleiColumnMissing <==> NucleiColumn !in opts.columns)
    ensures failure.Some? && failure.value.BinsRejected? ==> opts.maxBin < 1
    decreases |outcomes|
  {
    if |outcomes| > 0 {
      var o, rest := outcomes[0], outcomes[1..];
      var existing' := After(existing, o);
      ChainFacts(step, opts, inputs[1..], existing', rest, failure);
      assert outcomes == [o] + rest;
      PrependOutcome(o, rest, existing, existing', Taken(existing', rest));
      PrependSkips(opts, o, rest, inputs);
      if failure.Some? {
        assert inputs[1..][|rest|] == inputs[|outcomes|];
      }
    }
  }

  /** One more report in front of the rest of the run keeps the paths
      distinct and new. */
  lemma PrependOutcome(o: Outcome, rest: seq<Outcome>, existing: set<string>, existing': set<string>, final: set<string>)
    requires existing' == if o.Written? then existing + {o.report.outfile} else existing
    requires o.Written? ==> o.report.outfile !in existing
    requires Distinct(Outfiles(rest))
    requires forall p :: p in Outfiles(rest) ==> p !in existing' && p in final
    requires existing' <= final
    ensures Distinct(Outfiles([o] + rest))
    ensures forall p :: p in Outfiles([o] + rest) ==> p !in existing && p in final
    ensures existing <= final
  {
    assert ([o] + rest)[1..] == rest;
    if o.Written? {
      DistinctCons(o.report.outfile, Outfiles(rest));
    }
  }

  /** One more outcome in front keeps outcomes and inputs aligned: an
      outcome is a skip exactly when its input is one the driver skips. */
  lemma PrependSkips(opts: Options, o: Outcome, rest: seq<Outcome>, inputs: seq<Input>)
    requires |inputs| > 0 && |rest| < |inputs|
    requires o.Skipped? <==> Skips(opts, inputs[0])
    requires forall i :: 0 <= i < |rest| ==> (rest[i].Skipped? <==> Skips(opts, inputs[1..][i]))
    ensures forall i :: 0 <= i < |[o] + rest| ==> (([o] + rest)[i].Skipped? <==> Skips(opts, inputs[i]))
  {
    forall i | 0 <= i < |[o] + rest|
      ensures ([o] + rest)[i].Skipped? <==> Skips(opts, inputs[i])
    {
      if i > 0 {
        assert ([o] + rest)[i] == rest[i - 1];
        assert inputs[1..][i - 1] == inputs[i];
      }
    }
  }

  /** The paths taken after one more outcome in front are those taken
      after the rest, starting from the paths that outcome left behind. */
  lemma TakenCons(existing: set<string>, existing': set<string>, o: Outcome, rest: seq<Outcome>)
    requires existing' == if o.Written? then existing + {o.report.outfile} else existing
    ensures Taken(existing, []) == existing
    ensures Taken(existing, [o] + rest) == Taken(existing', rest)
  {
    assert ([o] + rest)[1..] == rest;
    assert Outfiles([o] + rest) == (if o.Written? then [o.report.outfile] else []) + Outfiles(rest);
  }

  /** A chain read at one index: the i-th outcome is the step the i-th
      input takes from the paths taken by the outcomes before it. */
  lemma {:induction false} StepAt(step: (Input, set<string>) -> Step, inputs: seq<Input>, existing: set<string>,
                                  outcomes: seq<Outcome>, failure: Option<Failure>, i: nat)
    requires Chain(step, inputs, existing, outcomes, failure)
    requires i < |outcomes|
    ensures i < |inputs|
    ensures step(inputs[i], Taken(existing, outcomes[..i])) == Next(outcomes[i])
    decreases i
  {
    var o := outcomes[0];
    if i == 0 {
      TakenCons(existing, existing, Skipped(NotFound), []);
      assert outcomes[..0] == [];
    } else {
      StepAt(step, inputs[1..], After(existing, o), outcomes[1..], failure, i - 1);
      assert outcomes[..i] == [o] + outcomes[1..][..i - 1];
      TakenCons(existing, After(existing, o), o, outcomes[1..][..i - 1]);
    }
  }

  /** A chain that fails: the failure is the step the input after the last
      outcome takes from the paths taken by then. */
  lemma {:induction false} StopAt(step: (Input, set<string>) -> Step, inputs: seq<Input>, existing: set<string>,
                                  outcomes: seq<Outcome>, failure: Option<Failure>)
    requires Chain(step, inputs, existing, outcomes, failure)
    requires failure.Some?
    ensures |outcomes| < |inputs|
    ensures step(inputs[|outcomes|], Taken(existing, outcomes)) == Stop(failure.value)
    decreases |outcomes|
  {
    if |outcomes| == 0 {
      TakenCons(existing, existing, Skipped(NotFound), []);
    } else {
      var o := outcomes[0];
      StopAt(step, inputs[1..], After(existing, o), outcomes[1..], failure);
      assert outcomes == [o] + outcomes[1..];
      TakenCons(existing, After(existing, o), o, outcomes[1..]);
    }
  }

  /** A run read by index: each outcome is the step its input takes from
      the paths taken before it, so every report is the table processing
      of its own input's rows (its path, filtered table, summary,
      histogram, chart and workbook); a failure is the step the input
      after the last outcome takes. */
  lemma RunSteps(opts: Options, inputs: seq<Input>, existing: set<string>)
    ensures var r := Run(opts, inputs, existing);
      forall i :: 0 <= i < |r.outcomes| ==>
        && ProcessInput(opts, inputs[i], Taken(existing, r.outcomes[..i])) == Next(r.outcomes[i])
        && (r.outcomes[i].Written? ==>
              && inputs[i].Parsed?
              && ProcessTable(opts, inputs[i].stem, inputs[i].rows, Taken(existing, r.outcomes[..i])) == Ok(r.outcomes[i].report))
    ensures var r := Run(opts, inputs, existing);
      r.failure.Some? ==> ProcessInput(opts, inputs[|r.outcomes|], Taken(existing, r.outcomes)) == Stop(r.failure.value)
  {
    var r := Run(opts, inputs, existing);
    var step := StepOf(opts);
    forall i | 0 <= i < |r.outcomes|
      ensures ProcessInput(opts, inputs[i], Taken(existing, r.outcomes[..i])) == Next(r.outcomes[i])
    {
      StepAt(step, inputs, existing, r.outcomes, r.failure, i);
    }
    if r.failure.Some? {
      StopAt(step, inputs, existing, r.outcomes, r.failure);
    }
  }
}

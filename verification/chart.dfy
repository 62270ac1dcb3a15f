/** Where the histogram chart is placed on the 'Cell Count Summary' sheet
    (patrickjane.py, lines 295-301 and 315-345). The sheet is written with
    a header row, the summary table, two blank rows, a section marker and
    the histogram; the chart's data range starts on the row after the
    marker and spans `max_bin` rows. */
module Chart {
  import opened Wrappers
  import opened Text
  import opened Summary
  import opened Histogram

  const SectionMarker := "Nuclei Distribution in Infected Cells"

  /** Column A of the combined sheet: sheet row r holds element r - 1. */
  function ColumnA(table: seq<TableRow>, buckets: seq<Bucket>): (col: seq<string>)
    ensures |col| == |table| + |buckets| + 4
  {
    ["Category"]
      + seq(|table|, i requires 0 <= i < |table| => table[i].category)
      + ["", ""]
      + [SectionMarker]
      + seq(|buckets|, i requires 0 <= i < |buckets| => buckets[i].tag)
  }

  /** The row found by the marker search. The `break` leaves only the inner
      loop over the single cell of a row, so the scan runs on and the last
      matching row wins. */
  function LastRowWith(col: seq<string>, text: string): (r: Option<nat>)
    ensures r.None? <==> text !in col
    ensures r.Some? ==> 1 <= r.value <= |col| && col[r.value - 1] == text
    ensures r.Some? ==> forall j :: r.value <= j < |col| ==> col[j] != text
    decreases |col|
  {
    if |col| == 0 then None
    else if col[|col| - 1] == text then Some(|col|)
    else
      assert col == col[..|col| - 1] + [col[|col| - 1]];
      LastRowWith(col[..|col| - 1], text)
  }

  /** Data and category range rows of the bar chart and its anchor row. */
  datatype Placement = Placement(firstRow: nat, lastRow: nat, anchorRow: nat)

  /** No marker row. The search then binds nothing: on the first input
      `start_row` is unbound, and on later inputs it keeps the previous
      input's value, since it is a module-level name. */
  datatype PlacementError = MarkerNotFound

  function PlaceChart(col: seq<string>, maxBin: nat): (r: Result<Placement, PlacementError>)
    ensures r.Err? <==> SectionMarker !in col
  {
    match LastRowWith(col, SectionMarker)
    case None => Err(MarkerNotFound)
    case Some(row) =>
      var start := row + 1;
      Ok(Placement(start, start + maxBin - 1, start + maxBin + 3))
  }

  lemma TagNotMarker(b: Bucket, maxBin: nat, i: nat)
    requires 1 <= maxBin && i < maxBin
    requires b.tag == (if i < maxBin - 1 then Dec(i + 1) else Dec(maxBin) + "+")
    ensures b.tag != SectionMarker
  {
    assert IsDigit(b.tag[0]);
    assert !IsDigit(SectionMarker[0]);
  }

  /** The marker is found on row 8, so the chart reads rows 9 .. 8 + max_bin:
      exactly the histogram rows (bucket k on row 9 + k, which is element
      8 + k of the column), and nothing after them. */
  lemma ChartCoversHistogram(s: Summary, values: seq<nat>, maxBin: nat)
    requires 1 <= maxBin
    ensures Distribution(values, maxBin).Ok?
    ensures var buckets := Distribution(values, maxBin).value;
      var col := ColumnA(Table(s), buckets);
      && |col| == 8 + maxBin
      && PlaceChart(col, maxBin) == Ok(Placement(9, 8 + maxBin, 12 + maxBin))
      && forall k :: 0 <= k < maxBin ==> col[8 + k] == buckets[k].tag
  {
    var buckets := Distribution(values, maxBin).value;
    var col := ColumnA(Table(s), buckets);
    ColumnLayout(Table(s), buckets);
    forall j | 8 <= j < |col|
      ensures col[j] != SectionMarker
    {
      TagNotMarker(buckets[j - 8], maxBin, j - 8);
    }
    FoundLast(col, SectionMarker, 8);
  }

  /** Below a four-row table, the marker is element 7 and bucket k is
      element 8 + k. */
  lemma ColumnLayout(table: seq<TableRow>, buckets: seq<Bucket>)
    requires |table| == 4
    ensures var col := ColumnA(table, buckets);
      && col[7] == SectionMarker
      && forall k :: 0 <= k < |buckets| ==> col[8 + k] == buckets[k].tag
  {
  }

  lemma FoundLast(col: seq<string>, text: string, row: nat)
    requires 1 <= row <= |col| && col[row - 1] == text
    requires forall j :: row <= j < |col| ==> col[j] != text
    ensures LastRowWith(col, text) == Some(row)
  {
  }
}

/** The infected-cell summary (patrickjane.py, lines 189-244): cell counts
    and nuclei sums for mononucleated and multinucleated infected cells,
    their totals, and the totals over all rows. */
module Summary {
  import opened Seqs
  import opened Records
  import opened Classifier

  function Nuclei(r: Record): nat
  {
    r.nuclei
  }

  predicate Infected(r: Record)
  {
    r.infected == 1
  }

  predicate Mono(r: Record)
  {
    r.mononucleated == 1
  }

  predicate Multi(r: Record)
  {
    r.mononucleated == 0
  }

  /** A cell count (`shape[0]`) with its nuclei sum. */
  datatype Counts = Counts(cells: nat, nuclei: nat)

  function CountsOf(rows: seq<Record>): Counts
  {
    Counts(|rows|, Sum(rows, Nuclei))
  }

  datatype Summary = Summary(mono: Counts, multi: Counts, infected: Counts, total: Counts)

  /** The infected rows (`Classify_Infected == 1`) split again on
      `Classify_Mononucleated == 1` and `== 0`; the infected totals add the
      two parts, the overall totals count every row. */
  function Summarize(rows: seq<Record>): (s: Summary)
    ensures s.mono == CountsOf(Select(rows, MonoInfected))
    ensures s.multi == CountsOf(Select(rows, MultiInfected))
    ensures s.infected.cells == s.mono.cells + s.multi.cells
    ensures s.infected.nuclei == s.mono.nuclei + s.multi.nuclei
    ensures s.total == CountsOf(rows)
    ensures s.infected.cells <= s.total.cells
    ensures s.infected.nuclei <= s.total.nuclei
  {
    var infected := Filter(rows, Infected);
    var mono := CountsOf(Filter(infected, Mono));
    var multi := CountsOf(Filter(infected, Multi));
    SameAsCategories(rows);
    InfectedWithinTotal(rows);
    Summary(mono, multi, Counts(mono.cells + multi.cells, mono.nuclei + multi.nuclei), CountsOf(rows))
  }

  /** The summary's two infected groups are exactly the rows of the first two
      category sheets. */
  lemma SameAsCategories(rows: seq<Record>)
    ensures Filter(Filter(rows, Infected), Mono) == Select(rows, MonoInfected)
    ensures Filter(Filter(rows, Infected), Multi) == Select(rows, MultiInfected)
  {
    FilterFilter(rows, Infected, Mono, r => InCategory(r, MonoInfected));
    FilterFilter(rows, Infected, Multi, r => InCategory(r, MultiInfected));
  }

  lemma InfectedWithinTotal(rows: seq<Record>)
    ensures var infected := Filter(rows, Infected);
      && |Filter(infected, Mono)| + |Filter(infected, Multi)| <= |rows|
      && Sum(Filter(infected, Mono), Nuclei) + Sum(Filter(infected, Multi), Nuclei) <= Sum(rows, Nuclei)
  {
    var infected := Filter(rows, Infected);
    ThreeWaySplit(infected, Mono, Multi, r => !Mono(r) && !Multi(r), Nuclei);
    ThreeWaySplit(rows, Infected, r => !Infected(r), _ => false, Nuclei);
  }

  /** When every infected row has a 0/1 mononucleated flag, the infected
      totals are the count and nuclei sum of all infected rows. */
  lemma InfectedTotals(rows: seq<Record>)
    requires forall i :: 0 <= i < |rows| && Infected(rows[i]) ==> Mono(rows[i]) || Multi(rows[i])
    ensures Summarize(rows).infected == CountsOf(Filter(rows, Infected))
  {
    var infected := Filter(rows, Infected);
    FilterMembership(rows, Infected);
    assert forall i :: 0 <= i < |infected| ==> infected[i] in rows;
    ThreeWaySplit(infected, Mono, Multi, r => !Mono(r) && !Multi(r), Nuclei);
    FilterKeepsNone(infected, r => !Mono(r) && !Multi(r));
  }

  /** A row of the summary table as written: category text, cell count,
      nuclei count. Percentages are not modelled. */
  datatype TableRow = TableRow(category: string, cells: nat, nuclei: nat)

  /** The three infected rows followed by "Total incl uninfected". */
  function Table(s: Summary): (t: seq<TableRow>)
    ensures |t| == 4
  {
    [ TableRow("Mononucleated Infected", s.mono.cells, s.mono.nuclei),
      TableRow("Multinucleated Infected", s.multi.cells, s.multi.nuclei),
      TableRow("Total Infected", s.infected.cells, s.infected.nuclei),
      TableRow("Total incl uninfected", s.total.cells, s.total.nuclei) ]
  }

  /** The table written for a set of rows: the mononucleated and
      multinucleated infected rows, their total, and the overall total, in
      that order. The infected total adds the two groups and stays within
      the overall total. */
  lemma SummaryTable(rows: seq<Record>)
    ensures var t := Table(Summarize(rows));
      && |t| == 4
      && t[0] == TableRow("Mononucleated Infected", |Select(rows, MonoInfected)|, Sum(Select(rows, MonoInfected), Nuclei))
      && t[1] == TableRow("Multinucleated Infected", |Select(rows, MultiInfected)|, Sum(Select(rows, MultiInfected), Nuclei))
      && t[2] == TableRow("Total Infected", t[0].cells + t[1].cells, t[0].nuclei + t[1].nuclei)
      && t[3] == TableRow("Total incl uninfected", |rows|, Sum(rows, Nuclei))
      && t[2].cells <= t[3].cells && t[2].nuclei <= t[3].nuclei
  {
    var s := Summarize(rows);
    assert s.mono == CountsOf(Select(rows, MonoInfected));
    assert s.multi == CountsOf(Select(rows, MultiInfected));
  }
}

/** The per-column summary sheets of `jane` (patrickjane.py, lines 105-141):
    for each requested column, the sheets of the workbook that contain it,
    in workbook order; a column found in no sheet gets no summary sheet. */
module Jane {
  import opened Text
  import opened Seqs
  import opened SheetNames
  import opened Workbook

  /** How often `c` is requested. */
  function Occurrences(cols: seq<string>, c: string): (n: nat)
    ensures n == 0 <==> c !in cols
  {
    var f := Filter(cols, x => x == c);
    FilterMembership(cols, x => x == c);
    assert |f| > 0 ==> f[0] in f;
    |f|
  }

  /** The keys of `{col: [] for col in summary_columns}`: the requested
      columns, each once, in order of first request. */
  function Keys(cols: seq<string>): (k: seq<string>)
    ensures Distinct(k)
    ensures forall c :: c in k <==> c in cols
    decreases |cols|
  {
    if |cols| == 0 then []
    else
      var k := Keys(cols[..|cols| - 1]);
      assert cols == cols[..|cols| - 1] + [cols[|cols| - 1]];
      if cols[|cols| - 1] in k then k else k + [cols[|cols| - 1]]
  }

  lemma {:induction false} KeysOfDistinct(cols: seq<string>)
    requires Distinct(cols)
    ensures Keys(cols) == cols
    decreases |cols|
  {
    if |cols| > 0 {
      KeysOfDistinct(cols[..|cols| - 1]);
    }
  }

  function Repeat(x: string, n: nat): (r: seq<string>)
    ensures |r| == n
    ensures forall i :: 0 <= i < n ==> r[i] == x
  {
    seq(n, _ => x)
  }

  /** The list `summary_data[c]` after the scan: the scan visits the sheets
      in workbook order and, for every request of `c`, appends the column of
      each sheet that has it, named after that sheet. */
  function Gathered(wb: seq<Sheet>, cols: seq<string>, c: string): seq<string>
    decreases |wb|
  {
    if |wb| == 0 then []
    else
      var last := wb[|wb| - 1];
      Gathered(wb[..|wb| - 1], cols, c) + (if c in last.columns then Repeat(last.name, Occurrences(cols, c)) else [])
  }

  predicate HasColumn(c: string, s: Sheet)
  {
    c in s.columns
  }

  /** A column requested once is gathered from exactly the sheets that hold
      it, in workbook order. */
  lemma {:induction false} GatheredOnce(wb: seq<Sheet>, cols: seq<string>, c: string)
    requires Occurrences(cols, c) == 1
    ensures Gathered(wb, cols, c) == Names(Filter(wb, s => HasColumn(c, s)))
    decreases |wb|
  {
    if |wb| > 0 {
      var n := |wb| - 1;
      GatheredOnce(wb[..n], cols, c);
      var f := Filter(wb[..n], s => HasColumn(c, s));
      if HasColumn(c, wb[n]) {
        assert Names(f + [wb[n]]) == Names(f) + [wb[n].name];
      }
    }
  }

  /** Nothing is gathered for a column exactly when it is not requested or
      no sheet holds it. */
  lemma {:induction false} GatheredEmpty(wb: seq<Sheet>, cols: seq<string>, c: string)
    ensures Gathered(wb, cols, c) == [] <==> c !in cols || forall i :: 0 <= i < |wb| ==> c !in wb[i].columns
    decreases |wb|
  {
    if |wb| > 0 {
      GatheredEmpty(wb[..|wb| - 1], cols, c);
    }
  }

  /** The name a summary sheet asks the allocator for. */
  function SummaryTitle(c: string): string
  {
    c + " Summary"
  }

  /** The requested columns that get a summary sheet, in key order. */
  function WithData(source: seq<Sheet>, cols: seq<string>, keys: seq<string>): seq<string>
  {
    Filter(keys, k => Gathered(source, cols, k) != [])
  }

  /** Every key with data is kept. */
  lemma WithDataAll(source: seq<Sheet>, cols: seq<string>, keys: seq<string>)
    requires forall i :: 0 <= i < |keys| ==> Gathered(source, cols, keys[i]) != []
    ensures WithData(source, cols, keys) == keys
  {
    FilterKeepsAll(keys, k => Gathered(source, cols, k) != []);
  }

  /** What is gathered for a column are names of sheets of the workbook. */
  lemma {:induction false} GatheredNames(wb: seq<Sheet>, cols: seq<string>, c: string)
    ensures forall x :: x in Gathered(wb, cols, c) ==> x in Names(wb)
    decreases |wb|
  {
    if |wb| > 0 {
      var n := |wb| - 1;
      GatheredNames(wb[..n], cols, c);
      assert Names(wb) == Names(wb[..n]) + [wb[n].name];
    }
  }

  /** The names `jane` asks the allocator for, one per column. */
  function Titles(cols: seq<string>): (t: seq<string>)
    ensures |t| == |cols|
    ensures forall i :: 0 <= i < |cols| ==> t[i] == SummaryTitle(cols[i])
  {
    seq(|cols|, i requires 0 <= i < |cols| => SummaryTitle(cols[i]))
  }

  /** The names of `names` not among `taken`, in order: the sheets a run of
      writes appends rather than replaces. */
  function Added(names: seq<string>, taken: seq<string>): seq<string>
    decreases |names|
  {
    if |names| == 0 then []
    else (if names[0] in taken then [] else [names[0]]) + Added(names[1..], taken)
  }

  lemma {:induction false} AddedAgree(names: seq<string>, t1: seq<string>, t2: seq<string>)
    requires forall x :: x in names ==> (x in t1 <==> x in t2)
    ensures Added(names, t1) == Added(names, t2)
    decreases |names|
  {
    if |names| > 0 {
      assert forall x :: x in names[1..] ==> x in names;
      AddedAgree(names[1..], t1, t2);
    }
  }

  lemma {:induction false} AddedAll(names: seq<string>, taken: seq<string>)
    requires forall x :: x in names ==> x !in taken
    ensures Added(names, taken) == names
    decreases |names|
  {
    if |names| > 0 {
      assert forall x :: x in names[1..] ==> x in names;
      AddedAll(names[1..], taken);
    }
  }

  /** Fresh names are added to a workbook all of whose names are recorded. */
  lemma AddedWhenRecorded(names: seq<string>, taken: seq<string>, used: set<string>)
    requires forall x :: x in names ==> x !in used
    ensures (forall x :: x in taken ==> x in used) ==> Added(names, taken) == names
  {
    if forall x :: x in taken ==> x in used {
      AddedAll(names, taken);
    }
  }

  datatype JaneResult = JaneResult(workbook: seq<Sheet>, used: set<string>, summaries: seq<string>)

  /** What the writing loop guarantees about its result `r`, having started
      from `wb` with the names `used`: the summary names are those of
      allocating the titles of the columns with data in turn; each summary
      sheet holds its column's gathered data; every existing sheet whose
      name no summary took is still there; and a summary whose name is
      already a sheet's replaces that sheet in place, while the others are
      appended in order. */
  predicate Wrote(source: seq<Sheet>, cols: seq<string>, keys: seq<string>, wb: seq<Sheet>, used: set<string>, r: JaneResult)
  {
    && (r.summaries, r.used) == UniqueSheetNames(Titles(WithData(source, cols, keys)), MaxLength, used)
    && |r.summaries| == |WithData(source, cols, keys)|
    && (forall i :: 0 <= i < |r.summaries| ==>
         Sheet(r.summaries[i], Gathered(source, cols, WithData(source, cols, keys)[i])) in r.workbook)
    && (forall x :: x in wb && x.name !in r.summaries ==> x in r.workbook)
    && Names(r.workbook) == Names(wb) + Added(r.summaries, Names(wb))
  }

  /** The writing loop: for each key with data, allocate a sheet name for
      "<column> Summary" and write the gathered columns under it. The data
      all come from `source`, the workbook as it was read before writing. */
  function WriteSummaries(source: seq<Sheet>, cols: seq<string>, keys: seq<string>, wb: seq<Sheet>, used: set<string>): (r: JaneResult)
    ensures Wrote(source, cols, keys, wb, used, r)
    ensures Distinct(Names(wb)) ==> Distinct(Names(r.workbook))
    decreases |keys|
  {
    if |keys| == 0 then JaneResult(wb, used, [])
    else
      var k := keys[0];
      var data := Gathered(source, cols, k);
      if data == [] then
        var r := WriteSummaries(source, cols, keys[1..], wb, used);
        SkipStep(source, cols, keys, wb, used, r);
        r
      else
        var a := UniqueSheetName(SummaryTitle(k), MaxLength, used);
        var wb' := WriteSheet(wb, Sheet(a.name, data));
        var rest := WriteSummaries(source, cols, keys[1..], wb', a.used);
        WriteStep(source, cols, keys, wb, used, rest);
        JaneResult(rest.workbook, rest.used, [a.name] + rest.summaries)
  }

  lemma WithDataCons(source: seq<Sheet>, cols: seq<string>, keys: seq<string>)
    requires |keys| > 0
    ensures Gathered(source, cols, keys[0]) == [] ==> WithData(source, cols, keys) == WithData(source, cols, keys[1..])
    ensures Gathered(source, cols, keys[0]) != [] ==> WithData(source, cols, keys) == [keys[0]] + WithData(source, cols, keys[1..])
  {
    var k := keys[0];
    FilterConcat([k], keys[1..], k => Gathered(source, cols, k) != []);
    assert keys == [k] + keys[1..];
    assert [k][..0] == [];
  }

  /** The step of the writing loop for a first key without data. */
  lemma SkipStep(source: seq<Sheet>, cols: seq<string>, keys: seq<string>, wb: seq<Sheet>, used: set<string>, r: JaneResult)
    requires |keys| > 0 && Gathered(source, cols, keys[0]) == []
    requires Wrote(source, cols, keys[1..], wb, used, r)
    ensures Wrote(source, cols, keys, wb, used, r)
  {
    WithDataCons(source, cols, keys);
    var w := WithData(source, cols, keys);
    assert w == WithData(source, cols, keys[1..]);
    assert |r.summaries| == |w|;
    assert forall i :: 0 <= i < |r.summaries| ==> Sheet(r.summaries[i], Gathered(source, cols, w[i])) in r.workbook;
  }

  /** The step of the writing loop for a first key with data. */
  lemma WriteStep(source: seq<Sheet>, cols: seq<string>, keys: seq<string>, wb: seq<Sheet>, used: set<string>, rest: JaneResult)
    requires |keys| > 0 && Gathered(source, cols, keys[0]) != []
    requires var a := UniqueSheetName(SummaryTitle(keys[0]), MaxLength, used);
      Wrote(source, cols, keys[1..], WriteSheet(wb, Sheet(a.name, Gathered(source, cols, keys[0]))), a.used, rest)
    ensures var a := UniqueSheetName(SummaryTitle(keys[0]), MaxLength, used);
      Wrote(source, cols, keys, wb, used, JaneResult(rest.workbook, rest.used, [a.name] + rest.summaries))
  {
    var k := keys[0];
    var data := Gathered(source, cols, k);
    var a := UniqueSheetName(SummaryTitle(k), MaxLength, used);
    var wb' := WriteSheet(wb, Sheet(a.name, data));
    var later := WithData(source, cols, keys[1..]);
    WithDataCons(source, cols, keys);
    StepAllocation(k, later, used, rest);
    assert a.name !in rest.summaries;
    StepContents(source, cols, k, later, a.name, rest);
    forall x | x in wb && x.name !in [a.name] + rest.summaries
      ensures x in rest.workbook
    {
      assert x in wb';
    }
    StepNames(Names(wb), Names(wb'), a.name, rest.summaries);
  }

  lemma StepContents(source: seq<Sheet>, cols: seq<string>, k: string, later: seq<string>, n: string, rest: JaneResult)
    requires Sheet(n, Gathered(source, cols, k)) in rest.workbook
    requires |rest.summaries| == |later|
    requires forall i :: 0 <= i < |rest.summaries| ==> Sheet(rest.summaries[i], Gathered(source, cols, later[i])) in rest.workbook
    ensures var all := [k] + later; var names := [n] + rest.summaries;
      forall i :: 0 <= i < |names| ==> Sheet(names[i], Gathered(source, cols, all[i])) in rest.workbook
  {
    var all := [k] + later;
    var names := [n] + rest.summaries;
    forall i | 0 <= i < |names|
      ensures Sheet(names[i], Gathered(source, cols, all[i])) in rest.workbook
    {
      if i > 0 {
        assert names[i] == rest.summaries[i - 1];
        assert all[i] == later[i - 1];
      }
    }
  }

  lemma StepAllocation(k: string, later: seq<string>, used: set<string>, rest: JaneResult)
    requires var a := UniqueSheetName(SummaryTitle(k), MaxLength, used);
      (rest.summaries, rest.used) == UniqueSheetNames(Titles(later), MaxLength, a.used)
    ensures var a := UniqueSheetName(SummaryTitle(k), MaxLength, used);
      ([a.name] + rest.summaries, rest.used) == UniqueSheetNames(Titles([k] + later), MaxLength, used)
  {
    var titles := Titles([k] + later);
    assert titles[0] == SummaryTitle(k);
    assert titles[1..] == Titles(later);
  }

  /** Writing the name `n` to the names `ns` and then the names `rest`
      adds the same names as writing `[n] + rest` at once. */
  lemma StepNames(ns: seq<string>, ns': seq<string>, n: string, rest: seq<string>)
    requires ns' == if n in ns then ns else ns + [n]
    requires n !in rest
    ensures ns' + Added(rest, ns') == ns + Added([n] + rest, ns)
  {
    AddedCons(n, rest, ns);
    if n !in ns {
      forall x | x in rest
        ensures x in ns + [n] <==> x in ns
      {
      }
      AddedAgree(rest, ns + [n], ns);
      assert ns + [n] + Added(rest, ns) == ns + ([n] + Added(rest, ns));
    }
  }

  lemma AddedCons(n: string, rest: seq<string>, taken: seq<string>)
    ensures Added([n] + rest, taken) == (if n in taken then [] else [n]) + Added(rest, taken)
  {
    assert ([n] + rest)[0] == n;
    assert ([n] + rest)[1..] == rest;
  }

  /** `jane`: one summary sheet per requested column found in some sheet,
      named by allocating "<column> Summary" in key order and holding the
      names of the sheets the column was gathered from. When every name of
      the workbook is already recorded as used, the summaries are all
      appended and nothing existing is replaced. */
  function Jane(wb: seq<Sheet>, cols: seq<string>, used: set<string>): (r: JaneResult)
    ensures (r.summaries, r.used) == UniqueSheetNames(Titles(WithData(wb, cols, Keys(cols))), MaxLength, used)
    ensures |r.summaries| == |WithData(wb, cols, Keys(cols))|
    ensures forall i :: 0 <= i < |r.summaries| ==>
      Sheet(r.summaries[i], Gathered(wb, cols, WithData(wb, cols, Keys(cols))[i])) in r.workbook
    ensures forall x :: x in wb && x.name !in r.summaries ==> x in r.workbook
    ensures Names(r.workbook) == Names(wb) + Added(r.summaries, Names(wb))
    ensures (forall x :: x in Names(wb) ==> x in used) ==> Names(r.workbook) == Names(wb) + r.summaries
    ensures Distinct(Names(wb)) ==> Distinct(Names(r.workbook))
  {
    var r := WriteSummaries(wb, cols, Keys(cols), wb, used);
    AddedWhenRecorded(r.summaries, Names(wb), used);
    r
  }

  /** When every name of the workbook is already recorded, `jane` leaves the
      existing sheets where they are and appends one sheet per column with
      data, holding that column's gathered data. */
  lemma JaneAppends(wb: seq<Sheet>, cols: seq<string>, used: set<string>)
    requires Distinct(Names(wb))
    requires forall x :: x in Names(wb) ==> x in used
    ensures var r := Jane(wb, cols, used);
      var data := WithData(wb, cols, Keys(cols));
      r.workbook == wb + seq(|data|, i requires 0 <= i < |data| => Sheet(r.summaries[i], Gathered(wb, cols, data[i])))
  {
    var r := Jane(wb, cols, used);
    AppendsFrom(wb, cols, WithData(wb, cols, Keys(cols)), used, r);
  }

  lemma AppendsFrom(wb: seq<Sheet>, cols: seq<string>, data: seq<string>, used: set<string>, r: JaneResult)
    requires Distinct(Names(wb)) && Distinct(Names(r.workbook))
    requires forall x :: x in Names(wb) ==> x in used
    requires forall x :: x in r.summaries ==> x !in used
    requires |r.summaries| == |data|
    requires forall i :: 0 <= i < |r.summaries| ==> Sheet(r.summaries[i], Gathered(wb, cols, data[i])) in r.workbook
    requires forall x :: x in wb && x.name !in r.summaries ==> x in r.workbook
    requires Names(r.workbook) == Names(wb) + r.summaries
    ensures r.workbook == wb + seq(|data|, i requires 0 <= i < |data| => Sheet(r.summaries[i], Gathered(wb, cols, data[i])))
  {
    var sheets := seq(|data|, i requires 0 <= i < |data| => Sheet(r.summaries[i], Gathered(wb, cols, data[i])));
    assert Names(sheets) == r.summaries;
    forall x | x in sheets
      ensures x in r.workbook
    {
      var i :| 0 <= i < |sheets| && sheets[i] == x;
      assert x == Sheet(r.summaries[i], Gathered(wb, cols, data[i]));
    }
    AppendedLayout(wb, r.workbook, sheets);
  }
}

/** The workbook as an ordered list of named sheets: writing a sheet in
    append mode with `if_sheet_exists="replace"` (patrickjane.py, lines
    136-141 and 304-305) and the final reordering (lines 355-363). */
module Workbook {
  import opened Wrappers
  import opened Seqs

  /** A sheet, reduced to its name and header row. */
  datatype Sheet = Sheet(name: string, columns: seq<string>)

  function Names(wb: seq<Sheet>): (ns: seq<string>)
    ensures |ns| == |wb|
    ensures forall i :: 0 <= i < |wb| ==> ns[i] == wb[i].name
  {
    seq(|wb|, i requires 0 <= i < |wb| => wb[i].name)
  }

  /** Position of the first sheet with the given name. */
  function Find(wb: seq<Sheet>, name: string): (r: Option<nat>)
    ensures r.None? <==> name !in Names(wb)
    ensures r.Some? ==> r.value < |wb| && wb[r.value].name == name
    decreases |wb|
  {
    if |wb| == 0 then None
    else if wb[|wb| - 1].name == name then
      match Find(wb[..|wb| - 1], name)
      case Some(i) => Some(i)
      case None => Some(|wb| - 1)
    else
      match Find(wb[..|wb| - 1], name)
      case Some(i) => Some(i)
      case None =>
        assert Names(wb) == Names(wb[..|wb| - 1]) + [wb[|wb| - 1].name];
        None
  }

  /** Writing a sheet: a sheet of the same name is replaced where it stands,
      otherwise the new sheet is appended. The order of names is kept, no
      other sheet changes, and distinct names stay distinct. */
  function WriteSheet(wb: seq<Sheet>, sh: Sheet): (r: seq<Sheet>)
    ensures Names(r) == if sh.name in Names(wb) then Names(wb) else Names(wb) + [sh.name]
    ensures sh in r
    ensures forall i :: 0 <= i < |wb| && wb[i].name != sh.name ==> r[i] == wb[i]
    ensures forall x :: x in wb && x.name != sh.name ==> x in r
    ensures Distinct(Names(wb)) ==> Distinct(Names(r))
  {
    var r := match Find(wb, sh.name)
      case Some(i) => wb[i := sh]
      case None => wb + [sh];
    assert forall i :: 0 <= i < |wb| && wb[i].name != sh.name ==> r[i] == wb[i];
    r
  }

  /** In a workbook with distinct names, a sheet is determined by its name. */
  lemma SheetAt(wb: seq<Sheet>, sh: Sheet, i: nat)
    requires Distinct(Names(wb))
    requires sh in wb && i < |wb| && wb[i].name == sh.name
    ensures wb[i] == sh
  {
    var j :| 0 <= j < |wb| && wb[j] == sh;
    assert Names(wb)[i] == Names(wb)[j];
  }

  /** A workbook with distinct names that extends the names of `wb` by
      new ones, keeps every sheet of `wb` and holds every sheet of `sheets`
      is `wb` followed by `sheets`. */
  lemma AppendedLayout(wb: seq<Sheet>, out: seq<Sheet>, sheets: seq<Sheet>)
    requires Distinct(Names(out))
    requires Names(out) == Names(wb) + Names(sheets)
    requires forall x :: x in Names(sheets) ==> x !in Names(wb)
    requires forall x :: x in wb && x.name !in Names(sheets) ==> x in out
    requires forall x :: x in sheets ==> x in out
    ensures out == wb + sheets
  {
    forall k | 0 <= k < |out|
      ensures out[k] == (wb + sheets)[k]
    {
      if k < |wb| {
        assert wb[k].name == Names(wb)[k];
        SheetAt(out, wb[k], k);
      } else {
        var s := sheets[k - |wb|];
        assert s.name == Names(sheets)[k - |wb|];
        SheetAt(out, s, k);
      }
    }
  }

  /** Present priority names first, in priority order, then every other
      existing name in its existing order. */
  function Reorder(priority: seq<string>, existing: seq<string>): (r: seq<string>)
    ensures |r| <= |priority| + |existing|
  {
    Filter(priority, s => s in existing) + Filter(existing, s => s !in priority)
  }

  /** With distinct names on both sides, reordering is a permutation of the
      existing names. */
  lemma ReorderIsPermutation(priority: seq<string>, existing: seq<string>)
    requires Distinct(priority)
    requires Distinct(existing)
    ensures multiset(Reorder(priority, existing)) == multiset(existing)
  {
    FilterMultiset(priority, s => s in existing);
    FilterMultiset(existing, s => s !in priority);
    DistinctMultiset(priority);
    DistinctMultiset(existing);
  }

  /** The reordered list starts with exactly the priority names that exist,
      in priority order; the rest are the non-priority names read at their
      ascending positions in the existing order. */
  lemma ReorderLayout(priority: seq<string>, existing: seq<string>)
    ensures var r := Reorder(priority, existing);
      var head := Filter(priority, s => s in existing);
      && r[..|head|] == head
      && (forall i :: 0 <= i < |r| ==> (r[i] in priority <==> i < |head|))
      && SelectedAt(r[|head|..], existing, Positions(existing, s => s !in priority), s => s !in priority)
  {
    var r := Reorder(priority, existing);
    var head := Filter(priority, s => s in existing);
    var tail := Filter(existing, s => s !in priority);
    FilterMembership(priority, s => s in existing);
    assert r[|head|..] == tail;
    assert forall i :: 0 <= i < |head| ==> r[i] == head[i];
    assert forall i :: |head| <= i < |r| ==> r[i] == tail[i - |head|];
    FilterSelectsInOrder(existing, s => s !in priority);
  }

  /** Reordering an already reordered list changes nothing. */
  lemma ReorderIdempotent(priority: seq<string>, existing: seq<string>)
    ensures Reorder(priority, Reorder(priority, existing)) == Reorder(priority, existing)
  {
    var head := Filter(priority, s => s in existing);
    var tail := Filter(existing, s => s !in priority);
    var r := head + tail;
    assert Reorder(priority, existing) == r;
    SameMembers(priority, existing);
    FilterAgree(priority, s => s in r, s => s in existing);
    assert Filter(priority, s => s in r) == head;
    FilterConcat(head, tail, s => s !in priority);
    FilterMembership(priority, s => s in existing);
    assert forall i :: 0 <= i < |head| ==> head[i] in priority;
    FilterKeepsNone(head, s => s !in priority);
    FilterKeepsAll(tail, s => s !in priority);
    assert Filter(r, s => s !in priority) == tail;
  }

  lemma SameMembers(priority: seq<string>, existing: seq<string>)
    ensures forall x :: x in Reorder(priority, existing) <==> x in existing
  {
    FilterMembership(priority, s => s in existing);
    FilterMembership(existing, s => s !in priority);
  }
}

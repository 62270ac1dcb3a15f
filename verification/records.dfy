/** A measurement row of the input table and the optional zero-nuclei
    filter (patrickjane.py, lines 157 and 179-187). */
module Records {
  import opened Seqs

  /** One CSV row, reduced to the fields the rules read: `ObjectNumber`, the
      two 0/1 flags and `Children_Nuclei_Count`. The other requested
      measurement columns are carried by name only (see Pipeline). */
  datatype Record = Record(objectNumber: int, mononucleated: int, infected: int, nuclei: nat)

  const ObjectColumn := "ObjectNumber"
  const MonoColumn := "Classify_Mononucleated"
  const InfectedColumn := "Classify_Infected"
  const NucleiColumn := "Children_Nuclei_Count"

  predicate HasNuclei(r: Record)
  {
    r.nuclei != 0
  }

  predicate NoNuclei(r: Record)
  {
    r.nuclei == 0
  }

  /** What the filter step reports. */
  datatype Removal = NotRequested | ColumnMissing | Removed(count: nat)

  datatype Filtered = Filtered(rows: seq<Record>, removal: Removal)

  /** With the option on and the nuclei column present, drops the rows whose
      nuclei count is 0 and reports how many went; otherwise the rows are
      left alone. */
  function RemoveZeroNuclei(rows: seq<Record>, enabled: bool, columns: set<string>): (f: Filtered)
    ensures !enabled ==> f == Filtered(rows, NotRequested)
    ensures enabled && NucleiColumn !in columns ==> f == Filtered(rows, ColumnMissing)
    ensures enabled && NucleiColumn in columns ==>
      && f.removal == Removed(|Filter(rows, NoNuclei)|)
      && f.removal.count == |rows| - |f.rows|
      && (forall x :: x in f.rows <==> x in rows && x.nuclei != 0)
  {
    if !enabled then Filtered(rows, NotRequested)
    else if NucleiColumn !in columns then Filtered(rows, ColumnMissing)
    else
      var kept := Filter(rows, HasNuclei);
      ThreeWaySplit(rows, HasNuclei, NoNuclei, _ => false, _ => 0);
      FilterKeepsNone(rows, _ => false);
      FilterMembership(rows, HasNuclei);
      Filtered(kept, Removed(|rows| - |kept|))
  }

  /** The kept rows are the nonzero rows in their original order. */
  lemma RemoveZeroNucleiKeepsOrder(rows: seq<Record>, columns: set<string>)
    requires NucleiColumn in columns
    ensures SelectedAt(RemoveZeroNuclei(rows, true, columns).rows, rows, Positions(rows, HasNuclei), HasNuclei)
  {
    FilterSelectsInOrder(rows, HasNuclei);
  }
}

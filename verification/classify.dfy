/** The four-way split on the two 0/1 flags (patrickjane.py, lines 246-252). */
module Classifier {
  import opened Seqs
  import opened Records

  datatype Category = MonoInfected | MultiInfected | MonoUninfected | MultiUninfected

  /** The categories in the order the script's dictionary lists them, which
      is the order their sheets are written in. */
  const Categories: seq<Category> := [MonoInfected, MultiInfected, MonoUninfected, MultiUninfected]

  /** The dictionary key, used as the (candidate) sheet name. */
  function Label(c: Category): string
  {
    match c
    case MonoInfected => "Mononucleated_Infected"
    case MultiInfected => "Multinucleated_Infected"
    case MonoUninfected => "Mononucleated_Uninfected"
    case MultiUninfected => "Multinucleated_Uninfected"
  }

  /** The mask of one category: each flag compared with 1 or 0. */
  predicate InCategory(r: Record, c: Category)
  {
    match c
    case MonoInfected => r.mononucleated == 1 && r.infected == 1
    case MultiInfected => r.mononucleated == 0 && r.infected == 1
    case MonoUninfected => r.mononucleated == 1 && r.infected == 0
    case MultiUninfected => r.mononucleated == 0 && r.infected == 0
  }

  /** Both flags hold 0 or 1. */
  predicate WellFlagged(r: Record)
  {
    (r.mononucleated == 0 || r.mononucleated == 1) && (r.infected == 0 || r.infected == 1)
  }

  /** A row falls in at most one category, and in one exactly when both of
      its flags are 0 or 1. */
  lemma CategoryOfRow(r: Record)
    ensures forall c, d :: InCategory(r, c) && InCategory(r, d) ==> c == d
    ensures WellFlagged(r) <==> exists c :: InCategory(r, c)
  {
    if WellFlagged(r) {
      var c := if r.mononucleated == 1 then (if r.infected == 1 then MonoInfected else MonoUninfected)
               else (if r.infected == 1 then MultiInfected else MultiUninfected);
      assert InCategory(r, c);
    }
  }

  /** The rows of one category, in input order. */
  function Select(rows: seq<Record>, c: Category): (s: seq<Record>)
    ensures forall x :: x in s <==> x in rows && InCategory(x, c)
  {
    FilterMembership(rows, r => InCategory(r, c));
    Filter(rows, r => InCategory(r, c))
  }

  /** The `categories` dictionary: label and rows, in dictionary order. */
  function Classify(rows: seq<Record>): (parts: seq<(string, seq<Record>)>)
    ensures |parts| == |Categories|
    ensures forall i :: 0 <= i < |parts| ==> parts[i].0 == Label(Categories[i])
    ensures forall i :: 0 <= i < |parts| ==> forall x :: x in parts[i].1 <==> x in rows && InCategory(x, Categories[i])
  {
    seq(|Categories|, i requires 0 <= i < |Categories| => (Label(Categories[i]), Select(rows, Categories[i])))
  }

  /** No row value appears in two categories. */
  lemma ClassifyDisjoint(rows: seq<Record>)
    ensures forall i, j, x :: 0 <= i < j < |Classify(rows)| && x in Classify(rows)[i].1 ==> x !in Classify(rows)[j].1
  {
    var parts := Classify(rows);
    forall i, j, x | 0 <= i < j < |parts| && x in parts[i].1
      ensures x !in parts[j].1
    {
      assert parts[i].1 == Select(rows, Categories[i]) && parts[j].1 == Select(rows, Categories[j]);
      assert InCategory(x, Categories[i]);
      assert Categories[i] != Categories[j];
      CategoryOfRow(x);
    }
  }

  /** Together the four categories hold every row whose flags are 0 or 1,
      each exactly as often as it occurs in the input, and nothing else. */
  lemma {:induction false} ClassifyPartition(rows: seq<Record>)
    ensures var parts := Classify(rows);
      multiset(parts[0].1) + multiset(parts[1].1) + multiset(parts[2].1) + multiset(parts[3].1)
        == multiset(Filter(rows, WellFlagged))
  {
    var parts := Classify(rows);
    var whole := multiset(parts[0].1) + multiset(parts[1].1) + multiset(parts[2].1) + multiset(parts[3].1);
    forall x
      ensures whole[x] == multiset(Filter(rows, WellFlagged))[x]
    {
      CountOf(rows, r => InCategory(r, MonoInfected), x);
      CountOf(rows, r => InCategory(r, MultiInfected), x);
      CountOf(rows, r => InCategory(r, MonoUninfected), x);
      CountOf(rows, r => InCategory(r, MultiUninfected), x);
      CountOf(rows, WellFlagged, x);
      CategoryOfRow(x);
    }
  }

  /** How often one value occurs in a filtered sequence. */
  lemma CountOf<T>(s: seq<T>, p: T -> bool, x: T)
    ensures multiset(Filter(s, p))[x] == if p(x) then multiset(s)[x] else 0
  {
    FilterMultiset(s, p);
  }

  /** When every row's flags are 0 or 1 the split is a partition of the input. */
  lemma ClassifyPartitionsWellFlagged(rows: seq<Record>)
    requires forall i :: 0 <= i < |rows| ==> WellFlagged(rows[i])
    ensures var parts := Classify(rows);
      multiset(parts[0].1) + multiset(parts[1].1) + multiset(parts[2].1) + multiset(parts[3].1)
        == multiset(rows)
  {
    ClassifyPartition(rows);
    FilterKeepsAll(rows, WellFlagged);
  }

  /** Each category keeps the input's relative order: it is the input read
      at the ascending positions of exactly the rows in that category. */
  lemma ClassifyKeepsOrder(rows: seq<Record>, i: nat)
    requires i < |Categories|
    ensures var p := r => InCategory(r, Categories[i]);
      SelectedAt(Classify(rows)[i].1, rows, Positions(rows, p), p)
  {
    FilterSelectsInOrder(rows, r => InCategory(r, Categories[i]));
  }
}

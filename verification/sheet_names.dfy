/** `get_unique_sheet_name` (patrickjane.py, lines 83-98): a length-bounded,
    collision-free sheet name. The script keeps the used names in a global
    set; here the set is passed in and the extended set handed back. */
module SheetNames {
  import opened Text
  import opened Seqs
  import Fresh

  /** Default `max_length` of the allocator. */
  const MaxLength: nat := 25

  /** `f"_{counter}"`. */
  function Suffix(k: nat): string
  {
    "_" + Dec(k)
  }

  /** The name tried at attempt `k`: the base shortened to make room for the
      suffix, then the suffix. */
  function Candidate(base: string, maxLength: nat, k: nat): string
  {
    Prefix(base, maxLength - |Suffix(k)|) + Suffix(k)
  }

  /** Two strings ending in `_<i>` and `_<j>` can only be equal when i == j:
      the character before the shorter number is `_`, never a digit. */
  lemma SuffixDetermines(a: string, b: string, i: nat, j: nat)
    requires a + Suffix(i) == b + Suffix(j)
    ensures i == j
  {
    var w := a + Suffix(i);
    var m := |w|;
    var di, dj := Dec(i), Dec(j);
    assert w == b + Suffix(j);
    assert w[m - |di| - 1] == '_' && w[m - |dj| - 1] == '_';
    assert forall t :: m - |di| <= t < m ==> w[t] == di[t - (m - |di|)];
    assert forall t :: m - |dj| <= t < m ==> w[t] == dj[t - (m - |dj|)];
    assert !(m - |dj| <= m - |di| - 1);
    assert !(m - |di| <= m - |dj| - 1);
    assert di == w[m - |di|..] == dj;
    DecInjective(i, j);
  }

  lemma CandidatesDistinct(base: string, maxLength: nat)
    ensures Fresh.Injective(k => Candidate(base, maxLength, k))
  {
    forall i: nat, j: nat | 1 <= i && 1 <= j && Candidate(base, maxLength, i) == Candidate(base, maxLength, j)
      ensures i == j
    {
      SuffixDetermines(Prefix(base, maxLength - |Suffix(i)|), Prefix(base, maxLength - |Suffix(j)|), i, j);
    }
  }

  /** The counter value at which the probing loop stops, for a base name
      that is already used: the smallest k >= 1 whose candidate is free. */
  function Attempt(base: string, maxLength: nat, used: set<string>): (k: nat)
    ensures 1 <= k <= |used| + 1
    ensures Candidate(base, maxLength, k) !in used
    ensures forall j :: 1 <= j < k ==> Candidate(base, maxLength, j) in used
  {
    var cand: nat -> string := (k: nat) => Candidate(base, maxLength, k);
    CandidatesDistinct(base, maxLength);
    var k := Fresh.FirstFree(cand, used, 1);
    forall j | 1 <= j < k
      ensures Candidate(base, maxLength, j) in used
    {
      assert cand(j) in used;
    }
    k
  }

  datatype Allocation = Allocation(name: string, used: set<string>)

  /** The truncated name if it is free, otherwise the first free numbered
      candidate; the chosen name is recorded as used. */
  function UniqueSheetName(name: string, maxLength: nat, used: set<string>): (a: Allocation)
    ensures a.name !in used
    ensures a.used == used + {a.name}
    ensures Prefix(name, maxLength) !in used ==> a.name == Prefix(name, maxLength)
    ensures Prefix(name, maxLength) in used ==>
      exists k :: 1 <= k <= |used| + 1 && a.name == Candidate(Prefix(name, maxLength), maxLength, k)
        && forall j :: 1 <= j < k ==> Candidate(Prefix(name, maxLength), maxLength, j) in used
    ensures |Suffix(|used| + 1)| <= maxLength ==> |a.name| <= maxLength
  {
    var base := Prefix(name, maxLength);
    if base !in used then
      Allocation(base, used + {base})
    else
      var k := Attempt(base, maxLength, used);
      var n := Candidate(base, maxLength, k);
      assert |Suffix(|used| + 1)| <= maxLength ==> |n| <= maxLength by {
        DecLengthMonotone(k, |used| + 1);
      }
      Allocation(n, used + {n})
  }

  /** Allocating a list of names in turn gives pairwise distinct names, none
      of them previously used, and records all of them. */
  function UniqueSheetNames(names: seq<string>, maxLength: nat, used: set<string>): (r: (seq<string>, set<string>))
    ensures |r.0| == |names|
    ensures Distinct(r.0)
    ensures forall x :: x in r.0 ==> x !in used
    ensures forall x :: x in r.1 <==> x in used || x in r.0
    decreases |names|
  {
    if |names| == 0 then ([], used)
    else
      var a := UniqueSheetName(names[0], maxLength, used);
      var rest := UniqueSheetNames(names[1..], maxLength, a.used);
      ([a.name] + rest.0, rest.1)
  }

  /** Names that are short enough, pairwise distinct and not yet used come
      out unchanged. */
  lemma {:induction false} UniqueSheetNamesKeepsFresh(names: seq<string>, maxLength: nat, used: set<string>)
    requires forall i :: 0 <= i < |names| ==> |names[i]| <= maxLength && names[i] !in used
    requires Distinct(names)
    ensures UniqueSheetNames(names, maxLength, used).0 == names
    decreases |names|
  {
    if |names| > 0 {
      var a := UniqueSheetName(names[0], maxLength, used);
      assert Prefix(names[0], maxLength) == names[0];
      assert a.name == names[0];
      var tail := names[1..];
      forall i | 0 <= i < |tail|
        ensures |tail[i]| <= maxLength && tail[i] !in a.used
      {
        assert tail[i] == names[i + 1];
      }
      assert Distinct(tail) by {
        forall i, j | 0 <= i < j < |tail|
          ensures tail[i] != tail[j]
        {
          assert tail[i] == names[i + 1] && tail[j] == names[j + 1];
        }
      }
      UniqueSheetNamesKeepsFresh(tail, maxLength, a.used);
      assert names == [names[0]] + tail;
    }
  }

  /** Allocating two names in turn. */
  lemma TwoNames(n1: string, n2: string, maxLength: nat, used: set<string>)
    ensures var a1 := UniqueSheetName(n1, maxLength, used);
      UniqueSheetNames([n1, n2], maxLength, used).0 == [a1.name, UniqueSheetName(n2, maxLength, a1.used).name]
  {
    assert [n1, n2][1..] == [n2];
    assert [n2][1..] == [];
  }

  /** The default summary sheet name for the nuclei column is cut to
      "Children_Nuclei_Count Sum", the spelling the final sheet order
      expects. */
  lemma NucleiSummaryName(used: set<string>)
    requires "Children_Nuclei_Count Sum" !in used
    ensures UniqueSheetName("Children_Nuclei_Count Summary", MaxLength, used).name == "Children_Nuclei_Count Sum"
  {
    assert Prefix("Children_Nuclei_Count Summary", MaxLength) == "Children_Nuclei_Count Sum";
  }
}

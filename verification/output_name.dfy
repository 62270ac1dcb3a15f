/** The output file name probe (patrickjane.py, lines 254-264):
    `output_<stem>.xlsx`, or the first `output_<stem>_<k>.xlsx` that does
    not exist. The file system is represented by the set of existing paths. */
module OutputFile {
  import opened Text
  import Fresh

  function Plain(stem: string): string
  {
    "output_" + stem + ".xlsx"
  }

  /** `f"{original_outfile[:-5]}_{counter}.xlsx"`: always built from the
      original name, whose last five characters `.xlsx` are cut off, so the
      numbers never stack. */
  function Numbered(stem: string, k: nat): (p: string)
    ensures p == "output_" + stem + "_" + Dec(k) + ".xlsx"
  {
    assert Prefix(Plain(stem), -5) == "output_" + stem;
    Prefix(Plain(stem), -5) + "_" + Dec(k) + ".xlsx"
  }

  lemma NumberedDistinct(stem: string)
    ensures Fresh.Injective((k: nat) => Numbered(stem, k))
  {
    forall i: nat, j: nat | 1 <= i && 1 <= j && Numbered(stem, i) == Numbered(stem, j)
      ensures i == j
    {
      var p := Numbered(stem, i);
      var start := |"output_" + stem + "_"|;
      assert |Dec(i)| == |Dec(j)|;
      assert Dec(i) == p[start..start + |Dec(i)|] == Dec(j);
      DecInjective(i, j);
    }
  }

  /** The path the script writes to. It never exists yet; it is the plain
      name whenever that is free, and otherwise the numbered name with the
      smallest free number. */
  function OutputName(stem: string, existing: set<string>): (p: string)
    ensures p !in existing
    ensures Plain(stem) !in existing ==> p == Plain(stem)
    ensures Plain(stem) in existing ==>
      exists k :: 1 <= k <= |existing| + 1 && p == Numbered(stem, k)
        && forall j :: 1 <= j < k ==> Numbered(stem, j) in existing
  {
    if Plain(stem) !in existing then Plain(stem)
    else
      var cand: nat -> string := (k: nat) => Numbered(stem, k);
      NumberedDistinct(stem);
      var k := Fresh.FirstFree(cand, existing, 1);
      forall j | 1 <= j < k
        ensures Numbered(stem, j) in existing
      {
        assert cand(j) in existing;
      }
      Numbered(stem, k)
  }

  /** Processing the same input twice: the second run gets `_1`. */
  lemma SecondRunGetsSuffix(stem: string)
    ensures OutputName(stem, {}) == "output_" + stem + ".xlsx"
    ensures OutputName(stem, {OutputName(stem, {})}) == "output_" + stem + "_1.xlsx"
  {
    var first := OutputName(stem, {});
    var second := OutputName(stem, {first});
    assert |Numbered(stem, 1)| != |first|;
    var k :| 1 <= k <= 2 && second == Numbered(stem, k)
      && forall j :: 1 <= j < k ==> Numbered(stem, j) in {first};
    assert k == 1;
    assert Dec(1) == "1";
  }
}

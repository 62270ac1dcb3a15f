/** The nuclei-per-infected-cell histogram (patrickjane.py, lines 281-293)
    and the placement of its chart on the combined summary sheet (lines
    295-301, 315-345). */
module Histogram {
  import opened Wrappers
  import opened Text
  import opened Seqs

  /** A bin edge of `pd.cut`: a number or `float('inf')`. */
  datatype Edge = Finite(v: nat) | Infinity

  /** `list(range(0, max_bin)) + [float('inf')]`. */
  function Edges(maxBin: int): (e: seq<Edge>)
    ensures |e| == (if maxBin > 0 then maxBin else 0) + 1
  {
    seq(if maxBin > 0 then maxBin else 0, i requires 0 <= i => Finite(i)) + [Infinity]
  }

  /** The number of labels `[str(i) for i in range(1, max_bin)] + [f"{max_bin}+"]`
      produces. */
  function LabelCount(maxBin: int): nat
  {
    (if maxBin > 1 then maxBin - 1 else 0) + 1
  }

  /** `pd.cut` accepts the labels only when there is one label per interval. */
  predicate LabelsFit(maxBin: int)
  {
    LabelCount(maxBin) == |Edges(maxBin)| - 1
  }

  lemma LabelsFitIff(maxBin: int)
    ensures LabelsFit(maxBin) <==> 1 <= maxBin
  {
  }

  /** The bucket labels "1" .. "max_bin-1", then "max_bin+". */
  function Labels(maxBin: nat): (l: seq<string>)
    requires 1 <= maxBin
    ensures |l| == maxBin
    ensures forall i :: 0 <= i < maxBin - 1 ==> l[i] == Dec(i + 1)
    ensures l[maxBin - 1] == Dec(maxBin) + "+"
  {
    seq(maxBin - 1, i requires 0 <= i => Dec(i + 1)) + [Dec(maxBin) + "+"]
  }

  /** Interval `i` of `pd.cut(..., right=True, include_lowest=True)`:
      (edges[i], edges[i+1]], with the lowest edge itself included in the
      first interval. */
  predicate InInterval(n: nat, edges: seq<Edge>, i: nat)
    requires i + 1 < |edges|
  {
    && ((edges[i].Finite? && edges[i].v < n) || (i == 0 && edges[0] == Finite(n)))
    && (edges[i + 1].Infinity? || n <= edges[i + 1].v)
  }

  /** The bucket of a nuclei count: 0 and 1 go to the first, k to bucket
      k-1 while k < max_bin, everything from max_bin on to the last. It is
      the one and only interval of the cut that holds the count. */
  function BucketOf(n: nat, maxBin: nat): (i: nat)
    requires 1 <= maxBin
    ensures i < maxBin
    ensures InInterval(n, Edges(maxBin), i)
    ensures forall j :: 0 <= j < maxBin && InInterval(n, Edges(maxBin), j) ==> j == i
  {
    if n <= 1 then 0 else if n < maxBin then n - 1 else maxBin - 1
  }

  /** Counts per bucket, one value at a time. */
  function Tally(values: seq<nat>, maxBin: nat): (c: seq<nat>)
    requires 1 <= maxBin
    ensures |c| == maxBin
    decreases |values|
  {
    if |values| == 0 then seq(maxBin, _ => 0)
    else
      var c := Tally(values[..|values| - 1], maxBin);
      var b := BucketOf(values[|values| - 1], maxBin);
      c[b := c[b] + 1]
  }

  function SumAll(c: seq<nat>): nat
    decreases |c|
  {
    if |c| == 0 then 0 else SumAll(c[..|c| - 1]) + c[|c| - 1]
  }

  lemma {:induction false} SumAllUpdate(c: seq<nat>, b: nat)
    requires b < |c|
    ensures SumAll(c[b := c[b] + 1]) == SumAll(c) + 1
    decreases |c|
  {
    var n := |c| - 1;
    if b < n {
      assert c[b := c[b] + 1][..n] == c[..n][b := c[..n][b] + 1];
      SumAllUpdate(c[..n], b);
    } else {
      assert c[b := c[b] + 1][..n] == c[..n];
    }
  }

  lemma {:induction false} SumAllZeros(k: nat)
    ensures SumAll(seq(k, _ => 0)) == 0
    decreases k
  {
    if k > 0 {
      assert seq(k, _ => 0)[..k - 1] == seq(k - 1, _ => 0);
      SumAllZeros(k - 1);
    }
  }

  /** Each bucket's count is the number of values falling in it, and the
      counts add up to the number of values. */
  lemma {:induction false} TallyCounts(values: seq<nat>, maxBin: nat)
    requires 1 <= maxBin
    ensures forall i :: 0 <= i < maxBin ==>
      Tally(values, maxBin)[i] == |Filter(values, v => BucketOf(v, maxBin) == i)|
    ensures SumAll(Tally(values, maxBin)) == |values|
    decreases |values|
  {
    if |values| == 0 {
      SumAllZeros(maxBin);
    } else {
      var n := |values| - 1;
      TallyCounts(values[..n], maxBin);
      SumAllUpdate(Tally(values[..n], maxBin), BucketOf(values[n], maxBin));
    }
  }

  /** One row of `nuclei_distribution`. */
  datatype Bucket = Bucket(tag: string, count: nat)

  /** `pd.cut` refuses the bins and labels. */
  datatype CutError = LabelsDoNotFitBins

  function CountTotal(b: seq<Bucket>): nat
    decreases |b|
  {
    if |b| == 0 then 0 else CountTotal(b[..|b| - 1]) + b[|b| - 1].count
  }

  lemma {:induction false} CountTotalIsSum(labels: seq<string>, c: seq<nat>)
    requires |labels| == |c|
    ensures CountTotal(seq(|c|, i requires 0 <= i < |c| => Bucket(labels[i], c[i]))) == SumAll(c)
    decreases |c|
  {
    if |c| > 0 {
      var n := |c| - 1;
      assert seq(|c|, i requires 0 <= i < |c| => Bucket(labels[i], c[i]))[..n]
          == seq(n, i requires 0 <= i < n => Bucket(labels[..n][i], c[..n][i]));
      CountTotalIsSum(labels[..n], c[..n]);
    }
  }

  /** `binned.value_counts().sort_index()` of the categorical cut: every
      label in order, with its count, zero counts included. */
  function Distribution(values: seq<nat>, maxBin: int): (r: Result<seq<Bucket>, CutError>)
    ensures r.Err? <==> maxBin < 1
    ensures r.Ok? ==> |r.value| == maxBin
    ensures r.Ok? ==> forall i :: 0 <= i < maxBin - 1 ==> r.value[i].tag == Dec(i + 1)
    ensures r.Ok? ==> r.value[maxBin - 1].tag == Dec(maxBin) + "+"
    ensures r.Ok? ==> forall i :: 0 <= i < maxBin ==>
      r.value[i].count == |Filter(values, v => BucketOf(v, maxBin) == i)|
    ensures r.Ok? ==> CountTotal(r.value) == |values|
  {
    LabelsFitIff(maxBin);
    if !LabelsFit(maxBin) then Err(LabelsDoNotFitBins)
    else
      var labels := Labels(maxBin);
      var c := Tally(values, maxBin);
      TallyCounts(values, maxBin);
      CountTotalIsSum(labels, c);
      Ok(seq(maxBin, i requires 0 <= i < maxBin => Bucket(labels[i], c[i])))
  }

  /** Nuclei counts [1, 1, 2, 5, 7] with max_bin 5 give buckets
      "1": 2, "2": 1, "3": 0, "4": 0, "5+": 2. */
  lemma ExampleDistribution()
    ensures Distribution([1, 1, 2, 5, 7], 5).Ok?
    ensures var b := Distribution([1, 1, 2, 5, 7], 5).value;
      [b[0].count, b[1].count, b[2].count, b[3].count, b[4].count] == [2, 1, 0, 0, 2]
  {
    var v: seq<nat> := [1, 1, 2, 5, 7];
    assert Tally(v, 5) == [2, 1, 0, 0, 2] by {
      assert Tally([], 5) == [0, 0, 0, 0, 0];
      assert [1][..0] == [];
      assert Tally([1], 5) == [1, 0, 0, 0, 0];
      assert [1, 1][..1] == [1];
      assert Tally([1, 1], 5) == [2, 0, 0, 0, 0];
      assert [1, 1, 2][..2] == [1, 1];
      assert Tally([1, 1, 2], 5) == [2, 1, 0, 0, 0];
      assert [1, 1, 2, 5][..3] == [1, 1, 2];
      assert Tally([1, 1, 2, 5], 5) == [2, 1, 0, 0, 1];
      assert v[..4] == [1, 1, 2, 5];
    }
    TallyCounts(v, 5);
  }
}

/** The "probe until free" loop shared by the sheet-name allocator and the
    output-file naming: try candidate 1, 2, ... and stop at the first one
    not yet taken. Because distinct attempt numbers give distinct
    candidates and the taken set is finite, the search always stops, after
    at most one attempt more than there are taken names. */
module Fresh {

  /** Distinct attempt numbers (from 1 on) give distinct candidates. */
  ghost predicate Injective<T>(cand: nat -> T)
  {
    forall i: nat, j: nat :: 1 <= i && 1 <= j && cand(i) == cand(j) ==> i == j
  }

  /** Every candidate numbered 1 .. k-1 is taken. */
  ghost predicate TakenBelow<T>(cand: nat -> T, taken: set<T>, k: nat)
  {
    forall j: nat :: 1 <= j < k ==> cand(j) in taken
  }

  /** The candidates numbered 1 .. k. */
  function Image<T>(cand: nat -> T, k: nat): set<T>
    decreases k
  {
    if k == 0 then {} else Image(cand, k - 1) + {cand(k)}
  }

  lemma {:induction false} ImageExcludesLater<T>(cand: nat -> T, k: nat, m: nat)
    requires Injective(cand)
    requires k < m
    ensures cand(m) !in Image(cand, k)
    decreases k
  {
    if k > 0 {
      ImageExcludesLater(cand, k - 1, m);
    }
  }

  lemma {:induction false} ImageSize<T>(cand: nat -> T, k: nat)
    requires Injective(cand)
    ensures |Image(cand, k)| == k
    decreases k
  {
    if k > 0 {
      ImageSize(cand, k - 1);
      ImageExcludesLater(cand, k - 1, k);
    }
  }

  lemma {:induction false} ImageTaken<T>(cand: nat -> T, taken: set<T>, k: nat)
    requires TakenBelow(cand, taken, k + 1)
    ensures Image(cand, k) <= taken
    decreases k
  {
    if k > 0 {
      ImageTaken(cand, taken, k - 1);
    }
  }

  /** If the first `k` candidates are all taken, there are at least `k`
      taken names. */
  lemma TakenBound<T>(cand: nat -> T, taken: set<T>, k: nat)
    requires Injective(cand)
    requires TakenBelow(cand, taken, k + 1)
    ensures k <= |taken|
  {
    ImageSize(cand, k);
    ImageTaken(cand, taken, k);
    SubsetSize(Image(cand, k), taken);
  }

  lemma SubsetSize<T>(a: set<T>, b: set<T>)
    requires a <= b
    ensures |a| <= |b|
  {
    assert b == a + (b - a);
  }

  /** The first untaken candidate numbered `k` or later. */
  function FirstFree<T>(cand: nat -> T, taken: set<T>, k: nat): (r: nat)
    requires 1 <= k
    requires Injective(cand)
    requires TakenBelow(cand, taken, k)
    ensures k <= r <= |taken| + 1
    ensures cand(r) !in taken
    ensures TakenBelow(cand, taken, r)
    decreases |taken| + 1 - k
  {
    if cand(k) !in taken then
      TakenBound(cand, taken, k - 1);
      k
    else
      TakenBound(cand, taken, k);
      FirstFree(cand, taken, k + 1)
  }
}

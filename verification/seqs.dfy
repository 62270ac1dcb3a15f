/** Order-preserving selection, sums and distinctness over sequences: the
    behaviour of a pandas boolean-mask selection `df[mask]` and of
    `Series.sum()`, stated once and reused by every rule of the script. */
module Seqs {

  /** The elements of `s` satisfying `p`, in their original order. */
  function Filter<T>(s: seq<T>, p: T -> bool): (r: seq<T>)
    ensures |r| <= |s|
    ensures forall i :: 0 <= i < |r| ==> p(r[i])
    decreases |s|
  {
    if |s| == 0 then []
    else Filter(s[..|s| - 1], p) + (if p(s[|s| - 1]) then [s[|s| - 1]] else [])
  }

  /** The positions of `s` whose element satisfies `p`, ascending. */
  function Positions<T>(s: seq<T>, p: T -> bool): seq<nat>
    decreases |s|
  {
    if |s| == 0 then []
    else Positions(s[..|s| - 1], p) + (if p(s[|s| - 1]) then [|s| - 1] else [])
  }

  /** `r` is the sub-sequence of `s` picked at the strictly increasing
      positions `idx`, and `idx` holds exactly the positions where `p` holds. */
  ghost predicate SelectedAt<T>(r: seq<T>, s: seq<T>, idx: seq<nat>, p: T -> bool)
  {
    && |idx| == |r|
    && (forall k :: 0 <= k < |idx| ==> idx[k] < |s| && r[k] == s[idx[k]])
    && (forall k, l :: 0 <= k < l < |idx| ==> idx[k] < idx[l])
    && (forall i :: 0 <= i < |s| ==> (p(s[i]) <==> i in idx))
  }

  /** Filtering keeps exactly the selected elements, in their original order. */
  lemma {:induction false} FilterSelectsInOrder<T>(s: seq<T>, p: T -> bool)
    ensures SelectedAt(Filter(s, p), s, Positions(s, p), p)
    decreases |s|
  {
    if |s| > 0 {
      var n := |s| - 1;
      var s' := s[..n];
      FilterSelectsInOrder(s', p);
      var idx' := Positions(s', p);
      assert forall k :: 0 <= k < |idx'| ==> idx'[k] < n;
      assert forall i :: 0 <= i < n ==> s[i] == s'[i];
    }
  }

  lemma {:induction false} FilterMembership<T>(s: seq<T>, p: T -> bool)
    ensures forall x :: x in Filter(s, p) <==> x in s && p(x)
    decreases |s|
  {
    if |s| > 0 {
      FilterMembership(s[..|s| - 1], p);
      assert s == s[..|s| - 1] + [s[|s| - 1]];
    }
  }

  lemma {:induction false} FilterMultiset<T>(s: seq<T>, p: T -> bool)
    ensures forall x :: multiset(Filter(s, p))[x] == if p(x) then multiset(s)[x] else 0
    decreases |s|
  {
    if |s| > 0 {
      FilterMultiset(s[..|s| - 1], p);
      assert s == s[..|s| - 1] + [s[|s| - 1]];
    }
  }

  lemma {:induction false} FilterConcat<T>(a: seq<T>, b: seq<T>, p: T -> bool)
    ensures Filter(a + b, p) == Filter(a, p) + Filter(b, p)
    decreases |b|
  {
    if |b| > 0 {
      var n := |b| - 1;
      assert (a + b)[..|a + b| - 1] == a + b[..n];
      FilterConcat(a, b[..n], p);
    } else {
      assert a + b == a;
    }
  }

  /** Two tests that agree on every element select the same elements. */
  lemma {:induction false} FilterAgree<T>(s: seq<T>, p: T -> bool, q: T -> bool)
    requires forall i :: 0 <= i < |s| ==> p(s[i]) == q(s[i])
    ensures Filter(s, p) == Filter(s, q)
    decreases |s|
  {
    if |s| > 0 {
      FilterAgree(s[..|s| - 1], p, q);
    }
  }

  lemma {:induction false} FilterKeepsAll<T>(s: seq<T>, p: T -> bool)
    requires forall i :: 0 <= i < |s| ==> p(s[i])
    ensures Filter(s, p) == s
    decreases |s|
  {
    if |s| > 0 {
      FilterKeepsAll(s[..|s| - 1], p);
    }
  }

  lemma {:induction false} FilterKeepsNone<T>(s: seq<T>, p: T -> bool)
    requires forall i :: 0 <= i < |s| ==> !p(s[i])
    ensures Filter(s, p) == []
    decreases |s|
  {
    if |s| > 0 {
      FilterKeepsNone(s[..|s| - 1], p);
    }
  }

  /** Selecting with `p` and then with `q` is selecting with both at once. */
  lemma {:induction false} FilterFilter<T>(s: seq<T>, p: T -> bool, q: T -> bool, pq: T -> bool)
    requires forall x :: pq(x) == (p(x) && q(x))
    ensures Filter(Filter(s, p), q) == Filter(s, pq)
    decreases |s|
  {
    if |s| > 0 {
      var n := |s| - 1;
      FilterFilter(s[..n], p, q, pq);
      FilterConcat(Filter(s[..n], p), if p(s[n]) then [s[n]] else [], q);
    }
  }

  /** `Series.sum()` of a per-element measure. */
  function Sum<T>(s: seq<T>, f: T -> nat): nat
    decreases |s|
  {
    if |s| == 0 then 0 else Sum(s[..|s| - 1], f) + f(s[|s| - 1])
  }

  /** Two disjoint selections and the remainder split both the length and
      every sum of the whole sequence. */
  lemma {:induction false} ThreeWaySplit<T>(s: seq<T>, p: T -> bool, q: T -> bool, rest: T -> bool, f: T -> nat)
    requires forall x :: !(p(x) && q(x)) && (rest(x) == (!p(x) && !q(x)))
    ensures |Filter(s, p)| + |Filter(s, q)| + |Filter(s, rest)| == |s|
    ensures Sum(Filter(s, p), f) + Sum(Filter(s, q), f) + Sum(Filter(s, rest), f) == Sum(s, f)
    decreases |s|
  {
    if |s| > 0 {
      var n := |s| - 1;
      ThreeWaySplit(s[..n], p, q, rest, f);
      var e := s[n];
      if p(e) {
        assert !q(e) && !rest(e);
        assert Filter(s, p) == Filter(s[..n], p) + [e];
        assert Filter(s, q) == Filter(s[..n], q);
        assert Filter(s, rest) == Filter(s[..n], rest);
        SumSnoc(Filter(s[..n], p), e, f);
        assert Sum(s, f) == Sum(s[..n], f) + f(e);
      } else if q(e) {
        assert !rest(e);
        assert Filter(s, p) == Filter(s[..n], p);
        assert Filter(s, q) == Filter(s[..n], q) + [e];
        assert Filter(s, rest) == Filter(s[..n], rest);
        SumSnoc(Filter(s[..n], q), e, f);
        assert Sum(s, f) == Sum(s[..n], f) + f(e);
      } else {
        assert rest(e);
        assert Filter(s, p) == Filter(s[..n], p);
        assert Filter(s, q) == Filter(s[..n], q);
        assert Filter(s, rest) == Filter(s[..n], rest) + [e];
        SumSnoc(Filter(s[..n], rest), e, f);
        assert Sum(s, f) == Sum(s[..n], f) + f(e);
      }
    }
  }

  lemma SumSnoc<T>(s: seq<T>, e: T, f: T -> nat)
    ensures Sum(s + [e], f) == Sum(s, f) + f(e)
  {
    assert (s + [e])[..|s + [e]| - 1] == s;
  }

  /** No element occurs twice. */
  predicate Distinct<T(==)>(s: seq<T>)
  {
    forall i, j :: 0 <= i < j < |s| ==> s[i] != s[j]
  }

  lemma {:induction false} DistinctMultiset<T>(s: seq<T>)
    requires Distinct(s)
    ensures forall x :: multiset(s)[x] == if x in s then 1 else 0
    decreases |s|
  {
    if |s| > 0 {
      var n := |s| - 1;
      assert s == s[..n] + [s[n]];
      assert s[n] !in s[..n];
      DistinctMultiset(s[..n]);
    }
  }

  /** Putting a new element in front keeps a sequence distinct. */
  lemma DistinctCons<T>(x: T, s: seq<T>)
    requires x !in s && Distinct(s)
    ensures Distinct([x] + s)
  {
    var t := [x] + s;
    forall i, j | 0 <= i < j < |t|
      ensures t[i] != t[j]
    {
      assert t[j] == s[j - 1];
      if i > 0 {
        assert t[i] == s[i - 1];
      }
    }
  }
}

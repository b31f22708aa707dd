/** Percentiles of a runtime histogram (metrics/runtimehistogram.go). Thresholds are reals;
    bucket edges may also be infinite, as the source allows. */
module RuntimeHistogram {
  import opened Floats
  import opened Seqs
  import opened Sorting

  /** metrics.Float64Histogram: bucket i lies between edges i and i+1. */
  datatype Histogram = Histogram(counts: seq<nat>, buckets: seq<Ext>)

  predicate Valid(h: Histogram) {
    h.counts == [] || |h.buckets| == |h.counts| + 1
  }

  /** The number of samples in the first n buckets. */
  function Sum(counts: seq<nat>, n: nat): nat
    requires n <= |counts|
  {
    if n == 0 then 0 else Sum(counts, n - 1) + counts[n - 1]
  }

  /** totalCount of the source after bucket k. */
  function Running(h: Histogram, k: nat): nat
    requires k < |h.counts|
  {
    Sum(h.counts, k + 1)
  }

  function Total(h: Histogram): nat { Sum(h.counts, |h.counts|) }

  // ---------- What one threshold resolves to ----------

  /** Bucket i is the first whose running total exceeds t. */
  ghost predicate ResolvedAt(h: Histogram, t: real, i: nat) {
    && i < |h.counts|
    && t < Running(h, i) as real
    && (forall k :: 0 <= k < i ==> Running(h, k) as real <= t)
  }

  /** No bucket's running total exceeds t. */
  ghost predicate Unresolved(h: Histogram, t: real) {
    forall k :: 0 <= k < |h.counts| ==> Running(h, k) as real <= t
  }

  function ResolveFrom(h: Histogram, t: real, i: nat): Ext
    requires Valid(h) && i <= |h.counts|
    decreases |h.counts| - i
  {
    if i == |h.counts| then Fin(t)
    else if t < Running(h, i) as real then h.buckets[i]
    else ResolveFrom(h, t, i + 1)
  }

  /** The lower edge of the first bucket whose running total exceeds the threshold; a
      threshold that no bucket resolves is returned as it is. */
  function Resolve(h: Histogram, t: real): Ext
    requires Valid(h)
  {
    ResolveFrom(h, t, 0)
  }

  lemma {:induction false} ResolveFromSpec(h: Histogram, t: real, i: nat)
    requires Valid(h) && i <= |h.counts|
    requires forall k :: 0 <= k < i ==> Running(h, k) as real <= t
    ensures Unresolved(h, t) ==> ResolveFrom(h, t, i) == Fin(t)
    ensures forall k: nat :: ResolvedAt(h, t, k) ==> ResolveFrom(h, t, i) == h.buckets[k]
    ensures Unresolved(h, t) || exists k: nat :: ResolvedAt(h, t, k)
    decreases |h.counts| - i
  {
    if i < |h.counts| {
      if t < Running(h, i) as real {
        assert ResolvedAt(h, t, i);
        assert forall k: nat :: ResolvedAt(h, t, k) ==> !(k > i) && !(k < i);
      } else {
        ResolveFromSpec(h, t, i + 1);
      }
    }
  }

  lemma ResolveSpec(h: Histogram, t: real)
    requires Valid(h)
    ensures Unresolved(h, t) ==> Resolve(h, t) == Fin(t)
    ensures forall k: nat :: ResolvedAt(h, t, k) ==> Resolve(h, t) == h.buckets[k]
    ensures Unresolved(h, t) || exists k: nat :: ResolvedAt(h, t, k)
  {
    ResolveFromSpec(h, t, 0);
  }

  lemma {:induction false} SumGrows(counts: seq<nat>, m: nat, n: nat)
    requires m <= n <= |counts|
    ensures Sum(counts, m) <= Sum(counts, n)
  {
    if m < n {
      SumGrows(counts, m, n - 1);
    }
  }

  /** A threshold is resolved exactly when it is below the number of samples. */
  lemma ResolvedBelowTotal(h: Histogram, t: real)
    ensures Unresolved(h, t) <==> h.counts == [] || Total(h) as real <= t
  {
    forall k | 0 <= k < |h.counts| ensures Running(h, k) <= Total(h) {
      SumGrows(h.counts, k + 1, |h.counts|);
    }
    if h.counts != [] {
      assert Running(h, |h.counts| - 1) == Total(h);
    }
  }

  // ---------- The in-place batch computation ----------

  ghost predicate AscendingReals(T: seq<real>) {
    forall i, j :: 0 <= i < j < |T| ==> T[i] <= T[j]
  }

  /** computePercentiles on an ascending slice: slot by slot the threshold is overwritten by
      its result. The slice thresh[1:] of the source is the part from `lo` on. */
  method ComputePercentiles(h: Histogram, thresh: array<Ext>, ghost T: seq<real>)
    requires Valid(h) && AscendingReals(T) && |T| == thresh.Length
    requires forall j :: 0 <= j < |T| ==> thresh[j] == Fin(T[j])
    modifies thresh
    ensures forall j :: 0 <= j < |T| ==> thresh[j] == Resolve(h, T[j])
  {
    var total := 0;
    var lo := 0;
    for i := 0 to |h.counts|
      invariant total == Sum(h.counts, i) && 0 <= lo <= |T|
      invariant forall j :: 0 <= j < lo ==> thresh[j] == Resolve(h, T[j])
      invariant forall j :: lo <= j < |T| ==> thresh[j] == Fin(T[j]) && Resolve(h, T[j]) == ResolveFrom(h, T[j], i)
    {
      total := total + h.counts[i];
      while lo < thresh.Length && Less(thresh[lo], Fin(total as real))
        invariant 0 <= lo <= |T|
        invariant forall j :: 0 <= j < lo ==> thresh[j] == Resolve(h, T[j])
        invariant forall j :: lo <= j < |T| ==> thresh[j] == Fin(T[j]) && Resolve(h, T[j]) == ResolveFrom(h, T[j], i)
      {
        thresh[lo] := h.buckets[i];
        lo := lo + 1;
      }
      if lo == thresh.Length {
        return;
      }
      assert forall j :: lo <= j < |T| ==> T[lo] <= T[j];
    }
  }

  // ---------- The two index-carrying sorts ----------

  type Pair = (Ext, int)

  ghost function Pairs(values: seq<Ext>, indexes: seq<int>): (q: seq<Pair>)
    requires |values| == |indexes|
    ensures |q| == |values| && forall i :: 0 <= i < |q| ==> q[i] == (values[i], indexes[i])
  {
    seq(|values|, i requires 0 <= i < |values| => (values[i], indexes[i]))
  }

  /** Swap of both sort wrappers. */
  method SwapBoth(values: array<Ext>, indexes: array<int>, i: nat, j: nat)
    requires values.Length == indexes.Length && i < values.Length && j < values.Length
    modifies values, indexes
    ensures Pairs(values[..], indexes[..]) == Swap(old(Pairs(values[..], indexes[..])), i, j)
  {
    values[i], values[j] := values[j], values[i];
    indexes[i], indexes[j] := indexes[j], indexes[i];
  }

  method Sink(values: array<Ext>, indexes: array<int>, less: (Pair, Pair) -> bool, i: nat)
    requires values.Length == indexes.Length && StrictWeakOrder(less) && 1 <= i < values.Length
    requires SortedBy(Pairs(values[..], indexes[..])[..i], less)
    modifies values, indexes
    ensures SortedBy(Pairs(values[..], indexes[..])[..i + 1], less)
    ensures multiset(Pairs(values[..], indexes[..])) == multiset(old(Pairs(values[..], indexes[..])))
  {
    var j := i;
    ghost var q := Pairs(values[..], indexes[..]);
    while j > 0 && less((values[j], indexes[j]), (values[j - 1], indexes[j - 1]))
      invariant 0 <= j <= i
      invariant q == Pairs(values[..], indexes[..]) && SortedBut(q, less, j, i + 1)
      invariant multiset(q) == multiset(old(Pairs(values[..], indexes[..])))
    {
      SinkStep(q, less, j, i + 1);
      SwapKeepsElements(q, j, j - 1);
      SwapBoth(values, indexes, j, j - 1);
      q := Swap(q, j, j - 1);
      j := j - 1;
    }
    SinkDone(q, less, j, i + 1);
  }

  /** sort.Sort on the two slices with either Less method: both are permuted together. The
      contract is all that is used of it; the body is the insertion sort that the library
      runs on short slices. */
  method SortPairs(values: array<Ext>, indexes: array<int>, less: (Pair, Pair) -> bool)
    requires values.Length == indexes.Length && StrictWeakOrder(less)
    modifies values, indexes
    ensures SortedBy(Pairs(values[..], indexes[..]), less)
    ensures multiset(Pairs(values[..], indexes[..])) == multiset(old(Pairs(values[..], indexes[..])))
  {
    var n := values.Length;
    if n == 0 {
      return;
    }
    for i := 1 to n
      invariant SortedBy(Pairs(values[..], indexes[..])[..i], less)
      invariant multiset(Pairs(values[..], indexes[..])) == multiset(old(Pairs(values[..], indexes[..])))
    {
      Sink(values, indexes, less, i);
    }
    assert Pairs(values[..], indexes[..])[..n] == Pairs(values[..], indexes[..]);
  }

  predicate ValueLess(a: Pair, b: Pair) { Less(a.0, b.0) }
  predicate IndexLess(a: Pair, b: Pair) { a.1 < b.1 }

  ghost function Fins(T: seq<real>): (q: seq<Ext>)
    ensures |q| == |T| && forall i :: 0 <= i < |T| ==> q[i] == Fin(T[i])
  {
    Map(T, x => Fin(x))
  }

  ghost predicate Permutation(order: seq<int>) {
    multiset(order) == multiset(Iota(|order|))
  }

  lemma IndexesPermuted(values: seq<Ext>, order: seq<int>, values': seq<Ext>, order': seq<int>)
    requires |values| == |order| && |values'| == |order'|
    requires multiset(Pairs(values, order)) == multiset(Pairs(values', order'))
    ensures multiset(order) == multiset(order') && |order| == |order'|
  {
    var second := (p: Pair) => p.1;
    MapPermuted(Pairs(values, order), Pairs(values', order'), second);
    assert Map(Pairs(values, order), second) == order;
    assert Map(Pairs(values', order'), second) == order';
    assert |multiset(order)| == |order| && |multiset(order')| == |order'|;
  }

  /** A pair after the sort is a pair from before it. */
  lemma PairFrom(values: seq<Ext>, order: seq<int>, values': seq<Ext>, order': seq<int>, j: nat)
    requires |values| == |order| && |values'| == |order'| && j < |order'|
    requires multiset(Pairs(values, order)) == multiset(Pairs(values', order'))
    ensures exists k :: 0 <= k < |order| && values[k] == values'[j] && order[k] == order'[j]
  {
    var p := Pairs(values', order')[j];
    assert p in multiset(Pairs(values', order'));
    assert p in multiset(Pairs(values, order));
    var k :| 0 <= k < |order| && Pairs(values, order)[k] == p;
  }

  ghost function Reordered(T: seq<real>, order: seq<int>): (q: seq<real>)
    requires |order| == |T| && forall j :: 0 <= j < |T| ==> 0 <= order[j] < |T|
    ensures |q| == |T| && forall j :: 0 <= j < |T| ==> q[j] == T[order[j]]
  {
    seq(|T|, j requires 0 <= j < |T| => T[order[j]])
  }

  /** After the first sort: slot j holds the threshold of the request order[j], and the
      thresholds ascend. */
  lemma AfterFirstSort(T: seq<real>, values: seq<Ext>, order: seq<int>)
    requires |values| == |order| == |T|
    requires multiset(Pairs(values, order)) == multiset(Pairs(Fins(T), Iota(|T|)))
    requires SortedBy(Pairs(values, order), ValueLess)
    ensures Permutation(order)
    ensures forall j :: 0 <= j < |T| ==> 0 <= order[j] < |T| && values[j] == Fin(T[order[j]])
    ensures AscendingReals(Reordered(T, order))
  {
    IndexesPermuted(values, order, Fins(T), Iota(|T|));
    forall j | 0 <= j < |T| ensures 0 <= order[j] < |T| && values[j] == Fin(T[order[j]]) {
      PairFrom(Fins(T), Iota(|T|), values, order, j);
    }
    var q := Pairs(values, order);
    forall i, j | 0 <= i < j < |T| ensures T[order[i]] <= T[order[j]] {
      assert !ValueLess(q[j], q[i]);
    }
  }

  /** After the second sort every result is back at the place of its request. */
  lemma AfterSecondSort(h: Histogram, T: seq<real>, order: seq<int>, results: seq<Ext>,
                        values: seq<Ext>, indexes: seq<int>)
    requires Valid(h) && |order| == |T| == |results| == |values| == |indexes| && Permutation(order)
    requires forall j :: 0 <= j < |T| ==> 0 <= order[j] < |T| && results[j] == Resolve(h, T[order[j]])
    requires multiset(Pairs(values, indexes)) == multiset(Pairs(results, order))
    requires SortedBy(Pairs(values, indexes), IndexLess)
    ensures forall i :: 0 <= i < |T| ==> values[i] == Resolve(h, T[i])
  {
    IndexesPermuted(values, indexes, results, order);
    var q := Pairs(values, indexes);
    forall i, j | 0 <= i < j < |T| ensures indexes[i] <= indexes[j] {
      assert !IndexLess(q[j], q[i]);
    }
    SortedUnique(indexes, Iota(|T|));
    forall i | 0 <= i < |T| ensures values[i] == Resolve(h, T[i]) {
      PairFrom(results, order, values, indexes, i);
    }
  }

  // ---------- Percentile and Percentiles ----------

  function Clamp(p: real): real {
    if p > 1.0 then 1.0 else if p < 0.0 then 0.0 else p
  }

  /** A share p of n samples. */
  function Share(n: nat, p: real): real { n as real * p }

  function Threshold(h: Histogram, p: real): real { Share(Total(h), p) }

  /** What Percentile returns: the threshold is not clamped. */
  function Single(h: Histogram, p: real): Ext
    requires Valid(h)
  {
    Resolve(h, Threshold(h, p))
  }

  // ---------- The samples behind a histogram ----------

  lemma NegativeResolves(h: Histogram, t: real)
    requires Valid(h) && h.counts != [] && t < 0.0
    ensures Resolve(h, t) == h.buckets[0]
  {
    ResolveSpec(h, t);
    assert ResolvedAt(h, t, 0);
  }

  lemma ShareOutside(n: nat, p: real)
    requires n > 0
    ensures p < 0.0 ==> Share(n, p) < 0.0
    ensures p >= 1.0 ==> Share(n, p) >= n as real
    ensures p > 1.0 ==> Share(n, p) > n as real
    ensures Share(n, 0.0) == 0.0 && Share(n, 1.0) == n as real
  {
  }

  lemma ShareInside(n: nat, p: real)
    requires n > 0 && 0.0 <= p < 1.0
    ensures 0.0 <= Share(n, p) < n as real
  {
    assert (1.0 - p) * n as real > 0.0;
  }

  /** The lower edges of the first n buckets, each as often as the bucket has samples. */
  ghost function EdgesUpTo(h: Histogram, n: nat): seq<Ext>
    requires Valid(h) && n <= |h.counts|
  {
    if n == 0 then [] else EdgesUpTo(h, n - 1) + seq(h.counts[n - 1], _ => h.buckets[n - 1])
  }

  /** The samples bucket by bucket, each known by the lower edge of its bucket only. */
  ghost function Edges(h: Histogram): seq<Ext>
    requires Valid(h)
  {
    EdgesUpTo(h, |h.counts|)
  }

  lemma {:induction false} EdgesLength(h: Histogram, n: nat)
    requires Valid(h) && n <= |h.counts|
    ensures |EdgesUpTo(h, n)| == Sum(h.counts, n)
  {
    if n > 0 {
      EdgesLength(h, n - 1);
    }
  }

  /** Bucket b is the one that holds sample k. */
  ghost predicate Holds(h: Histogram, b: nat, k: nat) {
    b < |h.counts| && Sum(h.counts, b) <= k < Sum(h.counts, b + 1)
  }

  lemma {:induction false} EdgeOf(h: Histogram, n: nat, k: nat) returns (b: nat)
    requires Valid(h) && n <= |h.counts| && k < |EdgesUpTo(h, n)|
    ensures Holds(h, b, k) && EdgesUpTo(h, n)[k] == h.buckets[b]
  {
    EdgesLength(h, n);
    EdgesLength(h, n - 1);
    if k < Sum(h.counts, n - 1) {
      b := EdgeOf(h, n - 1, k);
    } else {
      b := n - 1;
    }
  }

  lemma HolderResolves(h: Histogram, t: real, b: nat, k: nat)
    requires Valid(h) && Holds(h, b, k) && k as real <= t < (k + 1) as real
    ensures Resolve(h, t) == h.buckets[b]
  {
    forall j | 0 <= j < b ensures Running(h, j) as real <= t {
      SumGrows(h.counts, j + 1, b);
    }
    ResolveSpec(h, t);
    assert ResolvedAt(h, t, b);
  }

  lemma ShareOfQuotient(n: nat, k: nat, p: real)
    requires n > 0
    ensures k as real / n as real <= p <==> k as real <= Share(n, p)
  {
    var q := k as real / n as real;
    assert q * n as real == k as real;
    if q <= p {
      assert (p - q) * n as real >= 0.0;
    } else {
      assert (q - p) * n as real > 0.0;
    }
  }

  /** r is the p-quantile of the samples: sample k if p lies between k/n and (k+1)/n. At one
      and beyond no sample is left and the threshold itself comes out; below zero it is the
      first edge, and without samples zero. */
  ghost predicate IsQuantile(h: Histogram, p: real, r: Ext)
    requires Valid(h)
  {
    var E := Edges(h);
    && (E == [] ==> r == Fin(0.0))
    && (E != [] && p < 0.0 ==> r == h.buckets[0])
    && (forall k :: 0 <= k < |E| && k as real / |E| as real <= p < (k + 1) as real / |E| as real ==> r == E[k])
    && (E != [] && p >= 1.0 ==> r == Fin(|E| as real * p))
  }

  /** The quantile is one value, whatever p. */
  lemma QuantileUnique(h: Histogram, p: real, r: Ext, r': Ext)
    requires Valid(h) && IsQuantile(h, p, r) && IsQuantile(h, p, r')
    ensures r == r'
  {
    var E := Edges(h);
    if E != [] && 0.0 <= p < 1.0 {
      var t := Share(|E|, p);
      var k := t.Floor;
      ShareInside(|E|, p);
      ShareOfQuotient(|E|, k, p);
      ShareOfQuotient(|E|, k + 1, p);
      assert k < |E| && r == E[k] && r' == E[k];
    }
  }

  lemma QuantileInside(h: Histogram, p: real, k: nat)
    requires Valid(h) && k < |Edges(h)|
    requires k as real / |Edges(h)| as real <= p < (k + 1) as real / |Edges(h)| as real
    ensures Single(h, p) == Edges(h)[k]
  {
    var n := |Edges(h)|;
    EdgesLength(h, |h.counts|);
    var b := EdgeOf(h, |h.counts|, k);
    ShareOfQuotient(n, k, p);
    ShareOfQuotient(n, k + 1, p);
    HolderResolves(h, Threshold(h, p), b, k);
  }

  lemma QuantileOutside(h: Histogram, p: real)
    requires Valid(h)
    ensures Edges(h) == [] ==> Single(h, p) == Fin(0.0)
    ensures Edges(h) != [] && p < 0.0 ==> Single(h, p) == h.buckets[0]
    ensures Edges(h) != [] && p >= 1.0 ==> Single(h, p) == Fin(|Edges(h)| as real * p)
  {
    EdgesLength(h, |h.counts|);
    var t := Threshold(h, p);
    if Edges(h) == [] {
      assert t == 0.0;
    } else {
      ShareOutside(Total(h), p);
      if p < 0.0 {
        NegativeResolves(h, t);
      }
    }
    ResolvedBelowTotal(h, t);
    ResolveSpec(h, t);
  }

  /** What Percentile computes, in terms of the samples. */
  lemma SingleIsQuantile(h: Histogram, p: real)
    requires Valid(h)
    ensures IsQuantile(h, p, Single(h, p))
  {
    QuantileOutside(h, p);
    var E := Edges(h);
    forall k | 0 <= k < |E| && k as real / |E| as real <= p < (k + 1) as real / |E| as real
      ensures Single(h, p) == E[k]
    {
      QuantileInside(h, p, k);
    }
  }

  /** The first half of the batch: sort with indexes and overwrite. */
  method SortAndResolve(h: Histogram, thresholds: array<Ext>, indexes: array<int>, ghost T: seq<real>)
    requires Valid(h) && thresholds.Length == indexes.Length == |T|
    requires thresholds[..] == Fins(T) && indexes[..] == Iota(|T|)
    modifies thresholds, indexes
    ensures Permutation(indexes[..])
    ensures forall j :: 0 <= j < |T| ==> 0 <= indexes[j] < |T| && thresholds[j] == Resolve(h, T[indexes[j]])
  {
    SortPairs(thresholds, indexes, ValueLess);
    AfterFirstSort(T, thresholds[..], indexes[..]);
    ComputePercentiles(h, thresholds, Reordered(T, indexes[..]));
  }

  /** The second half: sort by index. */
  method SortBack(h: Histogram, thresholds: array<Ext>, indexes: array<int>, ghost T: seq<real>)
    requires Valid(h) && thresholds.Length == indexes.Length == |T| && Permutation(indexes[..])
    requires forall j :: 0 <= j < |T| ==> 0 <= indexes[j] < |T| && thresholds[j] == Resolve(h, T[indexes[j]])
    modifies thresholds, indexes
    ensures forall i :: 0 <= i < |T| ==> thresholds[i] == Resolve(h, T[i])
  {
    ghost var order, results := indexes[..], thresholds[..];
    SortPairs(thresholds, indexes, IndexLess);
    AfterSecondSort(h, T, order, results, thresholds[..], indexes[..]);
  }

  /** A snapshot; the count is computed on first use (calc). */
  class Snapshot {
    const h: Histogram
    var calculated: bool
    var count: nat

    ghost predicate Ok()
      reads this
    {
      Valid(h) && (calculated ==> count == Total(h))
    }

    constructor (h: Histogram)
      requires Valid(h)
      ensures Ok() && this.h == h
    {
      this.h := h;
      calculated, count := false, 0;
    }

    method Count() returns (c: nat)
      requires Ok()
      modifies this
      ensures Ok() && c == Total(h)
    {
      if !calculated {
        Calc();
      }
      return count;
    }

    method Calc()
      requires Ok()
      modifies this
      ensures Ok() && calculated
    {
      calculated := true;
      var n := 0;
      for i := 0 to |h.counts|
        invariant n == Sum(h.counts, i)
      {
        if h.counts[i] != 0 {
          n := n + h.counts[i];
        }
      }
      count := n;
    }

    method Percentile(p: real) returns (r: Ext)
      requires Ok()
      modifies this
      ensures Ok() && r == Single(h, p) && IsQuantile(h, p, r)
    {
      var c := Count();
      var t := Share(c, p);
      var values := new Ext[1](_ => Fin(t));
      ComputePercentiles(h, values, [t]);
      SingleIsQuantile(h, p);
      return values[0];
    }

    method Percentiles(ps: seq<real>) returns (result: array<Ext>)
      requires Ok()
      modifies this
      ensures Ok() && fresh(result) && result.Length == |ps|
      ensures forall i :: 0 <= i < |ps| ==> result[i] == Single(h, Clamp(ps[i]))
      ensures forall i :: 0 <= i < |ps| && 0.0 <= ps[i] <= 1.0 ==> IsQuantile(h, ps[i], result[i])
      ensures forall i :: 0 <= i < |ps| && ps[i] < 0.0 ==> IsQuantile(h, 0.0, result[i])
      ensures forall i :: 0 <= i < |ps| && ps[i] > 1.0 ==> IsQuantile(h, 1.0, result[i])
    {
      var c := Count();
      var n := |ps|;
      var thresholds := new Ext[n](i requires 0 <= i < n => Fin(Share(c, Clamp(ps[i]))));
      var indexes := new int[n](i => i);
      ghost var T := Map(ps, p => Threshold(h, Clamp(p)));
      assert thresholds[..] == Fins(T) && indexes[..] == Iota(n);
      SortAndResolve(h, thresholds, indexes, T);
      SortBack(h, thresholds, indexes, T);
      forall i | 0 <= i < n ensures IsQuantile(h, Clamp(ps[i]), thresholds[i]) {
        SingleIsQuantile(h, Clamp(ps[i]));
      }
      return thresholds;
    }
  }

  // ---------- Batch against single ----------

  /** Index of the first non-empty bucket. */
  function FirstFull(counts: seq<nat>, i: nat): (r: nat)
    requires i <= |counts|
    ensures i <= r <= |counts| && (r < |counts| ==> counts[r] > 0)
    ensures forall k :: i <= k < r ==> counts[k] == 0
    decreases |counts| - i
  {
    if i == |counts| || counts[i] > 0 then i else FirstFull(counts, i + 1)
  }

  lemma {:induction false} SumZero(counts: seq<nat>, n: nat)
    requires n <= |counts|
    ensures Sum(counts, n) == 0 <==> forall k :: 0 <= k < n ==> counts[k] == 0
  {
    if n > 0 {
      SumZero(counts, n - 1);
    }
  }

  /** Threshold 0 resolves to the first non-empty bucket. */
  lemma ZeroResolves(h: Histogram)
    requires Valid(h) && Total(h) > 0
    ensures FirstFull(h.counts, 0) < |h.counts|
    ensures Resolve(h, 0.0) == h.buckets[FirstFull(h.counts, 0)]
  {
    var f := FirstFull(h.counts, 0);
    SumZero(h.counts, |h.counts|);
    assert f < |h.counts|;
    SumZero(h.counts, f);
    forall k | 0 <= k < f ensures Running(h, k) as real <= 0.0 {
      SumGrows(h.counts, k + 1, f);
    }
    ResolveSpec(h, 0.0);
    assert ResolvedAt(h, 0.0, f);
  }

  /** When a request of the batch agrees with the single call, which does not clamp: always
      for an empty histogram and for p in [0,1]; below 0 if the first edge is also that of
      the first non-empty bucket; above 1 never. */
  predicate Agrees(h: Histogram, p: real)
    requires Valid(h)
  {
    || Total(h) == 0
    || 0.0 <= p <= 1.0
    || (p < 0.0 && FirstFull(h.counts, 0) < |h.counts| && h.buckets[0] == h.buckets[FirstFull(h.counts, 0)])
  }

  lemma BatchAgreesExactly(h: Histogram, p: real)
    requires Valid(h)
    ensures Single(h, Clamp(p)) == Single(h, p) <==> Agrees(h, p)
  {
    if Total(h) > 0 {
      assert h.counts != [];
      ShareOutside(Total(h), p);
      if p < 0.0 {
        ZeroResolves(h);
        NegativeResolves(h, Threshold(h, p));
        assert Threshold(h, Clamp(p)) == 0.0;
      } else if p > 1.0 {
        ResolvedBelowTotal(h, Threshold(h, p));
        ResolvedBelowTotal(h, Threshold(h, 1.0));
        ResolveSpec(h, Threshold(h, p));
        ResolveSpec(h, Threshold(h, 1.0));
      }
    } else {
      assert Threshold(h, Clamp(p)) == 0.0 == Threshold(h, p);
    }
  }

  /** Above one the two differ: the batch asks for the share of one and the single call for
      the share of two, and neither resolves. */
  lemma BatchDiffersAbove()
    ensures var h := Histogram([1], [Fin(0.0), Fin(1.0)]);
      Valid(h) && Single(h, 2.0) == Fin(2.0) && Single(h, Clamp(2.0)) == Fin(1.0)
  {
    var h := Histogram([1], [Fin(0.0), Fin(1.0)]);
    assert Total(h) == 1 && Running(h, 0) == 1;
    ResolveSpec(h, 2.0);
    ResolveSpec(h, 1.0);
  }

  /** Below zero they differ when the first bucket is empty. */
  lemma BatchDiffersBelow()
    ensures var h := Histogram([0, 1], [Fin(0.0), Fin(1.0), Fin(2.0)]);
      Valid(h) && Single(h, -1.0) == Fin(0.0) && Single(h, Clamp(-1.0)) == Fin(1.0)
  {
    var h := Histogram([0, 1], [Fin(0.0), Fin(1.0), Fin(2.0)]);
    assert Sum(h.counts, 1) == 0 && Total(h) == 1;
    ZeroResolves(h);
    NegativeResolves(h, Threshold(h, -1.0));
  }
}

/** CalculatePercentiles of metrics/sample.go, with reals for floats. */
module SamplePercentiles {
  import opened Seqs
  import opened Sorting

  /** The point a fraction f of the way from a to b. */
  function Blend(a: real, b: real, f: real): real { a + f * (b - a) }

  /** Interpolation at position x between rank floor(x) and the next; ranks count from 1. */
  function Interpolate(v: seq<int>, x: real): real
    requires 1.0 <= x < |v| as real
  {
    var lower := v[x.Floor - 1] as real;
    var upper := v[x.Floor] as real;
    Blend(lower, upper, x - x.Floor as real)
  }

  function ScoreAt(v: seq<int>, x: real): real
    requires v != []
  {
    if x < 1.0 then v[0] as real
    else if x >= |v| as real then v[|v| - 1] as real
    else Interpolate(v, x)
  }

  function Position(n: nat, p: real): real { p * (n + 1) as real }

  /** The score of p on sorted values. */
  function Score(v: seq<int>, p: real): real
    requires v != []
  {
    ScoreAt(v, Position(|v|, p))
  }

  /** slices.Sort: only that it sorts matters, because the elements decide the result. */
  method SortValues(values: array<int>)
    modifies values
    ensures Ascending(values[..]) && multiset(values[..]) == multiset(old(values[..]))
  {
    var sorted := SortFunc(values[..], (x: int) => x);
    SameLength(sorted, values[..]);
    forall i | 0 <= i < values.Length {
      values[i] := sorted[i];
    }
    assert values[..] == sorted;
  }

  /** The body of the loop, for one p. */
  method ScoreOf(values: array<int>, p: real) returns (s: real)
    requires values.Length > 0
    ensures s == Score(values[..], p)
  {
    var size := values.Length;
    var pos := Position(size, p);
    if pos < 1.0 {
      s := values[0] as real;
    } else if pos >= size as real {
      s := values[size - 1] as real;
    } else {
      var lower := values[pos.Floor - 1] as real;
      var upper := values[pos.Floor] as real;
      s := Blend(lower, upper, pos - pos.Floor as real);
    }
  }

  method CalculatePercentiles(values: array<int>, ps: seq<real>) returns (scores: array<real>)
    modifies values
    ensures fresh(scores) && scores.Length == |ps|
    ensures Ascending(values[..]) && multiset(values[..]) == multiset(old(values[..]))
    ensures forall i :: 0 <= i < |ps| ==> scores[i] == if values.Length == 0 then 0.0 else Score(values[..], ps[i])
  {
    scores := new real[|ps|](_ => 0.0);
    var size := values.Length;
    if size == 0 {
      return;
    }
    SortValues(values);
    ghost var v := values[..];
    for i := 0 to |ps|
      invariant values[..] == v
      invariant forall j :: 0 <= j < i ==> scores[j] == Score(values[..], ps[j])
    {
      scores[i] := ScoreOf(values, ps[i]);
    }
  }

  lemma ScaleUp(f: real, g: real, d: real)
    requires 0.0 <= d && f <= g
    ensures f * d <= g * d
  {
    assert (g - f) * d >= 0.0;
  }

  lemma BlendMonotone(a: real, b: real, f: real, g: real)
    requires a <= b && f <= g
    ensures Blend(a, b, f) <= Blend(a, b, g)
    ensures Blend(a, b, 0.0) == a && Blend(a, b, 1.0) == b
  {
    var d := b - a;
    ScaleUp(f, g, d);
  }

  /** Inside a cell the score lies between the two ranks. */
  lemma InCell(v: seq<int>, x: real)
    requires Ascending(v) && 1.0 <= x < |v| as real
    ensures v[x.Floor - 1] as real <= Interpolate(v, x) <= v[x.Floor] as real
  {
    var a, b, f := v[x.Floor - 1] as real, v[x.Floor] as real, x - x.Floor as real;
    BlendMonotone(a, b, 0.0, f);
    BlendMonotone(a, b, f, 1.0);
  }

  lemma InterpolateMonotone(v: seq<int>, x: real, y: real)
    requires Ascending(v) && 1.0 <= x <= y < |v| as real
    ensures Interpolate(v, x) <= Interpolate(v, y)
  {
    var f, g := x.Floor, y.Floor;
    if f == g {
      BlendMonotone(v[f - 1] as real, v[f] as real, x - f as real, y - f as real);
    } else {
      InCell(v, x);
      InCell(v, y);
      assert v[f] <= v[g - 1];
    }
  }

  /** No score leaves the range of the values. */
  lemma ScoreInRange(v: seq<int>, p: real)
    requires v != [] && Ascending(v)
    ensures v[0] as real <= Score(v, p) <= v[|v| - 1] as real
  {
    var x := Position(|v|, p);
    if 1.0 <= x < |v| as real {
      InCell(v, x);
    }
  }

  /** A larger p never scores less, across all three branches. */
  lemma ScoreMonotone(v: seq<int>, p: real, q: real)
    requires v != [] && Ascending(v) && p <= q
    ensures Score(v, p) <= Score(v, q)
  {
    var x, y := Position(|v|, p), Position(|v|, q);
    ScaleUp(p, q, (|v| + 1) as real);
    if 1.0 <= x && y < |v| as real {
      InterpolateMonotone(v, x, y);
    } else {
      ScoreInRange(v, p);
      ScoreInRange(v, q);
    }
  }

  /** At p = k/(n+1) the score is exactly the k-th smallest value. */
  lemma ScoreAtRank(v: seq<int>, k: nat, p: real)
    requires 1 <= k <= |v| && p == k as real / (|v| + 1) as real
    ensures Score(v, p) == v[k - 1] as real
  {
    assert Position(|v|, p) == k as real;
    if k < |v| {
      assert (k as real).Floor == k;
    }
  }

  lemma InCellOf(n: nat, k: nat, p: real)
    requires k as real / (n + 1) as real <= p < (k + 1) as real / (n + 1) as real
    ensures k as real <= Position(n, p) < (k + 1) as real && Position(n, p).Floor == k
  {
    var d := (n + 1) as real;
    var f, g := k as real / d, (k + 1) as real / d;
    assert f * d == k as real && g * d == (k + 1) as real;
    assert (p - f) * d >= 0.0 && (g - p) * d > 0.0;
  }

  /** Between the k-th and the next smallest value the score grows in a straight line with p;
      below the first and above the last it stays. */
  lemma ScoreBetweenRanks(v: seq<int>, k: nat, p: real)
    requires k <= |v| && v != [] && k as real / (|v| + 1) as real <= p < (k + 1) as real / (|v| + 1) as real
    ensures Score(v, p) ==
      if k == 0 then v[0] as real
      else if k == |v| then v[|v| - 1] as real
      else v[k - 1] as real + (p * (|v| + 1) as real - k as real) * (v[k] as real - v[k - 1] as real)
  {
    InCellOf(|v|, k, p);
  }

  /** A negative p scores as the smallest value and a p from 1 on as the largest. */
  lemma ScoreOutside(v: seq<int>, p: real)
    requires v != []
    ensures p < 0.0 ==> Score(v, p) == v[0] as real
    ensures p >= 1.0 ==> Score(v, p) == v[|v| - 1] as real
  {
    var d := (|v| + 1) as real;
    if p < 0.0 {
      assert p * d < 0.0;
    } else if p >= 1.0 {
      assert (p - 1.0) * d >= 0.0;
    }
  }

  /** The scores depend on the values only, not on the order they came in. */
  lemma ScoreOfElements(v: seq<int>, w: seq<int>, p: real)
    requires Ascending(v) && Ascending(w) && multiset(v) == multiset(w) && v != []
    ensures w != [] && Score(v, p) == Score(w, p)
  {
    SortedUnique(v, w);
  }
}

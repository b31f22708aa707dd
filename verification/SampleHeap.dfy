/** The min-heap of metrics/sample.go (expDecaySampleHeap), first on sequences and then in
    place on the backing array of its slice. */
module SampleHeap {
  import opened Floats
  import opened Seqs

  /** A sample. The program keeps only the key and the value; `born` and `draw` record the
      time and the random number the key was made from, and no operation reads them. */
  datatype Sample = Sample(k: Ext, v: int, born: real, draw: real)

  /** (j-1)/2 with Go's truncating division: the parent of the root is the root. */
  function Parent(j: nat): (i: nat)
    ensures i <= j && (i == j <==> j == 0)
  {
    if j == 0 then 0 else (j - 1) / 2
  }

  ghost predicate IsHeap(q: seq<Sample>) {
    forall i :: 1 <= i < |q| ==> AtMost(q[Parent(i)].k, q[i].k)
  }

  /** The up loop. */
  function Up(q: seq<Sample>, j: nat): (r: seq<Sample>)
    requires j < |q|
    ensures |r| == |q|
    decreases j
  {
    var i := Parent(j);
    if i == j || !Less(q[j].k, q[i].k) then q else Up(Swap(q, i, j), i)
  }

  /** The child that down compares with: the right one unless the left is smaller. */
  function Child(q: seq<Sample>, i: nat, n: nat): (j: nat)
    requires 2 * i + 1 < n <= |q|
    ensures i < j < n
  {
    var l := 2 * i + 1;
    if l + 1 < n && !Less(q[l].k, q[l + 1].k) then l + 1 else l
  }

  lemma ChildIsLeast(q: seq<Sample>, i: nat, n: nat)
    requires 2 * i + 1 < n <= |q|
    ensures Parent(Child(q, i, n)) == i
    ensures forall m :: 1 <= m < n && Parent(m) == i ==> AtMost(q[Child(q, i, n)].k, q[m].k)
  {
    assert forall m :: 1 <= m && Parent(m) == i ==> m == 2 * i + 1 || m == 2 * i + 2;
  }

  /** The down loop on the first n elements. */
  function Down(q: seq<Sample>, i: nat, n: nat): (r: seq<Sample>)
    requires n <= |q|
    ensures |r| == |q|
    decreases n - i
  {
    if 2 * i + 1 >= n then q
    else
      var j := Child(q, i, n);
      if !Less(q[j].k, q[i].k) then q else Down(Swap(q, i, j), j, n)
  }

  function Push(q: seq<Sample>, s: Sample): (r: seq<Sample>)
    ensures |r| == |q| + 1
  {
    Up(q + [s], |q|)
  }

  /** What Pop leaves behind; the popped sample is the root q[0]. */
  function Popped(q: seq<Sample>): (r: seq<Sample>)
    requires q != []
    ensures |r| == |q| - 1
  {
    Down(Swap(q, 0, |q| - 1), 0, |q| - 1)[..|q| - 1]
  }

  // ---------- What the loops keep ----------

  /** Heap order everywhere but between j and its parent; j's children are also in order
      with j's parent. */
  ghost predicate HeapButUp(q: seq<Sample>, j: nat) {
    && (forall i :: 1 <= i < |q| && i != j ==> AtMost(q[Parent(i)].k, q[i].k))
    && (j < |q| ==> forall i :: 1 <= i < |q| && Parent(i) == j ==> AtMost(q[Parent(j)].k, q[i].k))
  }

  lemma UpStep(q: seq<Sample>, j: nat)
    requires 0 < j < |q| && HeapButUp(q, j) && Less(q[j].k, q[Parent(j)].k)
    ensures HeapButUp(Swap(q, Parent(j), j), Parent(j))
  {
    var i := Parent(j);
    var r := Swap(q, i, j);
    forall m | 1 <= m < |r| && m != i ensures AtMost(r[Parent(m)].k, r[m].k) {
      if m != j && Parent(m) == i {
        assert AtMost(q[i].k, q[m].k);
      }
    }
    if i > 0 {
      assert AtMost(q[Parent(i)].k, q[i].k);
      forall m | 1 <= m < |r| && Parent(m) == i ensures AtMost(r[Parent(i)].k, r[m].k) {
        if m != j {
          assert AtMost(q[i].k, q[m].k);
        }
      }
    }
  }

  lemma {:induction false} UpIsHeap(q: seq<Sample>, j: nat)
    requires j < |q| && HeapButUp(q, j)
    ensures IsHeap(Up(q, j))
    ensures multiset(Up(q, j)) == multiset(q)
    decreases j
  {
    var i := Parent(j);
    if !(i == j || !Less(q[j].k, q[i].k)) {
      UpStep(q, j);
      SwapKeepsElements(q, i, j);
      UpIsHeap(Swap(q, i, j), i);
    }
  }

  ghost predicate HeapButDown(q: seq<Sample>, i: nat, n: nat)
    requires n <= |q|
  {
    && (forall m :: 1 <= m < n && Parent(m) != i ==> AtMost(q[Parent(m)].k, q[m].k))
    && (i < n ==> forall m :: 1 <= m < n && Parent(m) == i && i != 0 ==> AtMost(q[Parent(i)].k, q[m].k))
  }

  lemma DownStep(q: seq<Sample>, i: nat, n: nat)
    requires 2 * i + 1 < n <= |q| && HeapButDown(q, i, n)
    requires Less(q[Child(q, i, n)].k, q[i].k)
    ensures HeapButDown(Swap(q, i, Child(q, i, n)), Child(q, i, n), n)
  {
    var j := Child(q, i, n);
    ChildIsLeast(q, i, n);
    var r := Swap(q, i, j);
    forall m | 1 <= m < n && Parent(m) != j ensures AtMost(r[Parent(m)].k, r[m].k) {
      if Parent(m) == i {
        assert AtMost(q[j].k, q[m].k);
      } else if m == i {
        assert AtMost(q[Parent(i)].k, q[j].k);
      }
    }
    forall m | 1 <= m < n && Parent(m) == j ensures AtMost(r[Parent(j)].k, r[m].k) {
      assert AtMost(q[Parent(m)].k, q[m].k);
    }
  }

  lemma DownStops(q: seq<Sample>, i: nat, n: nat)
    requires n <= |q| && HeapButDown(q, i, n)
    requires 2 * i + 1 < n ==> AtMost(q[i].k, q[Child(q, i, n)].k)
    ensures IsHeap(q[..n])
  {
    if 2 * i + 1 < n {
      ChildIsLeast(q, i, n);
    }
    forall m | 1 <= m < n ensures AtMost(q[Parent(m)].k, q[m].k) {
      assert Parent(m) == i ==> 2 * i + 1 < n;
    }
  }

  lemma {:induction false} DownIsHeap(q: seq<Sample>, i: nat, n: nat)
    requires n <= |q| && HeapButDown(q, i, n)
    ensures IsHeap(Down(q, i, n)[..n])
    ensures multiset(Down(q, i, n)) == multiset(q)
    ensures Down(q, i, n)[n..] == q[n..]
    decreases n - i
  {
    if 2 * i + 1 < n && Less(q[Child(q, i, n)].k, q[i].k) {
      var j := Child(q, i, n);
      DownStep(q, i, n);
      SwapKeepsElements(q, i, j);
      var r := Swap(q, i, j);
      DownIsHeap(r, j, n);
      assert r[n..] == q[n..];
    } else {
      DownStops(q, i, n);
    }
  }

  lemma {:induction false} DownLeavesTail(q: seq<Sample>, i: nat, n: nat, k: nat)
    requires n <= k < |q|
    ensures Down(q, i, n)[k] == q[k]
    decreases n - i
  {
    if 2 * i + 1 < n && Less(q[Child(q, i, n)].k, q[i].k) {
      var j := Child(q, i, n);
      DownLeavesTail(Swap(q, i, j), j, n, k);
    }
  }

  lemma {:induction false} RootIsLeast(q: seq<Sample>, i: nat)
    requires IsHeap(q) && i < |q|
    ensures AtMost(q[0].k, q[i].k)
    decreases i
  {
    if i != 0 {
      RootIsLeast(q, Parent(i));
    }
  }

  lemma PushIsHeap(q: seq<Sample>, s: Sample)
    requires IsHeap(q)
    ensures IsHeap(Push(q, s)) && multiset(Push(q, s)) == multiset(q) + multiset{s}
  {
    var r := q + [s];
    assert forall i :: 1 <= i < |r| && i != |q| ==> r[Parent(i)] == q[Parent(i)] && r[i] == q[i];
    assert forall i :: 1 <= i < |r| ==> Parent(i) != |q|;
    UpIsHeap(r, |q|);
  }

  lemma RootSwapped(q: seq<Sample>)
    requires IsHeap(q) && q != []
    ensures HeapButDown(Swap(q, 0, |q| - 1), 0, |q| - 1)
  {
    var n := |q| - 1;
    var r := Swap(q, 0, n);
    forall m | 1 <= m < n && Parent(m) != 0 ensures AtMost(r[Parent(m)].k, r[m].k) {
      assert r[Parent(m)] == q[Parent(m)] && r[m] == q[m];
    }
  }

  lemma LastApart(r: seq<Sample>, n: nat)
    requires |r| == n + 1 && HeapButDown(r, 0, n)
    ensures var d := Down(r, 0, n);
      IsHeap(d[..n]) && d[n] == r[n] && multiset(d[..n]) + multiset{r[n]} == multiset(r)
  {
    DownIsHeap(r, 0, n);
    var d := Down(r, 0, n);
    assert d[n] == d[n..][0] == r[n..][0];
    assert d == d[..n] + [d[n]];
  }

  lemma PopIsHeap(q: seq<Sample>)
    requires IsHeap(q) && q != []
    ensures IsHeap(Popped(q)) && multiset(Popped(q)) + multiset{q[0]} == multiset(q)
    ensures Down(Swap(q, 0, |q| - 1), 0, |q| - 1)[|q| - 1] == q[0]
  {
    var n := |q| - 1;
    RootSwapped(q);
    SwapKeepsElements(q, 0, n);
    LastApart(Swap(q, 0, n), n);
  }

  /** expDecaySampleHeap: the slice h.s is buf[..len], its capacity buf.Length. */
  class Heap {
    var buf: array<Sample>
    var len: nat

    ghost predicate Valid()
      reads this
    {
      len <= buf.Length
    }

    ghost function Items(): (q: seq<Sample>)
      requires Valid()
      reads this, buf
    {
      buf[..len]
    }

    constructor (reservoirSize: nat)
      ensures Valid() && fresh(buf) && buf.Length == reservoirSize && Items() == []
    {
      buf := new Sample[reservoirSize](_ => Sample(Fin(0.0), 0, 0.0, 0.0));
      len := 0;
    }

    method Clear()
      requires Valid()
      modifies this`len
      ensures Valid() && Items() == []
    {
      len := 0;
    }

    /** Reslicing beyond the capacity would panic, so room is required. Slots behind the
        new element keep their contents. */
    method PushSample(s: Sample)
      requires Valid() && len < buf.Length
      modifies this`len, buf
      ensures Valid() && Items() == Push(old(Items()), s)
      ensures forall i :: len <= i < buf.Length ==> buf[i] == old(buf[i])
    {
      var n := len;
      len := n + 1;
      buf[n] := s;
      assert buf[..len] == old(buf[..len]) + [s];
      SiftUp(n);
    }

    /** Popping an empty heap would panic. */
    method PopSample() returns (s: Sample)
      requires Valid() && len > 0
      modifies this`len, buf
      ensures Valid() && Items() == Popped(old(Items())) && s == old(Items()[0])
    {
      var n := len - 1;
      ghost var q := buf[..len];
      buf[0], buf[n] := buf[n], buf[0];
      assert buf[..len] == Swap(q, 0, n);
      SiftDown(0, n);
      DownLeavesTail(Swap(q, 0, n), 0, n, n);
      assert buf[..len][n] == buf[n];
      s := buf[n];
      len := n;
      assert buf[..n] == Down(Swap(q, 0, n), 0, n)[..n];
    }

    method SiftUp(start: nat)
      requires Valid() && start < len
      modifies buf
      ensures Items() == Up(old(Items()), start)
      ensures forall i :: len <= i < buf.Length ==> buf[i] == old(buf[i])
    {
      var j: nat := start;
      while true
        invariant j < len && Up(buf[..len], j) == Up(old(buf[..len]), start)
        invariant forall i :: len <= i < buf.Length ==> buf[i] == old(buf[i])
        decreases j
      {
        var i := Parent(j);
        if i == j || !Less(buf[j].k, buf[i].k) {
          break;
        }
        ghost var q := buf[..len];
        buf[i], buf[j] := buf[j], buf[i];
        assert buf[..len] == Swap(q, i, j);
        j := i;
      }
    }

    method SiftDown(start: nat, n: nat)
      requires Valid() && n <= len
      modifies buf
      ensures Items() == Down(old(Items()), start, n)
      ensures forall i :: len <= i < buf.Length ==> buf[i] == old(buf[i])
    {
      var i: nat := start;
      while 2 * i + 1 < n
        invariant Down(buf[..len], i, n) == Down(old(buf[..len]), start, n)
        invariant forall m :: len <= m < buf.Length ==> buf[m] == old(buf[m])
        decreases n - i
      {
        var j := 2 * i + 1;
        if j + 1 < n && !Less(buf[j].k, buf[j + 1].k) {
          j := j + 1;
        }
        ghost var q := buf[..len];
        assert j == Child(q, i, n);
        if !Less(buf[j].k, buf[i].k) {
          return;
        }
        buf[i], buf[j] := buf[j], buf[i];
        assert buf[..len] == Swap(q, i, j);
        i := j;
      }
    }
  }
}

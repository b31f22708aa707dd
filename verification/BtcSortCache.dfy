/** The keyed cache of eth/btcsortmap.go with its in-place quicksort. */
module BtcSortCache {
  import opened Options
  import opened Seqs
  import opened Sorting

  // ---------- Permuting a segment ----------

  /** r is q with the elements of [lo, hi) rearranged and nothing else changed. */
  ghost predicate SegmentPermuted(q: seq<int>, r: seq<int>, lo: nat, hi: nat) {
    && lo <= hi <= |q| == |r|
    && (forall k :: 0 <= k < lo ==> r[k] == q[k])
    && (forall k :: hi <= k < |q| ==> r[k] == q[k])
    && multiset(r[lo..hi]) == multiset(q[lo..hi])
  }

  lemma SwapInSegment(q: seq<int>, i: nat, j: nat, lo: nat, hi: nat)
    requires lo <= i < hi <= |q| && lo <= j < hi
    ensures SegmentPermuted(q, Swap(q, i, j), lo, hi)
  {
    SwapKeepsElements(q[lo..hi], i - lo, j - lo);
    assert Swap(q, i, j)[lo..hi] == Swap(q[lo..hi], i - lo, j - lo);
  }

  lemma WidenSegment(q: seq<int>, r: seq<int>, lo: nat, hi: nat, lo': nat, hi': nat)
    requires SegmentPermuted(q, r, lo, hi) && lo' <= lo && hi <= hi' <= |q|
    ensures SegmentPermuted(q, r, lo', hi')
  {
    assert r[lo'..lo] == q[lo'..lo] && r[hi..hi'] == q[hi..hi'];
    assert q[lo'..hi'] == q[lo'..lo] + q[lo..hi] + q[hi..hi'];
    assert r[lo'..hi'] == r[lo'..lo] + r[lo..hi] + r[hi..hi'];
  }

  /** A rearranged element was there before. */
  lemma FromSegment(q: seq<int>, r: seq<int>, lo: nat, hi: nat, k: nat)
    requires SegmentPermuted(q, r, lo, hi) && lo <= k < hi
    ensures exists m :: lo <= m < hi && q[m] == r[k]
  {
    assert r[lo..hi][k - lo] in multiset(r[lo..hi]);
    assert r[k] in multiset(q[lo..hi]);
    var m :| 0 <= m < hi - lo && q[lo..hi][m] == r[k];
    assert q[lo + m] == r[k];
  }

  // ---------- Quicksort ----------

  /** [left, p) lies below the pivot at p, and (p, right] does not. */
  ghost predicate Partitioned(q: seq<int>, left: nat, p: nat, right: nat) {
    && left <= p <= right < |q|
    && (forall k :: left <= k < p ==> q[k] < q[p])
    && (forall k :: p < k <= right ==> q[p] <= q[k])
  }

  method SwapElements(arr: array<int>, i: nat, j: nat, ghost q: seq<int>, ghost lo: nat, ghost hi: nat)
    requires lo <= i < hi <= arr.Length && lo <= j < hi && SegmentPermuted(q, arr[..], lo, hi)
    modifies arr
    ensures SegmentPermuted(q, arr[..], lo, hi)
    ensures arr[i] == old(arr[j]) && arr[j] == old(arr[i])
    ensures forall k :: 0 <= k < arr.Length && k != i && k != j ==> arr[k] == old(arr[k])
  {
    SwapInSegment(arr[..], i, j, lo, hi);
    ghost var r := arr[..];
    arr[i], arr[j] := arr[j], arr[i];
    assert arr[..] == Swap(r, i, j);
  }

  /** The loop of partition: everything up to i lies below the pivot, the rest up to right
      does not. */
  method Scan(arr: array<int>, left: nat, right: nat) returns (i: int)
    requires left <= right < arr.Length
    modifies arr
    ensures SegmentPermuted(old(arr[..]), arr[..], left, right + 1) && arr[right] == old(arr[right])
    ensures left - 1 <= i < right
    ensures forall k :: left <= k <= i ==> arr[k] < arr[right]
    ensures forall k :: i < k < right ==> arr[right] <= arr[k]
  {
    ghost var q := arr[..];
    var pivot := arr[right];
    i := left - 1;
    for j := left to right
      invariant left - 1 <= i < j && arr[right] == pivot
      invariant SegmentPermuted(q, arr[..], left, right + 1)
      invariant forall k :: left <= k <= i ==> arr[k] < pivot
      invariant forall k :: i < k < j ==> pivot <= arr[k]
    {
      if arr[j] < pivot {
        i := i + 1;
        SwapElements(arr, i, j, q, left, right + 1);
      }
    }
  }

  method Partition(arr: array<int>, left: nat, right: nat) returns (p: nat)
    requires left <= right < arr.Length
    modifies arr
    ensures SegmentPermuted(old(arr[..]), arr[..], left, right + 1)
    ensures Partitioned(arr[..], left, p, right)
  {
    ghost var q := arr[..];
    var i := Scan(arr, left, right);
    SwapElements(arr, i + 1, right, q, left, right + 1);
    return i + 1;
  }

  ghost predicate AscendingIn(q: seq<int>, lo: nat, hi: nat) {
    hi <= |q| && forall i, j :: lo <= i < j < hi ==> q[i] <= q[j]
  }

  /** Sorting the two sides of a partition sorts the whole. */
  lemma SidesSorted(q: seq<int>, r: seq<int>, s: seq<int>, left: nat, p: nat, right: nat)
    requires Partitioned(q, left, p, right)
    requires SegmentPermuted(q, r, left, p) && AscendingIn(r, left, p)
    requires SegmentPermuted(r, s, p + 1, right + 1) && AscendingIn(s, p + 1, right + 1)
    ensures AscendingIn(s, left, right + 1)
  {
    assert s[p] == q[p];
    forall k | left <= k < p ensures s[k] < q[p] {
      FromSegment(q, r, left, p, k);
    }
    forall k | p < k <= right ensures q[p] <= s[k] {
      FromSegment(r, s, p + 1, right + 1, k);
    }
    forall i, j | left <= i < j <= right ensures s[i] <= s[j] {
      if j < p {
        assert s[i] == r[i] && s[j] == r[j];
      }
    }
  }

  lemma SidesPermuted(o: seq<int>, q: seq<int>, r: seq<int>, s: seq<int>, left: nat, p: nat, right: nat)
    requires left <= p <= right && SegmentPermuted(o, q, left, right + 1)
    requires SegmentPermuted(q, r, left, p) && SegmentPermuted(r, s, p + 1, right + 1)
    ensures SegmentPermuted(o, s, left, right + 1)
  {
    WidenSegment(q, r, left, p, left, right + 1);
    WidenSegment(r, s, p + 1, right + 1, left, right + 1);
  }

  /** quickSort sorts arr[left..right] and touches nothing else. */
  method QuickSort(arr: array<int>, left: int, right: int)
    requires 0 <= left <= right + 1 <= arr.Length
    modifies arr
    ensures SegmentPermuted(old(arr[..]), arr[..], left, right + 1)
    ensures AscendingIn(arr[..], left, right + 1)
    decreases right - left + 1
  {
    if left < right {
      var p: int := Partition(arr, left, right);
      ghost var q := arr[..];
      QuickSort(arr, left, p - 1);
      ghost var r := arr[..];
      QuickSort(arr, p + 1, right);
      SidesSorted(q, r, arr[..], left, p, right);
      SidesPermuted(old(arr[..]), q, r, arr[..], left, p, right);
    }
  }

  // ---------- The cache ----------

  /** btcSortCache: keyList is the slice keys[..len]. */
  class Cache<V> {
    var keys: array<int>
    var len: nat
    var cache: map<int, V>

    ghost predicate Valid()
      reads this, keys
    {
      && len <= keys.Length
      && NoDup(keys[..len])
      && (forall k :: k in keys[..len] <==> k in cache)
    }

    ghost function KeyList(): (q: seq<int>)
      requires len <= keys.Length
      reads this, keys
    {
      keys[..len]
    }

    constructor ()
      ensures Valid() && fresh(keys) && KeyList() == [] && cache == map[]
    {
      keys := new int[0];
      len := 0;
      cache := map[];
    }

    /** A new key goes to the end of the list; a known one keeps its place. */
    method Set(index: int, val: V)
      requires Valid()
      modifies this, keys
      ensures Valid() && (keys == old(keys) || fresh(keys))
      ensures cache == old(cache)[index := val]
      ensures KeyList() == old(KeyList()) + if index in old(cache) then [] else [index]
    {
      if index !in cache {
        if len == keys.Length {
          Grow();
        }
        keys[len] := index;
        len := len + 1;
        assert keys[..len] == old(keys[..len]) + [index];
      }
      cache := cache[index := val];
    }

    method Grow()
      requires len <= keys.Length
      modifies this`keys
      ensures fresh(keys) && keys.Length > len == old(len) && keys[..len] == old(keys[..len])
    {
      var bigger := new int[2 * len + 1];
      forall i | 0 <= i < len {
        bigger[i] := keys[i];
      }
      keys := bigger;
    }

    method Get(index: int) returns (r: Option<V>)
      requires Valid()
      ensures r == if index in cache then Some(cache[index]) else None
      ensures r.Some? <==> index in KeyList()
    {
      return if index in cache then Some(cache[index]) else None;
    }

    /** Sort leaves a strictly ascending list of the same keys. */
    method Sort()
      requires Valid()
      modifies keys
      ensures Valid() && multiset(KeyList()) == multiset(old(KeyList()))
      ensures forall i, j :: 0 <= i < j < len ==> keys[i] < keys[j]
    {
      ghost var q := keys[..];
      QuickSort(keys, 0, len - 1);
      assert keys[..len] == keys[..][0..len] && old(keys[..len]) == q[0..len];
      NoDupPermuted(old(keys[..len]), keys[..len]);
      forall k ensures k in keys[..len] <==> k in cache {
        assert k in keys[..len] <==> k in multiset(keys[..len]);
        assert k in old(keys[..len]) <==> k in multiset(old(keys[..len]));
      }
      forall i, j | 0 <= i < j < len ensures keys[i] < keys[j] {
        assert keys[..len][i] != keys[..len][j];
        assert keys[..][i] <= keys[..][j];
      }
    }
  }
}

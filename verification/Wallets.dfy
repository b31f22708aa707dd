/** The sorted wallet list of accounts/manager.go and the URL order of accounts/url.go. */
module Wallets {
  import opened Seqs

  datatype URL = URL(scheme: string, path: string)

  /** A wallet; `device` tells wallets with one URL apart. */
  datatype Wallet = Wallet(url: URL, device: nat)

  // ---------- The order ----------

  /** strings.Compare */
  function Compare(a: string, b: string): (r: int)
    ensures r in {-1, 0, 1}
  {
    if a == [] && b == [] then 0
    else if a == [] then -1
    else if b == [] then 1
    else if a[0] < b[0] then -1
    else if a[0] > b[0] then 1
    else Compare(a[1..], b[1..])
  }

  function Cmp(u: URL, v: URL): (r: int)
    ensures r in {-1, 0, 1}
  {
    if u.scheme == v.scheme then Compare(u.path, v.path) else Compare(u.scheme, v.scheme)
  }

  lemma {:induction false} CompareEqual(a: string, b: string)
    ensures Compare(a, b) == 0 <==> a == b
  {
    if a != [] && b != [] && a[0] == b[0] {
      CompareEqual(a[1..], b[1..]);
      assert a == [a[0]] + a[1..] && b == [b[0]] + b[1..];
    }
  }

  lemma {:induction false} CompareFlips(a: string, b: string)
    ensures Compare(a, b) == -Compare(b, a)
  {
    if a != [] && b != [] {
      CompareFlips(a[1..], b[1..]);
    }
  }

  lemma {:induction false} CompareChains(a: string, b: string, c: string)
    requires Compare(a, b) <= 0 && Compare(b, c) <= 0
    ensures Compare(a, c) <= 0
    ensures Compare(a, b) < 0 || Compare(b, c) < 0 ==> Compare(a, c) < 0
  {
    if a != [] && b != [] && c != [] && a[0] == b[0] == c[0] {
      CompareChains(a[1..], b[1..], c[1..]);
    }
  }

  lemma CmpChains(u: URL, v: URL, w: URL)
    requires Cmp(u, v) <= 0 && Cmp(v, w) <= 0
    ensures Cmp(u, w) <= 0 && (Cmp(u, v) < 0 || Cmp(v, w) < 0 ==> Cmp(u, w) < 0)
  {
    CompareEqual(u.scheme, v.scheme);
    CompareEqual(v.scheme, w.scheme);
    CompareEqual(u.scheme, w.scheme);
    if u.scheme == v.scheme == w.scheme {
      CompareChains(u.path, v.path, w.path);
    } else {
      CompareChains(u.scheme, v.scheme, w.scheme);
    }
  }

  /** Cmp is a total order on URLs: it is 0 only on equal ones, changes sign when turned
      round, and chains. */
  lemma CmpIsTotalOrder(u: URL, v: URL, w: URL)
    ensures Cmp(u, v) == 0 <==> u == v
    ensures Cmp(u, v) == -Cmp(v, u)
    ensures Cmp(u, v) <= 0 && Cmp(v, w) <= 0 ==> Cmp(u, w) <= 0
    ensures Cmp(u, v) <= 0 && Cmp(v, w) <= 0 && (Cmp(u, v) < 0 || Cmp(v, w) < 0) ==> Cmp(u, w) < 0
  {
    CompareEqual(u.path, v.path);
    CompareEqual(u.scheme, v.scheme);
    CompareFlips(u.path, v.path);
    CompareFlips(u.scheme, v.scheme);
    if Cmp(u, v) <= 0 && Cmp(v, w) <= 0 {
      CompareEqual(v.scheme, w.scheme);
      CompareEqual(u.scheme, w.scheme);
      CmpChains(u, v, w);
    }
  }

  /** a stands before b at place k: they agree up to it, and there a ends or has the smaller
      character. */
  predicate DiffersAt(a: string, b: string, k: nat) {
    && k <= |a| && k < |b| && a[..k] == b[..k]
    && (k == |a| || a[k] < b[k])
  }

  ghost predicate Below(a: string, b: string) { exists k: nat :: DiffersAt(a, b, k) }

  lemma {:induction false} BelowIsLess(a: string, b: string, k: nat)
    requires DiffersAt(a, b, k)
    ensures Compare(a, b) == -1
  {
    if k > 0 {
      assert a[..k][0] == b[..k][0] && a[..k][1..] == b[..k][1..];
      assert a[1..][..k - 1] == a[..k][1..] && b[1..][..k - 1] == b[..k][1..];
      BelowIsLess(a[1..], b[1..], k - 1);
    }
  }

  lemma {:induction false} LessIsBelow(a: string, b: string) returns (k: nat)
    requires Compare(a, b) == -1
    ensures DiffersAt(a, b, k)
  {
    if a != [] && a[0] == b[0] {
      var j := LessIsBelow(a[1..], b[1..]);
      k := j + 1;
      assert a[..k] == [a[0]] + a[1..][..j] && b[..k] == [b[0]] + b[1..][..j];
    } else {
      k := 0;
    }
  }

  lemma CompareIsBelow(a: string, b: string)
    ensures Compare(a, b) == -1 <==> Below(a, b)
  {
    if Compare(a, b) == -1 {
      var k := LessIsBelow(a, b);
    }
    if Below(a, b) {
      var k: nat :| DiffersAt(a, b, k);
      BelowIsLess(a, b, k);
    }
  }

  /** The order is lexicographic: the scheme decides before the path, and each part by its
      first differing character. */
  lemma CmpIsLexicographic(u: URL, v: URL)
    ensures Cmp(u, v) == -1 <==> Below(u.scheme, v.scheme) || (u.scheme == v.scheme && Below(u.path, v.path))
    ensures Cmp(u, v) == 1 <==> Below(v.scheme, u.scheme) || (u.scheme == v.scheme && Below(v.path, u.path))
  {
    CompareIsBelow(u.scheme, v.scheme);
    CompareIsBelow(u.path, v.path);
    CompareIsBelow(v.scheme, u.scheme);
    CompareIsBelow(v.path, u.path);
    CompareFlips(u.scheme, v.scheme);
    CompareFlips(u.path, v.path);
    CompareEqual(u.scheme, v.scheme);
  }

  ghost predicate Sorted(s: seq<Wallet>) {
    forall i, j :: 0 <= i < j < |s| ==> Cmp(s[i].url, s[j].url) <= 0
  }

  // ---------- merge and drop ----------

  /** The split that sort.Search finds: everything before n is smaller, nothing from n on. */
  ghost predicate SplitsAt(s: seq<Wallet>, u: URL, n: nat) {
    && n <= |s|
    && (forall i :: 0 <= i < n ==> Cmp(s[i].url, u) < 0)
    && (forall i :: n <= i < |s| ==> Cmp(s[i].url, u) >= 0)
  }

  function Place(s: seq<Wallet>, u: URL): (n: nat)
    ensures n <= |s|
  {
    if s == [] || Cmp(s[0].url, u) >= 0 then 0 else 1 + Place(s[1..], u)
  }

  lemma {:induction false} PlaceSplits(s: seq<Wallet>, u: URL)
    requires Sorted(s)
    ensures SplitsAt(s, u, Place(s, u))
  {
    if s != [] {
      if Cmp(s[0].url, u) >= 0 {
        forall i | 0 <= i < |s| ensures Cmp(s[i].url, u) >= 0 {
          CmpIsTotalOrder(s[0].url, u, u);
          CmpIsTotalOrder(s[i].url, u, u);
          CmpIsTotalOrder(u, s[0].url, s[i].url);
        }
      } else {
        PlaceSplits(s[1..], u);
        assert forall i :: 0 < i < |s| ==> s[i] == s[1..][i - 1];
      }
    }
  }

  lemma SplitUnique(s: seq<Wallet>, u: URL, m: nat, n: nat)
    requires SplitsAt(s, u, m) && SplitsAt(s, u, n)
    ensures m == n
  {
    assert m < |s| ==> Cmp(s[m].url, u) >= 0;
    assert n < |s| ==> Cmp(s[n].url, u) >= 0;
  }

  function Insert(s: seq<Wallet>, w: Wallet): seq<Wallet> {
    s[..Place(s, w.url)] + [w] + s[Place(s, w.url)..]
  }

  function Merged(s: seq<Wallet>, ws: seq<Wallet>): seq<Wallet> {
    if ws == [] then s else Insert(Merged(s, ws[..|ws| - 1]), ws[|ws| - 1])
  }

  /** The source does not look whether the wallet at the found place is the right one. */
  function DropOne(s: seq<Wallet>, w: Wallet): seq<Wallet> {
    var n := Place(s, w.url);
    if n == |s| then s else RemoveAt(s, n)
  }

  function Dropped(s: seq<Wallet>, ws: seq<Wallet>): seq<Wallet> {
    if ws == [] then s else DropOne(Dropped(s, ws[..|ws| - 1]), ws[|ws| - 1])
  }

  lemma CmpFlips(u: URL, v: URL)
    ensures Cmp(u, v) == -Cmp(v, u)
  {
    CmpIsTotalOrder(u, v, v);
  }

  lemma InsertedAt(s: seq<Wallet>, w: Wallet, n: nat)
    requires Sorted(s) && SplitsAt(s, w.url, n)
    ensures Sorted(s[..n] + [w] + s[n..])
  {
    var r := s[..n] + [w] + s[n..];
    forall i, j | 0 <= i < j < |r| ensures Cmp(r[i].url, r[j].url) <= 0 {
      if i == n {
        assert r[j] == s[j - 1];
        CmpFlips(w.url, s[j - 1].url);
      } else if j == n {
        assert r[i] == s[i];
      } else {
        assert r[i] == s[if i < n then i else i - 1] && r[j] == s[if j < n then j else j - 1];
      }
    }
  }

  lemma InsertKeepsSorted(s: seq<Wallet>, w: Wallet)
    requires Sorted(s)
    ensures Sorted(Insert(s, w)) && multiset(Insert(s, w)) == multiset(s) + multiset{w}
  {
    var n := Place(s, w.url);
    PlaceSplits(s, w.url);
    InsertedAt(s, w, n);
    assert s == s[..n] + s[n..];
  }

  lemma DropKeepsSorted(s: seq<Wallet>, w: Wallet)
    requires Sorted(s)
    ensures Sorted(DropOne(s, w))
  {
  }

  lemma BagOfLast(ws: seq<Wallet>)
    requires ws != []
    ensures multiset(ws) == multiset(ws[..|ws| - 1]) + multiset{ws[|ws| - 1]}
  {
    assert ws == ws[..|ws| - 1] + [ws[|ws| - 1]];
  }

  lemma {:induction false} MergedSorted(s: seq<Wallet>, ws: seq<Wallet>)
    requires Sorted(s)
    ensures Sorted(Merged(s, ws)) && multiset(Merged(s, ws)) == multiset(s) + multiset(ws)
  {
    if ws != [] {
      var n := |ws| - 1;
      var m := Merged(s, ws[..n]);
      MergedSorted(s, ws[..n]);
      InsertKeepsSorted(m, ws[n]);
      BagOfLast(ws);
      assert multiset(Merged(s, ws)) == multiset(m) + multiset{ws[n]};
    }
  }

  lemma {:induction false} DroppedSorted(s: seq<Wallet>, ws: seq<Wallet>)
    requires Sorted(s)
    ensures Sorted(Dropped(s, ws))
  {
    if ws != [] {
      DroppedSorted(s, ws[..|ws| - 1]);
      DropKeepsSorted(Dropped(s, ws[..|ws| - 1]), ws[|ws| - 1]);
    }
  }

  // ---------- Slices ----------

  /** A []Wallet from the start of its backing array. append writes to that array when its
      capacity allows, so that every alias sees the write, and to a new one otherwise. */
  class WalletSlice {
    var buf: array<Wallet>
    var len: nat

    ghost predicate Valid()
      reads this
    {
      len <= buf.Length
    }

    ghost function Contents(): seq<Wallet>
      requires Valid()
      reads this, buf
    {
      buf[..len]
    }

    constructor ()
      ensures Valid() && fresh(buf) && Contents() == []
    {
      buf, len := new Wallet[0], 0;
    }

    /** sort.Search: a binary search. */
    method Search(u: URL) returns (n: nat)
      requires Valid() && Sorted(Contents())
      ensures n == Place(Contents(), u)
    {
      PlaceSplits(buf[..len], u);
      ghost var p := Place(buf[..len], u);
      var i, j := 0, len;
      while i < j
        invariant 0 <= i <= p <= j <= len
      {
        var h := (i + j) / 2;
        assert buf[h] == buf[..len][h];
        if !(Cmp(buf[h].url, u) >= 0) {
          i := h + 1;
        } else {
          j := h;
        }
      }
      return i;
    }

    /** append(slice[:n], more...) when `more` is an array of its own. */
    method AppendAfter(n: nat, more: array<Wallet>)
      requires Valid() && n <= len && more != buf
      modifies this, buf
      ensures Valid() && (buf == old(buf) || fresh(buf))
      ensures Contents() == old(Contents())[..n] + more[..]
    {
      var m := n + more.Length;
      if buf.Length < m {
        var bigger := new Wallet[2 * m];
        forall j | 0 <= j < n {
          bigger[j] := buf[j];
        }
        buf := bigger;
      }
      forall j | 0 <= j < more.Length {
        buf[n + j] := more[j];
      }
      len := m;
      assert buf[..m] == old(buf[..len])[..n] + more[..];
    }

    /** append(slice[:n], append([]Wallet{w}, slice[n:]...)...): the inner append copies the
        tail to a new array before the outer one overwrites it. */
    method InsertAt(n: nat, w: Wallet)
      requires Valid() && n <= len
      modifies this, buf
      ensures Valid() && (buf == old(buf) || fresh(buf))
      ensures Contents() == old(Contents())[..n] + [w] + old(Contents())[n..]
    {
      var inner := new Wallet[len - n + 1](_ => w);
      forall j | n <= j < len {
        inner[j - n + 1] := buf[j];
      }
      assert inner[..] == [w] + buf[..len][n..];
      AppendAfter(n, inner);
      assert old(Contents())[..n] + ([w] + old(Contents())[n..]) == old(Contents())[..n] + [w] + old(Contents())[n..];
    }

    /** append(slice[:n], slice[n+1:]...): the tail moves within the array. */
    method DeleteAt(n: nat)
      requires Valid() && n < len
      modifies this`len, buf
      ensures Valid() && Contents() == RemoveAt(old(Contents()), n)
    {
      forall j | n <= j < len - 1 {
        buf[j] := buf[j + 1];
      }
      len := len - 1;
      assert buf[..len] == RemoveAt(old(buf[..len]), n);
    }

    method MergeOne(w: Wallet)
      requires Valid() && Sorted(Contents())
      modifies this, buf
      ensures Valid() && (buf == old(buf) || fresh(buf))
      ensures Contents() == Insert(old(Contents()), w)
    {
      var n := Search(w.url);
      if n == len {
        var one := new Wallet[1](_ => w);
        AppendAfter(n, one);
      } else {
        InsertAt(n, w);
      }
    }

    method Merge(ws: seq<Wallet>)
      requires Valid() && Sorted(Contents())
      modifies this, buf
      ensures Valid() && (buf == old(buf) || fresh(buf))
      ensures Contents() == Merged(old(Contents()), ws)
      ensures Sorted(Contents()) && multiset(Contents()) == multiset(old(Contents())) + multiset(ws)
    {
      ghost var s := buf[..len];
      MergedSorted(s, ws);
      for i := 0 to |ws|
        invariant Valid() && (buf == old(buf) || fresh(buf))
        invariant Contents() == Merged(s, ws[..i])
      {
        MergedSorted(s, ws[..i]);
        assert ws[..i + 1][..i] == ws[..i];
        MergeOne(ws[i]);
      }
      assert ws[..|ws|] == ws;
    }

    method Drop(ws: seq<Wallet>)
      requires Valid() && Sorted(Contents())
      modifies this`len, buf
      ensures Valid() && Contents() == Dropped(old(Contents()), ws) && Sorted(Contents())
    {
      ghost var s := buf[..len];
      DroppedSorted(s, ws);
      for i := 0 to |ws|
        invariant Valid() && Contents() == Dropped(s, ws[..i])
      {
        DroppedSorted(s, ws[..i]);
        assert ws[..i + 1][..i] == ws[..i];
        var n := Search(ws[i].url);
        if n != len {
          DeleteAt(n);
        }
      }
      assert ws[..|ws|] == ws;
    }
  }

  // ---------- drop undoes merge ----------

  lemma PlaceAfterInsert(s: seq<Wallet>, w: Wallet)
    requires Sorted(s)
    ensures Place(Insert(s, w), w.url) == Place(s, w.url)
  {
    var n, r := Place(s, w.url), Insert(s, w);
    PlaceSplits(s, w.url);
    InsertKeepsSorted(s, w);
    PlaceSplits(r, w.url);
    CmpIsTotalOrder(w.url, w.url, w.url);
    assert SplitsAt(r, w.url, n);
    SplitUnique(r, w.url, n, Place(r, w.url));
  }

  lemma DropUndoesInsert(s: seq<Wallet>, w: Wallet)
    requires Sorted(s)
    ensures DropOne(Insert(s, w), w) == s
  {
    PlaceAfterInsert(s, w);
  }

  lemma {:induction false} DroppedFirst(s: seq<Wallet>, w: Wallet, ws: seq<Wallet>)
    ensures Dropped(s, [w] + ws) == Dropped(DropOne(s, w), ws)
    decreases |ws|
  {
    var all := [w] + ws;
    if ws == [] {
      assert all[..|all| - 1] == [];
    } else {
      assert all[..|all| - 1] == [w] + ws[..|ws| - 1];
      DroppedFirst(s, w, ws[..|ws| - 1]);
    }
  }

  // ---------- When drop removes the right wallet ----------

  ghost predicate Present(s: seq<Wallet>, u: URL) {
    exists i :: 0 <= i < |s| && s[i].url == u
  }

  ghost predicate AllBelow(s: seq<Wallet>, u: URL) {
    forall i :: 0 <= i < |s| ==> Cmp(s[i].url, u) < 0
  }

  function Urls(s: seq<Wallet>): seq<URL> { Map(s, (w: Wallet) => w.url) }

  lemma PresentAtPlace(s: seq<Wallet>, u: URL)
    requires Sorted(s)
    ensures Present(s, u) <==> Place(s, u) < |s| && s[Place(s, u)].url == u
  {
    PlaceSplits(s, u);
    var n := Place(s, u);
    if Present(s, u) {
      var i :| 0 <= i < |s| && s[i].url == u;
      CmpIsTotalOrder(u, u, u);
      assert n <= i;
      CmpIsTotalOrder(s[n].url, u, u);
      assert n < i ==> Cmp(s[n].url, s[i].url) <= 0;
    }
  }

  lemma UrlsWithout(s: seq<Wallet>, n: nat)
    requires n < |s|
    ensures multiset(Urls(RemoveAt(s, n))) + multiset{s[n].url} == multiset(Urls(s))
  {
    MapWithout(s, n, (w: Wallet) => w.url);
  }

  lemma UrlPresent(s: seq<Wallet>, u: URL)
    ensures Present(s, u) <==> u in multiset(Urls(s))
  {
    if Present(s, u) {
      var i :| 0 <= i < |s| && s[i].url == u;
      assert Urls(s)[i] == u;
    }
    if u in multiset(Urls(s)) {
      var i :| 0 <= i < |Urls(s)| && Urls(s)[i] == u;
      assert s[i].url == u;
    }
  }

  // ---------- drop undoes merge, in any order ----------

  /** Only the URL decides what is dropped. */
  lemma DropByUrl(s: seq<Wallet>, w: Wallet, d: Wallet)
    requires w.url == d.url
    ensures DropOne(s, d) == DropOne(s, w)
  {
  }

  lemma InsertedBelow(s: seq<Wallet>, a: Wallet, b: Wallet, p: nat, q: nat)
    requires SplitsAt(s, a.url, p) && SplitsAt(s, b.url, q) && q < |s| && s[q].url == b.url && Cmp(a.url, b.url) < 0
    ensures p <= q
    ensures SplitsAt(s[..p] + [a] + s[p..], b.url, q + 1) && SplitsAt(RemoveAt(s, q), a.url, p)
  {
    assert q < p ==> Cmp(s[q].url, a.url) < 0;
    CmpFlips(a.url, b.url);
    var r := s[..p] + [a] + s[p..];
    assert forall i :: 0 <= i < |r| ==> r[i] == if i < p then s[i] else if i == p then a else s[i - 1];
  }

  lemma InsertedAbove(s: seq<Wallet>, a: Wallet, b: Wallet, p: nat, q: nat)
    requires SplitsAt(s, a.url, p) && SplitsAt(s, b.url, q) && q < |s| && s[q].url == b.url && Cmp(a.url, b.url) > 0
    ensures q < p
    ensures SplitsAt(s[..p] + [a] + s[p..], b.url, q) && SplitsAt(RemoveAt(s, q), a.url, p - 1)
  {
    assert p <= q ==> Cmp(s[q].url, a.url) >= 0;
    CmpFlips(a.url, b.url);
    var r := s[..p] + [a] + s[p..];
    assert forall i :: 0 <= i < |r| ==> r[i] == if i < p then s[i] else if i == p then a else s[i - 1];
  }

  /** Where a split is, the search finds it. */
  lemma PlaceIs(s: seq<Wallet>, u: URL, n: nat)
    requires Sorted(s) && SplitsAt(s, u, n)
    ensures Place(s, u) == n
  {
    PlaceSplits(s, u);
    SplitUnique(s, u, n, Place(s, u));
  }

  lemma CutBehind(s: seq<Wallet>, a: Wallet, p: nat, q: nat)
    requires p <= q < |s|
    ensures RemoveAt(s[..p] + [a] + s[p..], q + 1) == RemoveAt(s, q)[..p] + [a] + RemoveAt(s, q)[p..]
  {
  }

  lemma CutBefore(s: seq<Wallet>, a: Wallet, p: nat, q: nat)
    requires q < p <= |s|
    ensures RemoveAt(s[..p] + [a] + s[p..], q) == RemoveAt(s, q)[..p - 1] + [a] + RemoveAt(s, q)[p - 1..]
  {
  }

  lemma RemovedSorted(s: seq<Wallet>, q: nat)
    requires Sorted(s) && q < |s|
    ensures Sorted(RemoveAt(s, q))
  {
  }

  lemma PlacesBelow(s: seq<Wallet>, a: Wallet, b: Wallet, p: nat, q: nat)
    requires Sorted(s) && p == Place(s, a.url) && q == Place(s, b.url) && q < |s| && s[q].url == b.url
    requires Cmp(a.url, b.url) < 0
    ensures p <= q && Place(Insert(s, a), b.url) == q + 1 && Place(RemoveAt(s, q), a.url) == p
  {
    PlaceSplits(s, a.url);
    PlaceSplits(s, b.url);
    InsertedBelow(s, a, b, p, q);
    InsertedAt(s, a, p);
    PlaceIs(s[..p] + [a] + s[p..], b.url, q + 1);
    RemovedSorted(s, q);
    PlaceIs(RemoveAt(s, q), a.url, p);
  }

  lemma PlacesAbove(s: seq<Wallet>, a: Wallet, b: Wallet, p: nat, q: nat)
    requires Sorted(s) && p == Place(s, a.url) && q == Place(s, b.url) && q < |s| && s[q].url == b.url
    requires Cmp(a.url, b.url) > 0
    ensures q < p && Place(Insert(s, a), b.url) == q && Place(RemoveAt(s, q), a.url) == p - 1
  {
    PlaceSplits(s, a.url);
    PlaceSplits(s, b.url);
    InsertedAbove(s, a, b, p, q);
    InsertedAt(s, a, p);
    PlaceIs(s[..p] + [a] + s[p..], b.url, q);
    RemovedSorted(s, q);
    PlaceIs(RemoveAt(s, q), a.url, p - 1);
  }

  /** Inserting one URL and dropping another that is there can change places. */
  lemma DropPassesInsert(s: seq<Wallet>, a: Wallet, b: Wallet)
    requires Sorted(s) && Present(s, b.url) && a.url != b.url
    ensures DropOne(Insert(s, a), b) == Insert(DropOne(s, b), a)
  {
    var p, q := Place(s, a.url), Place(s, b.url);
    PresentAtPlace(s, b.url);
    CmpIsTotalOrder(a.url, b.url, b.url);
    if Cmp(a.url, b.url) < 0 {
      PlacesBelow(s, a, b, p, q);
      CutBehind(s, a, p, q);
    } else {
      PlacesAbove(s, a, b, p, q);
      CutBefore(s, a, p, q);
    }
  }

  lemma MergedPresent(s: seq<Wallet>, ws: seq<Wallet>, u: URL)
    requires Sorted(s) && Present(ws, u)
    ensures Present(Merged(s, ws), u)
  {
    MergedSorted(s, ws);
    var i :| 0 <= i < |ws| && ws[i].url == u;
    assert ws[i] in multiset(Merged(s, ws));
    assert ws[i] in Merged(s, ws);
  }

  /** Dropping a URL takes back the last wallet merged under it. */
  lemma {:induction false} DropTakesLastMerged(s: seq<Wallet>, ws: seq<Wallet>, d: Wallet) returns (k: nat)
    requires Sorted(s) && Present(ws, d.url)
    ensures k < |ws| && ws[k].url == d.url && DropOne(Merged(s, ws), d) == Merged(s, RemoveAt(ws, k))
    decreases |ws|
  {
    var n := |ws| - 1;
    var front, w := ws[..n], ws[n];
    MergedSorted(s, front);
    if w.url == d.url {
      k := n;
      DropByUrl(Merged(s, ws), w, d);
      DropUndoesInsert(Merged(s, front), w);
      assert RemoveAt(ws, n) == front;
    } else {
      assert Present(front, d.url) by {
        var i :| 0 <= i < |ws| && ws[i].url == d.url;
        assert front[i] == ws[i];
      }
      k := DropTakesLastMerged(s, front, d);
      MergedPresent(s, front, d.url);
      DropPassesInsert(Merged(s, front), w, d);
      var rest := RemoveAt(ws, k);
      assert rest[..|rest| - 1] == RemoveAt(front, k) && rest[|rest| - 1] == w;
    }
  }

  lemma SameWithout(ws: seq<Wallet>, k: nat, ds: seq<Wallet>)
    requires k < |ws| && ds != [] && ws[k].url == ds[0].url && multiset(Urls(ws)) == multiset(Urls(ds))
    ensures multiset(Urls(RemoveAt(ws, k))) == multiset(Urls(ds[1..]))
  {
    UrlsWithout(ws, k);
    UrlsWithout(ds, 0);
    assert RemoveAt(ds, 0) == ds[1..];
    Cancel(multiset(Urls(RemoveAt(ws, k))), multiset(Urls(ds[1..])), ds[0].url);
  }

  lemma DropOneMerged(s: seq<Wallet>, ws: seq<Wallet>, ds: seq<Wallet>) returns (left: seq<Wallet>)
    requires Sorted(s) && multiset(Urls(ws)) == multiset(Urls(ds)) && ds != []
    ensures DropOne(Merged(s, ws), ds[0]) == Merged(s, left) && multiset(Urls(left)) == multiset(Urls(ds[1..]))
  {
    var d := ds[0];
    UrlPresent(ds, d.url);
    UrlPresent(ws, d.url);
    var k := DropTakesLastMerged(s, ws, d);
    left := RemoveAt(ws, k);
    SameWithout(ws, k, ds);
  }

  /** Dropping wallets with the URLs of those just merged, in any order, gives back the very
      list, with the wallets it had under those URLs before. */
  lemma {:induction false} DropUndoesMerge(s: seq<Wallet>, ws: seq<Wallet>, ds: seq<Wallet>)
    requires Sorted(s) && multiset(Urls(ws)) == multiset(Urls(ds))
    ensures Dropped(Merged(s, ws), ds) == s
    decreases |ds|
  {
    if ds == [] {
      SameLength(Urls(ws), Urls(ds));
    } else {
      var left := DropOneMerged(s, ws, ds);
      DropUndoesMerge(s, left, ds[1..]);
      DroppedFirst(Merged(s, ws), ds[0], ds[1..]);
      assert ds == [ds[0]] + ds[1..];
    }
  }

  /** drop takes out one wallet with the URL and nothing else exactly when such a wallet is
      there, or the URL lies above all in the list. Otherwise it takes out a neighbour. */
  lemma DropIsExact(s: seq<Wallet>, w: Wallet)
    requires Sorted(s)
    ensures multiset(Urls(DropOne(s, w))) == multiset(Urls(s)) - multiset{w.url}
      <==> Present(s, w.url) || AllBelow(s, w.url)
  {
    var n := Place(s, w.url);
    PlaceSplits(s, w.url);
    PresentAtPlace(s, w.url);
    UrlPresent(s, w.url);
    if n < |s| {
      UrlsWithout(s, n);
      CmpIsTotalOrder(w.url, w.url, w.url);
      assert !AllBelow(s, w.url);
      if s[n].url != w.url {
        assert Urls(s)[n] == s[n].url;
        assert multiset(Urls(DropOne(s, w)))[s[n].url] < multiset(Urls(s))[s[n].url];
        assert (multiset(Urls(s)) - multiset{w.url})[s[n].url] == multiset(Urls(s))[s[n].url];
      }
    }
  }

  /** Dropping "a" from a list that holds only "b" takes out "b". */
  lemma DropTakesNeighbour()
    ensures var a, b := Wallet(URL("k", "a"), 0), Wallet(URL("k", "b"), 1); DropOne([b], a) == []
  {
    var a, b := Wallet(URL("k", "a"), 0), Wallet(URL("k", "b"), 1);
    assert Compare("b", "a") == 1;
    assert Place([b], a.url) == 0;
  }

  // ---------- Runs of the update loop ----------

  datatype Event = Arrived(w: Wallet) | Departed(w: Wallet) | NewBackend(ws: seq<Wallet>)

  function Handle(s: seq<Wallet>, e: Event): seq<Wallet> {
    match e
    case Arrived(w) => Merged(s, [w])
    case Departed(w) => Dropped(s, [w])
    case NewBackend(ws) => Merged(s, ws)
  }

  function HandleAll(events: seq<Event>): seq<Wallet> {
    if events == [] then [] else Handle(HandleAll(events[..|events| - 1]), events[|events| - 1])
  }

  /** Arrivals minus departures, by URL. */
  function Balance(events: seq<Event>): multiset<URL> {
    if events == [] then multiset{}
    else
      var before := Balance(events[..|events| - 1]);
      match events[|events| - 1]
      case Arrived(w) => before + multiset{w.url}
      case Departed(w) => before - multiset{w.url}
      case NewBackend(ws) => before + multiset(Urls(ws))
  }

  /** Every departure has an arrival left to match. */
  ghost predicate Paired(events: seq<Event>) {
    forall i :: 0 <= i < |events| && events[i].Departed? ==> events[i].w.url in Balance(events[..i])
  }

  lemma MergedUrls(s: seq<Wallet>, ws: seq<Wallet>)
    requires Sorted(s)
    ensures multiset(Urls(Merged(s, ws))) == multiset(Urls(s)) + multiset(Urls(ws))
  {
    MergedSorted(s, ws);
    var url := (w: Wallet) => w.url;
    MapPermuted(Merged(s, ws), s + ws, url);
    MapConcat(s, ws, url);
  }

  /** In every run the list is sorted, and while departures match arrivals it holds exactly
      the arrivals minus the departures. */
  lemma {:induction false} ListIsBalance(events: seq<Event>)
    ensures Sorted(HandleAll(events))
    ensures Paired(events) ==> multiset(Urls(HandleAll(events))) == Balance(events)
  {
    if events != [] {
      var n := |events| - 1;
      var before, e := events[..n], events[n];
      ListIsBalance(before);
      var s := HandleAll(before);
      assert Paired(events) ==> Paired(before) by {
        assert forall i :: 0 <= i < n ==> before[i] == events[i] && before[..i] == events[..i];
      }
      match e
      case Arrived(w) =>
        MergedSorted(s, [w]);
        MergedUrls(s, [w]);
        assert Urls([w]) == [w.url];
      case Departed(w) =>
        assert [w][..0] == [];
        assert Dropped(s, [w]) == DropOne(s, w);
        DropKeepsSorted(s, w);
        DropIsExact(s, w);
        UrlPresent(s, w.url);
      case NewBackend(ws) =>
        MergedSorted(s, ws);
        MergedUrls(s, ws);
    }
  }

  lemma PairedWithoutDepartures(events: seq<Event>)
    requires forall i :: 0 <= i < |events| ==> !events[i].Departed?
    ensures Paired(events)
  {
  }

  /** The wallets of all backends. */
  function AllOf(backends: seq<seq<Wallet>>): multiset<Wallet> {
    if backends == [] then multiset{} else AllOf(backends[..|backends| - 1]) + multiset(backends[|backends| - 1])
  }

  /** The loop over the backends in NewManager. */
  method Collect(backends: seq<seq<Wallet>>, ghost events: seq<Event>) returns (list: WalletSlice)
    requires |events| == |backends| && forall i :: 0 <= i < |events| ==> events[i] == NewBackend(backends[i])
    ensures list.Valid() && fresh(list) && fresh(list.buf)
    ensures list.Contents() == HandleAll(events) && Sorted(list.Contents())
    ensures multiset(list.Contents()) == AllOf(backends)
  {
    list := new WalletSlice();
    for i := 0 to |backends|
      invariant list.Valid() && fresh(list) && fresh(list.buf)
      invariant list.Contents() == HandleAll(events[..i]) && Sorted(list.Contents())
      invariant multiset(list.Contents()) == AllOf(backends[..i])
    {
      assert events[..i + 1][..i] == events[..i] && backends[..i + 1][..i] == backends[..i];
      list.Merge(backends[i]);
    }
    assert events[..|backends|] == events && backends[..|backends|] == backends;
  }

  /** Manager, reduced to its wallet cache. */
  class Manager {
    const wallets: WalletSlice

    ghost predicate Valid()
      reads this, wallets, wallets.buf
    {
      wallets.Valid() && Sorted(wallets.Contents())
    }

    constructor (backends: seq<seq<Wallet>>)
      ensures Valid() && fresh(wallets) && fresh(wallets.buf)
      ensures multiset(wallets.Contents()) == AllOf(backends)
      ensures multiset(Urls(wallets.Contents())) == Balance(Map(backends, (ws: seq<Wallet>) => NewBackend(ws)))
    {
      ghost var events := Map(backends, (ws: seq<Wallet>) => NewBackend(ws));
      var list := Collect(backends, events);
      ListIsBalance(events);
      PairedWithoutDepartures(events);
      wallets := list;
    }

    /** One turn of the update loop. */
    method Update(e: Event)
      requires Valid()
      modifies wallets, wallets.buf
      ensures Valid() && (wallets.buf == old(wallets.buf) || fresh(wallets.buf))
      ensures wallets.Contents() == Handle(old(wallets.Contents()), e)
    {
      match e
      case Arrived(w) => wallets.Merge([w]);
      case Departed(w) => wallets.Drop([w]);
      case NewBackend(ws) => wallets.Merge(ws);
    }
  }
}

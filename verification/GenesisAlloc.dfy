/** The genesis allocation: makelist of core/mkalloc.go, which turns the map into a sorted
    list, and decodePrealloc of core/genesis.go, which turns the list back into a map. */
module GenesisAlloc {
  import opened BigEndian
  import opened Integers
  import opened Options
  import opened Seqs
  import opened Sorting

  type Address = b: Bytes | |b| == 20 witness Zeros(20)
  type Hash = b: Bytes | |b| == 32 witness Zeros(32)

  /** GenesisAccount. Nil and empty code or storage are not told apart. */
  datatype Account = Account(code: Bytes, storage: map<Hash, Hash>, balance: int, nonce: nat, privateKey: Bytes)

  datatype Slot = Slot(key: Hash, val: Hash)
  datatype Misc = Misc(nonce: nat, code: Bytes, slots: seq<Slot>)
  datatype Item = Item(addr: nat, balance: int, misc: Option<Misc>)

  // ---------- Addresses and integers ----------

  /** Address.SetBytes: the last bytes of b go to the end of the array, and what lies before
      them is left as it was. */
  method SetBytes(a: array<Byte>, b: Bytes)
    requires a.Length == 20
    modifies a
    ensures a[..] == if |b| > 20 then b[|b| - 20..] else old(a[..20 - |b|]) + b
  {
    var c := if |b| > 20 then b[|b| - 20..] else b;
    var at := 20 - |c|;
    forall i | 0 <= i < |c| {
      a[at + i] := c[i];
    }
    assert a[..] == old(a[..at]) + c;
  }

  method BytesToAddress(b: Bytes) returns (r: Address)
    ensures r == ToFixed(b, 20)
  {
    var a := new Byte[20](_ => 0);
    SetBytes(a, b);
    assert |b| <= 20 ==> a[..] == Zeros(20 - |b|) + b;
    return a[..];
  }

  function BigToAddress(n: nat): Address { ToFixed(ToBytes(n), 20) }

  function Key(s: Slot): int { FromBytes(s.key) }
  function Addr(i: Item): int { i.addr }

  // ---------- makelist ----------

  predicate HasMisc(a: Account) { |a.storage| > 0 || |a.code| > 0 || a.nonce != 0 }

  /** The slots list the storage, each entry once, by ascending key. */
  ghost predicate SlotsOf(slots: seq<Slot>, storage: map<Hash, Hash>) {
    && StrictlyBy(slots, Key)
    && (forall s :: s in slots <==> s.key in storage && storage[s.key] == s.val)
  }

  ghost predicate ItemOf(item: Item, addr: Address, a: Account) {
    && item.addr == FromBytes(addr) && item.balance == a.balance
    && (item.misc.Some? <==> HasMisc(a))
    && (item.misc.Some? ==>
          && item.misc.value.nonce == a.nonce && item.misc.value.code == a.code
          && SlotsOf(item.misc.value.slots, a.storage))
  }

  ghost predicate Belongs(item: Item, g: map<Address, Account>) {
    exists a: Address :: a in g && ItemOf(item, a, g[a])
  }

  ghost predicate HasItem(items: seq<Item>, addr: Address, a: Account) {
    exists x :: x in items && ItemOf(x, addr, a)
  }

  ghost predicate AllHave(items: seq<Item>, g: map<Address, Account>) {
    forall a: Address :: a in g ==> HasItem(items, a, g[a])
  }

  /** The items list the allocation, each account once, by ascending address. */
  ghost predicate ListOf(items: seq<Item>, g: map<Address, Account>) {
    && StrictlyBy(items, Addr)
    && (forall x :: x in items ==> Belongs(x, g))
    && AllHave(items, g)
  }

  lemma FreshKey(slots: seq<Slot>, key: Hash)
    requires NoDup(Map(slots, Key)) && forall s :: s in slots ==> s.key != key
    ensures forall val: Hash :: NoDup(Map(slots + [Slot(key, val)], Key))
  {
    forall i | 0 <= i < |slots| ensures Key(slots[i]) != FromBytes(key) {
      assert slots[i] in slots;
      if Key(slots[i]) == FromBytes(key) {
        FromBytesInjective(slots[i].key, key);
      }
    }
  }

  /** The storage loop and sort of makelist; the map is visited in any order. */
  method MakeSlots(storage: map<Hash, Hash>) returns (slots: seq<Slot>)
    ensures SlotsOf(slots, storage)
  {
    var todo := storage.Keys;
    slots := [];
    while todo != {}
      invariant todo <= storage.Keys
      invariant forall s :: s in slots <==> s.key in storage && s.key !in todo && storage[s.key] == s.val
      invariant NoDup(Map(slots, Key))
      decreases |todo|
    {
      var key :| key in todo;
      FreshKey(slots, key);
      slots := slots + [Slot(key, storage[key])];
      todo := todo - {key};
    }
    ghost var unsorted := slots;
    slots := SortFunc(slots, Key);
    DistinctKeysSorted(unsorted, slots, Key);
  }

  method MakeItem(addr: Address, a: Account) returns (item: Item)
    ensures ItemOf(item, addr, a)
  {
    var misc := None;
    if |a.storage| > 0 || |a.code| > 0 || a.nonce != 0 {
      var slots := MakeSlots(a.storage);
      misc := Some(Misc(a.nonce, a.code, slots));
    }
    return Item(FromBytes(addr), a.balance, misc);
  }

  lemma SeenStep(g: map<Address, Account>, todo: set<Address>, addr: Address)
    requires addr in todo && todo <= g.Keys
    ensures (g - todo)[addr := g[addr]] == g - (todo - {addr}) && addr !in g - todo
  {
  }

  /** The items of an allocation before they are sorted. */
  ghost predicate Listing(items: seq<Item>, g: map<Address, Account>) {
    && NoDup(Map(items, Addr))
    && (forall x :: x in items ==> Belongs(x, g))
    && AllHave(items, g)
  }

  lemma SortedListing(q: seq<Item>, r: seq<Item>, g: map<Address, Account>)
    requires StrictlyBy(r, Addr) && (forall x :: x in r <==> x in q) && Listing(q, g)
    ensures ListOf(r, g)
  {
    forall a: Address | a in g ensures HasItem(r, a, g[a]) {
      assert HasItem(q, a, g[a]);
      var x :| x in q && ItemOf(x, a, g[a]);
      assert x in r;
    }
  }

  method SortItems(q: seq<Item>, ghost g: map<Address, Account>) returns (r: seq<Item>)
    requires Listing(q, g)
    ensures ListOf(r, g)
  {
    r := SortFunc(q, Addr);
    DistinctKeysSorted(q, r, Addr);
    SortedListing(q, r, g);
  }

  lemma OtherAccount(x: Item, g: map<Address, Account>, addr: Address, a: Account, item: Item)
    requires addr !in g && ItemOf(item, addr, a) && Belongs(x, g)
    ensures Addr(x) != Addr(item) && Belongs(x, g[addr := a])
  {
    var b: Address :| b in g && ItemOf(x, b, g[b]);
    assert b in g[addr := a] && ItemOf(x, b, g[addr := a][b]);
    if Addr(x) == Addr(item) {
      FromBytesInjective(b, addr);
    }
  }

  lemma VisitBelongs(items: seq<Item>, g: map<Address, Account>, addr: Address, a: Account, item: Item)
    requires addr !in g && ItemOf(item, addr, a) && (forall x :: x in items ==> Belongs(x, g))
    ensures forall x :: x in items + [item] ==> Belongs(x, g[addr := a])
  {
    forall x | x in items + [item] ensures Belongs(x, g[addr := a]) {
      if x in items {
        OtherAccount(x, g, addr, a, item);
      } else {
        assert ItemOf(item, addr, g[addr := a][addr]);
      }
    }
  }

  lemma HasItemSplit(init: seq<Item>, last: Item, a: Address, acc: Account, b: Address, acc': Account)
    requires ItemOf(last, b, acc') && (a == b ==> acc == acc')
    ensures HasItem(init + [last], a, acc) <==> HasItem(init, a, acc) || a == b
  {
    var items := init + [last];
    if HasItem(init, a, acc) {
      var x :| x in init && ItemOf(x, a, acc);
      assert x in items;
    }
    if a == b {
      assert last in items;
    }
    if HasItem(items, a, acc) {
      var x :| x in items && ItemOf(x, a, acc);
      if x == last {
        FromBytesInjective(a, b);
      }
    }
  }

  lemma VisitHas(items: seq<Item>, g: map<Address, Account>, addr: Address, a: Account, item: Item)
    requires ItemOf(item, addr, a) && AllHave(items, g)
    ensures AllHave(items + [item], g[addr := a])
  {
    var g' := g[addr := a];
    forall b: Address | b in g' ensures HasItem(items + [item], b, g'[b]) {
      HasItemSplit(items, item, b, g'[b], addr, a);
    }
  }

  lemma VisitNoDup(items: seq<Item>, g: map<Address, Account>, addr: Address, a: Account, item: Item)
    requires addr !in g && ItemOf(item, addr, a)
    requires NoDup(Map(items, Addr)) && (forall x :: x in items ==> Belongs(x, g))
    ensures NoDup(Map(items + [item], Addr))
  {
    forall i | 0 <= i < |items| ensures Addr(items[i]) != Addr(item) {
      OtherAccount(items[i], g, addr, a, item);
    }
  }

  lemma VisitOne(items: seq<Item>, g: map<Address, Account>, addr: Address, a: Account, item: Item)
    requires addr !in g && ItemOf(item, addr, a) && Listing(items, g)
    ensures Listing(items + [item], g[addr := a])
  {
    VisitNoDup(items, g, addr, a, item);
    VisitBelongs(items, g, addr, a, item);
    VisitHas(items, g, addr, a, item);
  }

  /** makelist: the allocation map is visited in any order. */
  method MakeList(g: map<Address, Account>) returns (items: seq<Item>)
    ensures ListOf(items, g)
  {
    var todo := g.Keys;
    items := [];
    assert g - todo == map[];
    while todo != {}
      invariant todo <= g.Keys && Listing(items, g - todo)
      decreases |todo|
    {
      var addr :| addr in todo;
      var item := MakeItem(addr, g[addr]);
      SeenStep(g, todo, addr);
      VisitOne(items, g - todo, addr, g[addr], item);
      items := items + [item];
      todo := todo - {addr};
    }
    assert g - {} == g;
    items := SortItems(items, g);
  }

  // ---------- The list does not depend on the order of iteration ----------

  lemma ItemUnique(x: Item, y: Item, addr: Address, a: Account)
    requires ItemOf(x, addr, a) && ItemOf(y, addr, a)
    ensures x == y
  {
    if x.misc.Some? {
      StrictUnique(x.misc.value.slots, y.misc.value.slots, Key);
    }
  }

  lemma SameItem(q: seq<Item>, addr: Address, a: Account, x: Item)
    requires HasItem(q, addr, a) && ItemOf(x, addr, a)
    ensures x in q
  {
    var y :| y in q && ItemOf(y, addr, a);
    ItemUnique(x, y, addr, a);
  }

  lemma InEveryList(q: seq<Item>, g: map<Address, Account>, x: Item)
    requires AllHave(q, g) && Belongs(x, g)
    ensures x in q
  {
    var a: Address :| a in g && ItemOf(x, a, g[a]);
    SameItem(q, a, g[a], x);
  }

  /** Two lists of one allocation are equal, however its maps were visited. */
  lemma ListUnique(p: seq<Item>, q: seq<Item>, g: map<Address, Account>)
    requires ListOf(p, g) && ListOf(q, g)
    ensures p == q
  {
    forall x ensures x in p <==> x in q {
      if x in p { InEveryList(q, g, x); }
      if x in q { InEveryList(p, g, x); }
    }
    StrictUnique(p, q, Addr);
  }

  // ---------- decodePrealloc ----------

  function DecodeSlots(slots: seq<Slot>): map<Hash, Hash> {
    if slots == [] then map[]
    else var s := slots[|slots| - 1]; DecodeSlots(slots[..|slots| - 1])[s.key := s.val]
  }

  function DecodeItem(item: Item): Account {
    match item.misc
    case None => Account([], map[], item.balance, 0, [])
    case Some(m) => Account(m.code, DecodeSlots(m.slots), item.balance, m.nonce, [])
  }

  function Decode(items: seq<Item>): map<Address, Account> {
    if items == [] then map[]
    else
      var item := items[|items| - 1];
      Decode(items[..|items| - 1])[BigToAddress(item.addr) := DecodeItem(item)]
  }

  /** decodePrealloc behind the RLP decoder. */
  method DecodePrealloc(p: seq<Item>) returns (ga: map<Address, Account>)
    ensures ga == Decode(p)
  {
    ga := map[];
    for i := 0 to |p|
      invariant ga == Decode(p[..i])
    {
      var acc := Account([], map[], p[i].balance, 0, []);
      if p[i].misc.Some? {
        var m := p[i].misc.value;
        var storage := map[];
        for j := 0 to |m.slots|
          invariant storage == DecodeSlots(m.slots[..j])
        {
          assert m.slots[..j + 1][..j] == m.slots[..j];
          storage := storage[m.slots[j].key := m.slots[j].val];
        }
        assert m.slots[..|m.slots|] == m.slots;
        acc := acc.(nonce := m.nonce, code := m.code, storage := storage);
      }
      assert p[..i + 1][..i] == p[..i];
      var addr := BytesToAddress(ToBytes(p[i].addr));
      ga := ga[addr := acc];
    }
    assert p[..|p|] == p;
  }

  // ---------- Round trip ----------

  lemma LastKeyIsNew(slots: seq<Slot>, s: Slot)
    requires StrictlyBy(slots, Key) && slots != [] && s in slots[..|slots| - 1]
    ensures s.key != slots[|slots| - 1].key
  {
    var i :| 0 <= i < |slots| - 1 && slots[..|slots| - 1][i] == s;
    assert Key(slots[i]) < Key(slots[|slots| - 1]);
  }

  lemma {:induction false} SlotsDecode(slots: seq<Slot>, s: Slot)
    requires StrictlyBy(slots, Key)
    ensures s in slots <==> s.key in DecodeSlots(slots) && DecodeSlots(slots)[s.key] == s.val
  {
    if slots != [] {
      var n := |slots| - 1;
      SlotsDecode(slots[..n], s);
      assert slots == slots[..n] + [slots[n]];
      if s in slots[..n] {
        LastKeyIsNew(slots, s);
      }
    }
  }

  lemma StorageRoundTrip(slots: seq<Slot>, storage: map<Hash, Hash>)
    requires SlotsOf(slots, storage)
    ensures DecodeSlots(slots) == storage
  {
    var m := DecodeSlots(slots);
    forall k: Hash | k in m ensures k in storage && m[k] == storage[k] {
      SlotsDecode(slots, Slot(k, m[k]));
    }
    forall k: Hash | k in storage ensures k in m {
      SlotsDecode(slots, Slot(k, storage[k]));
    }
  }

  function Public(a: Account): Account { a.(privateKey := []) }

  lemma ItemRoundTrip(item: Item, addr: Address, a: Account)
    requires ItemOf(item, addr, a)
    ensures BigToAddress(item.addr) == addr && DecodeItem(item) == Public(a)
  {
    FixedRoundTrip(addr);
    if item.misc.Some? {
      StorageRoundTrip(item.misc.value.slots, a.storage);
    }
  }

  /** Items with distinct addresses do not overwrite each other. */
  lemma {:induction false} DecodeAt(items: seq<Item>, g: map<Address, Account>, a: Address)
    requires StrictlyBy(items, Addr) && (forall x :: x in items ==> Belongs(x, g))
    ensures a in Decode(items) <==> a in g && HasItem(items, a, g[a])
    ensures a in Decode(items) ==> Decode(items)[a] == Public(g[a])
  {
    if items != [] {
      var n := |items| - 1;
      var init, last := items[..n], items[n];
      assert items == init + [last];
      DecodeAt(init, g, a);
      assert last in items && Belongs(last, g);
      var b: Address :| b in g && ItemOf(last, b, g[b]);
      ItemRoundTrip(last, b, g[b]);
      if a in g {
        HasItemSplit(init, last, a, g[a], b, g[b]);
      }
    }
  }

  lemma ListedDecodes(items: seq<Item>, g: map<Address, Account>, a: Address)
    requires ListOf(items, g)
    ensures a in Decode(items) <==> a in g
    ensures a in g ==> Decode(items)[a] == Public(g[a])
  {
    DecodeAt(items, g, a);
    assert a in g ==> HasItem(items, a, g[a]);
  }

  lemma PublicMap(m: map<Address, Account>, g: map<Address, Account>)
    requires forall a: Address :: (a in m <==> a in g) && (a in g ==> m[a] == Public(g[a]))
    ensures m == map a | a in g :: Public(g[a])
  {
  }

  /** decodePrealloc gives back the allocation, all but the private keys. */
  lemma RoundTrip(items: seq<Item>, g: map<Address, Account>)
    requires ListOf(items, g)
    ensures Decode(items) == map a | a in g :: Public(g[a])
  {
    var m := Decode(items);
    forall a: Address ensures (a in m <==> a in g) && (a in g ==> m[a] == Public(g[a])) {
      ListedDecodes(items, g, a);
    }
    PublicMap(m, g);
  }

  /** Any two addresses with the same integer are equal, and an integer too large for an
      address is reduced modulo 2^160. */
  lemma AddressOfInteger(n: nat, a: Address) returns (quotient: nat)
    ensures BigToAddress(FromBytes(a)) == a
    ensures FromBytes(BigToAddress(n)) < Pow256(20)
    ensures n == quotient * Pow256(20) + FromBytes(BigToAddress(n))
  {
    FixedRoundTrip(a);
    quotient := FixedValue(n, 20);
  }
}

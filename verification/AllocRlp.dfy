/** The genesis allocation as bytes: makealloc of core/mkalloc.go and decodePrealloc of
    core/genesis.go with the RLP encoding between them.

    The struct types of the two files are read and written field by field; a value of type
    Rlp.Item stands for what the writers produce and the decoders deliver.
 */
module AllocRlp {
  import opened BigEndian
  import opened GenesisAlloc
  import opened Integers
  import opened Options
  import Rlp
  import RlpEncBuffer
  import RlpStream
  import opened RlpTypes

  // ---------- Values ----------

  function IntValue(n: nat): Rlp.Item { Rlp.Str(ToBytes(n)) }

  function SlotValue(s: Slot): Rlp.Item { Rlp.List([Rlp.Str(s.key), Rlp.Str(s.val)]) }

  function SlotValues(slots: seq<Slot>): seq<Rlp.Item> {
    if slots == [] then [] else [SlotValue(slots[0])] + SlotValues(slots[1..])
  }

  function MiscValue(m: Misc): Rlp.Item {
    Rlp.List([IntValue(m.nonce), Rlp.Str(m.code), Rlp.List(SlotValues(m.slots))])
  }

  /** A nil Misc is the last field and optional, so it is left out. */
  function ItemValue(x: Item): Rlp.Item
    requires x.balance >= 0
  {
    match x.misc
    case None => Rlp.List([IntValue(x.addr), IntValue(x.balance)])
    case Some(m) => Rlp.List([IntValue(x.addr), IntValue(x.balance), MiscValue(m)])
  }

  predicate NonceFits(x: Item) { x.misc.Some? ==> IsUint64(x.misc.value.nonce) }

  /** A negative balance has no encoding, and the nonce is a uint64. */
  predicate Encodable(x: Item) { x.balance >= 0 && NonceFits(x) }

  predicate AllEncodable(items: seq<Item>) { forall i :: 0 <= i < |items| ==> Encodable(items[i]) }

  function ItemValues(items: seq<Item>): seq<Rlp.Item>
    requires AllEncodable(items)
  {
    if items == [] then [] else [ItemValue(items[0])] + ItemValues(items[1..])
  }

  // ---------- Decoders ----------

  /** decodeBigInt refuses leading zeros. */
  function FromInt(v: Rlp.Item): Option<nat> {
    if v.Str? && (v.bytes == [] || v.bytes[0] != 0) then Some(FromBytes(v.bytes)) else None
  }

  function FromUint64(v: Rlp.Item): Option<nat> {
    if v.Str? && |v.bytes| <= 8 then FromInt(v) else None
  }

  function FromSlot(v: Rlp.Item): Option<Slot> {
    if v.List? && |v.items| == 2 && v.items[0].Str? && v.items[1].Str?
       && |v.items[0].bytes| == 32 && |v.items[1].bytes| == 32
    then Some(Slot(v.items[0].bytes, v.items[1].bytes))
    else None
  }

  function FromSlots(vs: seq<Rlp.Item>): Option<seq<Slot>> {
    if vs == [] then Some([])
    else
      var s, rest := FromSlot(vs[0]), FromSlots(vs[1..]);
      if s.Some? && rest.Some? then Some([s.value] + rest.value) else None
  }

  function FromMisc(v: Rlp.Item): Option<Misc> {
    if v.List? && |v.items| == 3 && v.items[1].Str? && v.items[2].List? then
      var nonce, slots := FromUint64(v.items[0]), FromSlots(v.items[2].items);
      if nonce.Some? && slots.Some? then Some(Misc(nonce.value, v.items[1].bytes, slots.value)) else None
    else None
  }

  function FromItem(v: Rlp.Item): Option<Item> {
    if v.List? && 2 <= |v.items| <= 3 then
      var addr, balance := FromInt(v.items[0]), FromInt(v.items[1]);
      if addr.None? || balance.None? then None
      else if |v.items| == 2 then Some(Item(addr.value, balance.value, None))
      else
        var misc := FromMisc(v.items[2]);
        if misc.Some? then Some(Item(addr.value, balance.value, misc)) else None
    else None
  }

  function FromItems(vs: seq<Rlp.Item>): Option<seq<Item>> {
    if vs == [] then Some([])
    else
      var x, rest := FromItem(vs[0]), FromItems(vs[1..]);
      if x.Some? && rest.Some? then Some([x.value] + rest.value) else None
  }

  // ---------- The decoders accept exactly what the writers produce ----------

  lemma IntExact(v: Rlp.Item, n: nat)
    ensures FromInt(v) == Some(n) <==> v == IntValue(n)
    ensures FromUint64(v) == Some(n) <==> v == IntValue(n) && IsUint64(n)
  {
    FromOfTo(n);
    NoLeadingZero(n);
    EightBytes(n);
    if v.Str? && (v.bytes == [] || v.bytes[0] != 0) {
      Rlp.Shortest(v.bytes);
    }
  }

  lemma SlotExact(v: Rlp.Item, s: Slot)
    ensures FromSlot(v) == Some(s) <==> v == SlotValue(s)
  {
    if v.List? && |v.items| == 2 {
      assert v.items == [v.items[0], v.items[1]];
    }
  }

  lemma {:induction false} SlotsExact(vs: seq<Rlp.Item>, slots: seq<Slot>)
    ensures FromSlots(vs) == Some(slots) <==> vs == SlotValues(slots)
    decreases |vs|
  {
    if vs != [] && slots != [] {
      SlotExact(vs[0], slots[0]);
      SlotsExact(vs[1..], slots[1..]);
      assert vs == [vs[0]] + vs[1..] && slots == [slots[0]] + slots[1..];
    }
  }

  lemma MiscExact(v: Rlp.Item, m: Misc)
    ensures FromMisc(v) == Some(m) <==> v == MiscValue(m) && IsUint64(m.nonce)
  {
    if v.List? && |v.items| == 3 && v.items[2].List? {
      IntExact(v.items[0], m.nonce);
      SlotsExact(v.items[2].items, m.slots);
    }
  }

  lemma ItemExact(v: Rlp.Item, x: Item)
    ensures FromItem(v) == Some(x) <==> Encodable(x) && v == ItemValue(x)
  {
    if v.List? && 2 <= |v.items| <= 3 && x.balance >= 0 {
      IntExact(v.items[0], x.addr);
      IntExact(v.items[1], x.balance);
      if |v.items| == 3 && x.misc.Some? {
        MiscExact(v.items[2], x.misc.value);
      }
    }
  }

  lemma {:induction false} ItemsExact(vs: seq<Rlp.Item>, items: seq<Item>)
    ensures FromItems(vs) == Some(items) <==> AllEncodable(items) && vs == ItemValues(items)
    decreases |vs|
  {
    if vs != [] && items != [] {
      ItemExact(vs[0], items[0]);
      ItemsExact(vs[1..], items[1..]);
      assert vs == [vs[0]] + vs[1..] && items == [items[0]] + items[1..];
      assert AllEncodable(items) <==> Encodable(items[0]) && AllEncodable(items[1..]);
    }
  }

  // ---------- Where each field stands ----------

  ghost predicate HoldsInt(v: Rlp.Item, n: nat) {
    v.Str? && FromBytes(v.bytes) == n && (v.bytes != [] ==> v.bytes[0] != 0)
  }

  lemma IntHeld(n: nat)
    ensures HoldsInt(IntValue(n), n)
  {
    FromOfTo(n);
    NoLeadingZero(n);
  }

  lemma {:induction false} SlotCount(slots: seq<Slot>)
    ensures |SlotValues(slots)| == |slots|
  {
    if slots != [] {
      SlotCount(slots[1..]);
    }
  }

  lemma {:induction false} SlotAt(slots: seq<Slot>, k: nat)
    requires k < |slots|
    ensures var vs := SlotValues(slots);
      |vs| == |slots| && vs[k] == Rlp.List([Rlp.Str(slots[k].key), Rlp.Str(slots[k].val)])
  {
    SlotCount(slots);
    if k > 0 {
      SlotAt(slots[1..], k - 1);
    }
  }

  /** An item is a list of the address and the balance as integers, and of a third list if it
      has more: the nonce as an integer, the code, and a list with a pair of key and value for
      each slot, in order. */
  lemma ItemLayout(x: Item, k: nat)
    requires x.balance >= 0
    ensures var v := ItemValue(x);
      && v.List? && |v.items| == (if x.misc.Some? then 3 else 2)
      && HoldsInt(v.items[0], x.addr) && HoldsInt(v.items[1], x.balance)
    ensures x.misc.Some? ==>
      var m, v := x.misc.value, ItemValue(x).items[2];
      && v.List? && |v.items| == 3
      && HoldsInt(v.items[0], m.nonce) && v.items[1] == Rlp.Str(m.code)
      && v.items[2].List? && |v.items[2].items| == |m.slots|
      && (k < |m.slots| ==> v.items[2].items[k] == Rlp.List([Rlp.Str(m.slots[k].key), Rlp.Str(m.slots[k].val)]))
  {
    IntHeld(x.addr);
    IntHeld(x.balance);
    if x.misc.Some? {
      IntHeld(x.misc.value.nonce);
      SlotCount(x.misc.value.slots);
      if k < |x.misc.value.slots| {
        SlotAt(x.misc.value.slots, k);
      }
    }
  }

  lemma OneByOne(a: Rlp.Item)
    ensures Rlp.EncodeAll([a]) == Rlp.Encode(a)
  {
    assert [a][1..] == [] && Rlp.Encode(a) + [] == Rlp.Encode(a);
  }

  /** In the bytes the fields follow each other in that order behind the head of the list. */
  lemma PairBytes(a: Rlp.Item, b: Rlp.Item)
    ensures Rlp.Encode(Rlp.List([a, b])) ==
      Rlp.Head(Rlp.LIST, |Rlp.Encode(a)| + |Rlp.Encode(b)|) + (Rlp.Encode(a) + Rlp.Encode(b))
  {
    OneByOne(b);
    assert [a, b][1..] == [b];
    assert Rlp.EncodeAll([a, b]) == Rlp.Encode(a) + Rlp.Encode(b);
  }

  lemma TripleBytes(a: Rlp.Item, b: Rlp.Item, c: Rlp.Item)
    ensures var p := Rlp.Encode(a) + Rlp.Encode(b) + Rlp.Encode(c);
      Rlp.Encode(Rlp.List([a, b, c])) == Rlp.Head(Rlp.LIST, |p|) + p
  {
    OneByOne(c);
    assert [a, b, c][1..] == [b, c] && [b, c][1..] == [c];
    assert Rlp.EncodeAll([b, c]) == Rlp.Encode(b) + Rlp.Encode(c);
    assert Rlp.EncodeAll([a, b, c]) == Rlp.Encode(a) + Rlp.Encode(b) + Rlp.Encode(c);
  }

  // ---------- The types ----------

  const HASH := ByteArray(32)
  const SLOT := Struct([HASH, HASH], [])
  const MISC := Struct([Uint, ByteSlice, Slice(SLOT)], [])
  /** allocItem; its last field is optional. */
  const ITEM := Struct([BigInt, BigInt], [MISC])
  const ALLOC := Slice(ITEM)

  lemma SlotType(v: Rlp.Item)
    ensures Accepts(SLOT, v) <==> FromSlot(v).Some?
  {
    assert Elem(SLOT, 0) == Some(HASH) && Elem(SLOT, 1) == Some(HASH) && Elem(SLOT, 2) == None;
  }

  predicate AllAccepted(elem: Type, vs: seq<Rlp.Item>) {
    forall k :: 0 <= k < |vs| ==> Accepts(elem, vs[k])
  }

  lemma SliceAccepts(elem: Type, vs: seq<Rlp.Item>)
    ensures Accepts(Slice(elem), Rlp.List(vs)) <==> AllAccepted(elem, vs)
  {
    assert forall k: nat :: Elem(Slice(elem), k) == Some(elem);
  }

  lemma SliceSplits(elem: Type, vs: seq<Rlp.Item>)
    requires vs != []
    ensures Accepts(Slice(elem), Rlp.List(vs)) <==> Accepts(elem, vs[0]) && Accepts(Slice(elem), Rlp.List(vs[1..]))
  {
    SliceAccepts(elem, vs);
    SliceAccepts(elem, vs[1..]);
    assert vs == [vs[0]] + vs[1..];
    if Accepts(elem, vs[0]) && AllAccepted(elem, vs[1..]) {
      forall k | 0 <= k < |vs| ensures Accepts(elem, vs[k]) {
        assert k > 0 ==> vs[k] == vs[1..][k - 1];
      }
    }
  }

  lemma {:induction false} SlotsType(vs: seq<Rlp.Item>)
    ensures Accepts(Slice(SLOT), Rlp.List(vs)) <==> FromSlots(vs).Some?
    decreases |vs|
  {
    if vs != [] {
      SlotType(vs[0]);
      SlotsType(vs[1..]);
      SliceSplits(SLOT, vs);
    }
  }

  lemma MiscType(v: Rlp.Item)
    ensures Accepts(MISC, v) <==> FromMisc(v).Some?
  {
    assert Elem(MISC, 0) == Some(Uint) && Elem(MISC, 1) == Some(ByteSlice);
    assert Elem(MISC, 2) == Some(Slice(SLOT)) && Elem(MISC, 3) == None;
    if v.List? && |v.items| == 3 && v.items[2].List? {
      SlotsType(v.items[2].items);
      assert v.items[2] == Rlp.List(v.items[2].items);
    }
  }

  lemma ItemType(v: Rlp.Item)
    ensures Accepts(ITEM, v) <==> FromItem(v).Some?
  {
    assert Elem(ITEM, 0) == Some(BigInt) && Elem(ITEM, 1) == Some(BigInt);
    assert Elem(ITEM, 2) == Some(MISC) && Elem(ITEM, 3) == None;
    if v.List? && |v.items| == 3 {
      MiscType(v.items[2]);
    }
  }

  /** The decoder for the type of decodePrealloc accepts exactly the values that make up a
      list of items. */
  lemma {:induction false} AllocType(vs: seq<Rlp.Item>)
    ensures Accepts(ALLOC, Rlp.List(vs)) <==> FromItems(vs).Some?
    decreases |vs|
  {
    if vs != [] {
      ItemType(vs[0]);
      AllocType(vs[1..]);
      SliceSplits(ITEM, vs);
    }
  }

  // ---------- Bytes ----------

  function AllocValue(items: seq<Item>): Rlp.Item
    requires AllEncodable(items)
  {
    Rlp.List(ItemValues(items))
  }

  function DecodeItems(data: Bytes): Option<seq<Item>> {
    match Rlp.Decode(data)
    case None => None
    case Some((v, _)) => if v.List? then FromItems(v.items) else None
  }

  /** decodePrealloc on bytes; it panics where this is None, and ignores what follows the
      first value. */
  function DecodeData(data: Bytes): Option<map<Address, Account>> {
    match DecodeItems(data)
    case None => None
    case Some(items) => Some(Decode(items))
  }

  /** Bytes decode to a list of items exactly when they begin with its encoding. */
  lemma DataExact(data: Bytes, items: seq<Item>)
    ensures DecodeItems(data) == Some(items) <==>
      AllEncodable(items) && Rlp.Fits(AllocValue(items)) && Rlp.Encode(AllocValue(items)) <= data
  {
    var d := Rlp.Decode(data);
    if d.Some? && d.value.0.List? {
      ItemsExact(d.value.0.items, items);
      Rlp.DecodesExactly(data, d.value.0, d.value.1);
    }
    if AllEncodable(items) && Rlp.Fits(AllocValue(items)) && Rlp.Encode(AllocValue(items)) <= data {
      var rest := data[|Rlp.Encode(AllocValue(items))|..];
      assert data == Rlp.Encode(AllocValue(items)) + rest;
      Rlp.DecodesExactly(data, AllocValue(items), rest);
      ItemsExact(ItemValues(items), items);
    }
  }

  method DecodePreallocData(data: Bytes) returns (ga: Option<map<Address, Account>>)
    requires |data| < TWO63
    ensures ga == DecodeData(data)
  {
    var front := RlpStream.DecodeFront(ALLOC, data);
    if Rlp.Decode(data).Some? && Rlp.Decode(data).value.0.List? {
      AllocType(Rlp.Decode(data).value.0.items);
    }
    if front.None? {
      return None;
    }
    var g := DecodePrealloc(FromItems(front.value.0.items).value);
    return Some(g);
  }

  /** The nonces are uint64, and the encoding is smaller than 2^64 bytes. */
  ghost predicate InMemory(g: map<Address, Account>) {
    && (forall a: Address :: a in g ==> IsUint64(g[a].nonce))
    && (forall items :: ListOf(items, g) && AllEncodable(items) ==> Rlp.Fits(AllocValue(items)))
  }

  ghost predicate NoNegative(g: map<Address, Account>) { forall a: Address :: a in g ==> g[a].balance >= 0 }

  lemma ListedFits(x: Item, g: map<Address, Account>)
    requires Belongs(x, g) && (forall a: Address :: a in g ==> IsUint64(g[a].nonce))
    ensures NonceFits(x) && (NoNegative(g) ==> x.balance >= 0)
  {
    var a: Address :| a in g && ItemOf(x, a, g[a]);
  }

  lemma ListedBalance(items: seq<Item>, a: Address, acc: Account)
    requires HasItem(items, a, acc) && AllEncodable(items)
    ensures acc.balance >= 0
  {
    var x :| x in items && ItemOf(x, a, acc);
  }

  lemma BalancesDecide(items: seq<Item>, g: map<Address, Account>)
    requires ListOf(items, g) && (forall a: Address :: a in g ==> IsUint64(g[a].nonce))
    ensures forall i :: 0 <= i < |items| ==> NonceFits(items[i])
    ensures AllEncodable(items) <==> NoNegative(g)
  {
    forall i | 0 <= i < |items| ensures NonceFits(items[i]) && (NoNegative(g) ==> items[i].balance >= 0) {
      ListedFits(items[i], g);
    }
    if AllEncodable(items) {
      forall a: Address | a in g ensures g[a].balance >= 0 {
        ListedBalance(items, a, g[a]);
      }
    }
  }

  /** writeBigIntPtr refuses a negative integer. */
  method CheckBalances(items: seq<Item>) returns (ok: bool)
    requires forall i :: 0 <= i < |items| ==> NonceFits(items[i])
    ensures ok <==> AllEncodable(items)
  {
    for i := 0 to |items|
      invariant AllEncodable(items[..i])
    {
      if items[i].balance < 0 {
        return false;
      }
    }
    assert items[..|items|] == items;
    return true;
  }

  /** makealloc: the allocation, sorted and encoded, or nothing if a balance is negative.
      Decoding the bytes gives back every account but its private key. */
  method MakeAlloc(g: map<Address, Account>) returns (data: Option<Bytes>)
    requires InMemory(g)
    ensures data.Some? <==> NoNegative(g)
    ensures data.Some? ==> DecodeData(data.value) == Some(map a | a in g :: Public(g[a]))
  {
    var items := MakeList(g);
    BalancesDecide(items, g);
    var ok := CheckBalances(items);
    if !ok {
      return None;
    }
    var bytes := RlpEncBuffer.EncodeToBytes(AllocValue(items));
    DataExact(bytes, items);
    RoundTrip(items, g);
    return Some(bytes);
  }
}

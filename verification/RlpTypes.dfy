/** The Go types that package rlp can decode into, and the values each of them accepts. */
module RlpTypes {
  import opened BigEndian
  import opened Options
  import opened Rlp

  /** A type as its decoder sees it. Interface is interface{}, which takes any value; the
      optional fields of a struct come last. */
  datatype Type =
    | Interface
    | BigInt
    | Uint
    | ByteSlice
    | ByteArray(length: nat)
    | Slice(elem: Type)
    | Struct(required: seq<Type>, optional: seq<Type>)

  predicate NoZeroInFront(b: Bytes) { b == [] || b[0] != 0 }

  predicate AcceptsString(t: Type, b: Bytes) {
    match t
    case Interface => true
    case BigInt => NoZeroInFront(b)
    case Uint => |b| <= 8 && NoZeroInFront(b)
    case ByteSlice => true
    case ByteArray(n) => |b| == n
    case _ => false
  }

  predicate IsListType(t: Type) { t.Interface? || t.Slice? || t.Struct? }

  /** The type of the k-th element of a list; a struct has no element behind its last field. */
  function Elem(t: Type, k: nat): Option<Type> {
    match t
    case Interface => Some(Interface)
    case Slice(elem) => Some(elem)
    case Struct(required, optional) =>
      var fields := required + optional;
      if k < |fields| then Some(fields[k]) else None
    case _ => None
  }

  function Required(t: Type): nat {
    if t.Struct? then |t.required| else 0
  }

  predicate Accepts(t: Type, x: Item) {
    match x
    case Str(b) => AcceptsString(t, b)
    case List(items) =>
      && IsListType(t) && Required(t) <= |items|
      && forall k :: 0 <= k < |items| ==> Elem(t, k).Some? && Accepts(Elem(t, k).value, items[k])
  }

  /** A decoded value, if the type accepts it. */
  function Typed(t: Type, d: Option<(Item, Bytes)>): Option<(Item, Bytes)> {
    if d.Some? && Accepts(t, d.value.0) then d else None
  }

  /** The elements of a list, if the type accepts the list. */
  function TypedList(t: Type, r: Option<seq<Item>>): Option<seq<Item>> {
    if r.Some? && Accepts(t, List(r.value)) then r else None
  }

  lemma InterfaceAcceptsAll(x: Item)
    ensures Accepts(Interface, x)
    decreases x
  {
    if x.List? {
      forall k | 0 <= k < |x.items| ensures Accepts(Interface, x.items[k]) {
        InterfaceAcceptsAll(x.items[k]);
      }
    }
  }

  // ---------- One element after the other ----------

  function Prepend(xs: seq<Item>, r: Option<seq<Item>>): Option<seq<Item>> {
    match r
    case None => None
    case Some(ys) => Some(xs + ys)
  }

  /** The bytes as the elements of a list of the type from the k-th on. */
  function ElementsFrom(t: Type, k: nat, a: Bytes): Option<seq<Item>>
    decreases |a|
  {
    if a == [] then
      if Required(t) <= k then Some([]) else None
    else if Elem(t, k).None? then None
    else
      match Typed(Elem(t, k).value, Decode(a))
      case None => None
      case Some((x, rest)) => Prepend([x], ElementsFrom(t, k + 1, rest))
  }

  lemma PrependNone(r: Option<seq<Item>>)
    ensures Prepend([], r) == r
  {
    if r.Some? {
      assert [] + r.value == r.value;
    }
  }

  lemma PrependOne(xs: seq<Item>, x: Item, r: Option<seq<Item>>)
    ensures Prepend(xs, Prepend([x], r)) == Prepend(xs + [x], r)
  {
    if r.Some? {
      assert xs + ([x] + r.value) == xs + [x] + r.value;
    }
  }

  predicate MayStandAt(t: Type, k: nat, x: Item) { Elem(t, k).Some? && Accepts(Elem(t, k).value, x) }

  /** The elements ys may stand in a list of the type from the k-th place to the end. */
  predicate FitsFrom(t: Type, k: nat, ys: seq<Item>) {
    && Required(t) <= k + |ys|
    && forall j :: 0 <= j < |ys| ==> MayStandAt(t, k + j, ys[j])
  }

  lemma FitsFromStep(t: Type, k: nat, x: Item, ys: seq<Item>, zs: seq<Item>)
    requires zs == [x] + ys
    ensures FitsFrom(t, k, zs) <==> MayStandAt(t, k, x) && FitsFrom(t, k + 1, ys)
  {
    if FitsFrom(t, k, zs) {
      assert MayStandAt(t, k + 0, zs[0]);
      forall j | 0 <= j < |ys| ensures MayStandAt(t, k + 1 + j, ys[j]) {
        assert MayStandAt(t, k + (j + 1), zs[j + 1]);
      }
    }
    if MayStandAt(t, k, x) && FitsFrom(t, k + 1, ys) {
      forall j | 0 <= j < |zs| ensures MayStandAt(t, k + j, zs[j]) {
        if j > 0 {
          assert MayStandAt(t, k + 1 + (j - 1), ys[j - 1]);
        }
      }
    }
  }

  lemma ElementsFromNext(t: Type, k: nat, a: Bytes, x: Item, rest: Bytes)
    requires a != [] && Decode(a) == Some((x, rest))
    ensures ElementsFrom(t, k, a) == if MayStandAt(t, k, x) then Prepend([x], ElementsFrom(t, k + 1, rest)) else None
    ensures DecodeAll(a) == Prepend([x], DecodeAll(rest))
  {
  }

  lemma NextElement(t: Type, k: nat, a: Bytes, x: Item, rest: Bytes)
    requires a != [] && Elem(t, k).Some? && Typed(Elem(t, k).value, Decode(a)) == Some((x, rest))
    ensures ElementsFrom(t, k, a) == Prepend([x], ElementsFrom(t, k + 1, rest))
  {
  }

  function Fitting(t: Type, k: nat, r: Option<seq<Item>>): Option<seq<Item>> {
    if r.Some? && FitsFrom(t, k, r.value) then r else None
  }

  lemma FittingNext(t: Type, k: nat, x: Item, r: Option<seq<Item>>)
    ensures Fitting(t, k, Prepend([x], r)) == if MayStandAt(t, k, x) then Prepend([x], Fitting(t, k + 1, r)) else None
  {
    if r.Some? {
      FitsFromStep(t, k, x, r.value, [x] + r.value);
    }
  }

  /** Decoding element by element with the types of the elements, and decoding first and
      looking at the types afterwards, come to the same. */
  lemma {:induction false} ElementsFromExact(t: Type, k: nat, a: Bytes)
    ensures ElementsFrom(t, k, a) == Fitting(t, k, DecodeAll(a))
    decreases |a|
  {
    if a != [] && Decode(a).Some? {
      var (x, rest) := Decode(a).value;
      ElementsFromExact(t, k + 1, rest);
      ElementsFromNext(t, k, a, x, rest);
      FittingNext(t, k, x, DecodeAll(rest));
    }
  }

  lemma ListFits(t: Type, ys: seq<Item>)
    requires IsListType(t)
    ensures FitsFrom(t, 0, ys) <==> Accepts(t, List(ys))
  {
    if FitsFrom(t, 0, ys) {
      forall j | 0 <= j < |ys| ensures Elem(t, j).Some? && Accepts(Elem(t, j).value, ys[j]) {
        assert MayStandAt(t, 0 + j, ys[j]);
      }
    }
  }

  lemma ElementsExact(t: Type, a: Bytes)
    requires IsListType(t)
    ensures ElementsFrom(t, 0, a) == TypedList(t, DecodeAll(a))
  {
    ElementsFromExact(t, 0, a);
    if DecodeAll(a).Some? {
      ListFits(t, DecodeAll(a).value);
    }
  }
}

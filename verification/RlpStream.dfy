/** The stream decoder of rlp/decode.go on an input of known length.

    Instead of cutting the input into slices, the stream keeps a stack with the number of
    bytes left in every open list. Reading takes bytes off the top entry; opening a list
    takes its size off the enclosing entry in advance. Kind compares the size of a value
    with the limit from before its header was read, so a list may be opened that reaches
    past its parent; the parent's entry then wraps around.

    The decoders are those for interface{}, integers, byte slices and arrays, slices and
    structs, chosen by the type to be decoded.
 */
module RlpStream {
  import opened BigEndian
  import opened Integers
  import opened Options
  import opened Rlp
  import opened RlpTypes

  /** What Kind reports: the end of the open list, or a header. */
  datatype Ahead = EndOfList | Got(header: Header)

  datatype Outcome = Ok(value: Item) | EOL | Failed

  function Last(stack: seq<nat>): nat
    requires stack != []
  {
    stack[|stack| - 1]
  }

  function WithLast(stack: seq<nat>, n: nat): (r: seq<nat>)
    requires stack != []
    ensures r != [] && Last(r) == n && |r| == |stack| && r[..|r| - 1] == stack[..|stack| - 1]
  {
    stack[|stack| - 1 := n]
  }

  predicate AtEnd(stack: seq<nat>) { stack != [] && Last(stack) == 0 }

  /** The bytes a read may take: those of the innermost list, as far as the input goes. */
  function Avail(input: Bytes, stack: seq<nat>): Bytes {
    if stack == [] || Last(stack) >= |input| then input else input[..Last(stack)]
  }

  /** The stack after n bytes have been read; a read past the limit is refused and leaves it. */
  function Spend(stack: seq<nat>, n: nat): seq<nat> {
    if stack == [] || n > Last(stack) then stack else WithLast(stack, Last(stack) - n)
  }

  ghost predicate Bounded(input: Bytes, stack: seq<nat>) {
    |input| < TWO63 && forall i :: 0 <= i < |stack| ==> stack[i] < TWO64
  }

  lemma SpendBounded(input: Bytes, stack: seq<nat>, n: nat)
    requires Bounded(input, stack) && n <= |input|
    ensures Bounded(input[n..], Spend(stack, n))
  {
  }

  /** The innermost limit exceeds the input, so it can never be used up. */
  predicate Runaway(input: Bytes, stack: seq<nat>) { stack != [] && Last(stack) > |input| }

  /** What is available after n bytes have been read. */
  lemma AvailAfter(input: Bytes, stack: seq<nat>, n: nat)
    requires n <= |Avail(input, stack)|
    ensures n <= |input| && Avail(input, stack)[..n] == input[..n]
    ensures stack != [] ==> n <= Last(stack) && Spend(stack, n) == WithLast(stack, Last(stack) - n)
    ensures Avail(input[n..], Spend(stack, n)) == Avail(input, stack)[n..]
  {
  }

  lemma SpendTwice(stack: seq<nat>, m: nat, n: nat)
    requires stack != [] ==> m + n <= Last(stack)
    ensures Spend(Spend(stack, m), n) == Spend(stack, m + n)
  {
  }

  // ---------- What Kind accepts ----------

  /** Kind's own limits on a header: the size against the limit from before the header, and
      against the input behind the header. */
  function Checked(input: Bytes, stack: seq<nat>): Header {
    var h := ReadKind(Avail(input, stack));
    if h.Value? && ((stack != [] && h.size > Last(stack)) || h.size > |input| - h.skip) then Bad else h
  }

  function Width(h: Header): nat
    requires !h.Bad?
  {
    if h.Single? then 1 else h.skip
  }

  function Deducted(stack: seq<nat>, size: nat): seq<nat> {
    if stack == [] then [] else WithLast(stack, (Last(stack) - size) % TWO64)
  }

  /** List: the size goes off the enclosing entry, in uint64, and becomes the new one. */
  function Opened(stack: seq<nat>, size: nat): seq<nat> {
    Deducted(stack, size) + [size]
  }

  ghost predicate IsList(h: Header) { h.Value? && h.list }

  // ---------- What a header announces ----------

  /** The decoder's result for a list: its elements, unless it is longer than what is there. */
  function ListOf(a: Bytes, h: Header, xs: Option<seq<Item>>): Option<(Item, Bytes)>
    requires h.Value? && h.skip <= |a|
  {
    if h.size > |a| - h.skip || xs.None? then None
    else Some((List(xs.value), a[h.skip + h.size..]))
  }

  /** What Bytes returns when the header was h and the available bytes are now a. */
  function StringOf(h: Header, a: Bytes): Option<Bytes> {
    if h.Single? then Some([h.value])
    else if h.Value? && !h.list && h.size <= |a| && !(h.size == 1 && a[0] < 0x80) then Some(a[..h.size])
    else None
  }

  function ContentSize(h: Header): nat {
    if h.Value? then h.size else 0
  }

  /** h stands at the front of the available bytes and has passed Kind. */
  ghost predicate Passed(i: Bytes, st: seq<nat>, h: Header) {
    && !h.Bad? && 1 <= Width(h) <= |Avail(i, st)| <= |i| && Width(h) <= 9
    && (h.Value? && st != [] ==> h.size <= Last(st))
    && (h.Value? ==> h.size <= |i| - h.skip)
  }

  /** A list is ahead, and d is what the available bytes decode to. */
  ghost predicate ListAhead(i: Bytes, st: seq<nat>, h: Header, d: Option<(Item, Bytes)>) {
    && Passed(i, st, h) && IsList(h)
    && d == ListOf(Avail(i, st), h, DecodeAll(i[h.skip..][..h.size]))
  }

  /** A string is ahead, and d is what the available bytes decode to. */
  ghost predicate StringAhead(i: Bytes, st: seq<nat>, h: Header, d: Option<(Item, Bytes)>) {
    && Passed(i, st, h) && !IsList(h)
    && var a, n := Avail(i, st), Width(h) + ContentSize(h);
       var b := StringOf(h, a[Width(h)..]);
       if b.Some? then n <= |a| && d == Some((Str(b.value), a[n..])) else d == None
  }

  lemma HeaderFits(b: Bytes)
    ensures var h := ReadKind(b); !h.Bad? ==> 1 <= Width(h) <= |b| && Width(h) <= 9
  {
  }

  /** Decode in terms of the header. */
  lemma DecodeByHeader(a: Bytes, h: Header)
    requires h == ReadKind(a) && h.Value?
    ensures Decode(a) ==
      if h.size > |a| - h.skip then None
      else DecodeBody(a[h.skip..h.skip + h.size], a[h.skip + h.size..], h.list)
  {
  }

  lemma BodyOf(i: Bytes, a: Bytes, m: nat, n: nat)
    requires m + n <= |a| <= |i| && a == i[..|a|]
    ensures i[m..][..n] == a[m..m + n] && a[m..][..n] == a[m..m + n]
  {
    assert i[m..][..n] == i[m..m + n];
    assert a[m..m + n] == i[m..m + n];
  }

  lemma ListIsDecoded(a: Bytes, h: Header, body: Bytes)
    requires h == ReadKind(a) && IsList(h)
    requires h.size <= |a| - h.skip ==> body == a[h.skip..h.skip + h.size]
    ensures Decode(a) == ListOf(a, h, DecodeAll(body))
  {
    DecodeByHeader(a, h);
  }

  lemma ListIsAhead(i: Bytes, st: seq<nat>, h: Header)
    requires h == Checked(i, st) && IsList(h)
    ensures ListAhead(i, st, h, Decode(Avail(i, st)))
  {
    var a, body := Avail(i, st), i[h.skip..][..h.size];
    HeaderFits(a);
    if h.size <= |a| - h.skip {
      BodyOf(i, a, h.skip, h.size);
    }
    ListIsDecoded(a, h, body);
  }

  lemma StringIsAhead(i: Bytes, st: seq<nat>, h: Header)
    requires h == Checked(i, st) && !h.Bad? && !IsList(h)
    ensures StringAhead(i, st, h, Decode(Avail(i, st)))
  {
    var a := Avail(i, st);
    HeaderFits(a);
    if h.Value? {
      DecodeByHeader(a, h);
      if h.size <= |a| - h.skip {
        BodyOf(i, a, h.skip, h.size);
      }
    }
  }

  /** The header that Kind reports, and d is what the available bytes decode to. */
  ghost predicate HeaderAhead(i: Bytes, st: seq<nat>, h: Header, d: Option<(Item, Bytes)>) {
    if h.Bad? then d == None else if IsList(h) then ListAhead(i, st, h, d) else StringAhead(i, st, h, d)
  }

  lemma HeaderIsAhead(i: Bytes, st: seq<nat>, h: Header)
    requires h == Checked(i, st)
    ensures HeaderAhead(i, st, h, Decode(Avail(i, st)))
  {
    if IsList(h) {
      ListIsAhead(i, st, h);
    } else if !h.Bad? {
      StringIsAhead(i, st, h);
    }
  }

  // ---------- One value ----------

  ghost predicate Delivered(i: Bytes, st: seq<nat>, d: Option<(Item, Bytes)>, i': Bytes, st': seq<nat>, x: Item) {
    var a, n := Avail(i, st), |i| - |i'|;
    0 <= n <= |a| <= |i| && i' == i[n..] && st' == Spend(st, n) && d == Some((x, a[n..]))
  }

  /** What decoding one value does to the input and the stack, when d is the value of the
      available bytes. A list that reaches past its parent may be delivered; then there is
      no such value, and the limit of the parent can no longer be used up. */
  ghost predicate After(i: Bytes, st: seq<nat>, d: Option<(Item, Bytes)>, i': Bytes, st': seq<nat>, o: Outcome) {
    match o
    case EOL => AtEnd(st)
    case Failed => d == None && !AtEnd(st)
    case Ok(x) =>
      && !AtEnd(st) && |i'| < |i| && |st'| == |st|
      && (st != [] ==> st'[..|st| - 1] == st[..|st| - 1])
      && (Delivered(i, st, d, i', st', x) || (d == None && Runaway(i', st')))
  }

  lemma ReadTwice(i: Bytes, st: seq<nat>, m: nat, n: nat)
    requires m + n <= |Avail(i, st)| <= |i|
    ensures i[m..][n..] == i[m + n..] && Spend(Spend(st, m), n) == Spend(st, m + n)
  {
    AvailAfter(i, st, m + n);
    SpendTwice(st, m, n);
  }

  lemma StringAfter(i: Bytes, st: seq<nat>, h: Header, d: Option<(Item, Bytes)>, b: Bytes)
    requires Bounded(i, st) && !AtEnd(st) && StringAhead(i, st, h, d)
    requires StringOf(h, Avail(i, st)[Width(h)..]) == Some(b)
    ensures var i', st' := i[Width(h)..][ContentSize(h)..], Spend(Spend(st, Width(h)), ContentSize(h));
      After(i, st, d, i', st', Ok(Str(b))) && Bounded(i', st')
  {
    ReadTwice(i, st, Width(h), ContentSize(h));
    SpendBounded(i, st, Width(h) + ContentSize(h));
  }

  /** decodeByteArray and uint64 refuse some lengths before reading. */
  predicate WrongLength(t: Type, h: Header) {
    h.Value? && ((t.ByteArray? && h.size != t.length) || (t.Uint? && h.size > 8))
  }

  lemma WrongLengthRefused(t: Type, i: Bytes, st: seq<nat>, h: Header, d: Option<(Item, Bytes)>)
    requires StringAhead(i, st, h, d) && WrongLength(t, h)
    ensures Typed(t, d) == None
  {
  }

  /** A list whose content is in the input but reaches past the open list, by no more than
      the width of its own header: Kind lets exactly these through. */
  ghost predicate ReachesPast(i: Bytes, st: seq<nat>, h: Header) {
    && IsList(h) && h.skip <= |i| && h.size <= |i| - h.skip
    && st != [] && Last(st) - h.skip < h.size <= Last(st)
  }

  /** Such a list that the decoder for the type delivers. */
  ghost predicate Overrun(t: Type, i: Bytes, st: seq<nat>, h: Header) {
    ReachesPast(i, st, h) && TypedList(t, DecodeAll(i[h.skip..][..h.size])).Some?
  }

  lemma ListTypeNeeded(t: Type, i: Bytes, st: seq<nat>, h: Header, d: Option<(Item, Bytes)>)
    requires ListAhead(i, st, h, d) && !IsListType(t)
    ensures Typed(t, d) == None && !Overrun(t, i, st, h)
  {
  }

  // ---------- Lists ----------

  /** An overrun is decided by the bytes and the limits alone. */
  lemma ReachesPastIsPassed(i: Bytes, st: seq<nat>)
    ensures var h := ReadKind(Avail(i, st)); ReachesPast(i, st, h) <==> ReachesPast(i, st, Checked(i, st))
    ensures ReachesPast(i, st, Checked(i, st)) ==> Checked(i, st) == ReadKind(Avail(i, st))
  {
  }

  lemma OneElement()
    ensures DecodeAll([5]) == Some([Str([5])])
  {
    var body: Bytes := [5];
    assert Decode(body) == Some((Str([5]), [])) by { assert body[1..] == []; }
    assert [Str([5])] + [] == [Str([5])];
  }

  /** In a list of one byte, the header of a list of one byte: the content lies behind the
      open list, Kind accepts it, and the available bytes hold no value. */
  lemma OverrunExists()
    ensures var i: Bytes, st: seq<nat> := [0xC1, 5], [1];
      && Checked(i, st) == Value(true, 1, 1)
      && Overrun(Interface, i, st, Checked(i, st))
      && Decode(Avail(i, st)) == None
  {
    var i: Bytes, st: seq<nat> := [0xC1, 5], [1];
    assert i[1..][..1] == [5] && Avail(i, st) == [0xC1];
    OneElement();
    InterfaceAcceptsAll(List([Str([5])]));
  }

  /** What remains after a list that is over, inside its parent or past it. */
  ghost predicate Behind(i: Bytes, st: seq<nat>, h: Header, i': Bytes, st': seq<nat>) {
    && h.Value? && h.skip <= |i| && h.size <= |i| - h.skip
    && i' == i[h.skip..][h.size..] && st' == Deducted(Spend(st, h.skip), h.size)
  }

  /** When a value is delivered, exactly: the available bytes hold one of the type, or the
      list ahead reaches past its parent and has elements of the type. */
  ghost predicate Exactly(t: Type, i: Bytes, st: seq<nat>, h: Header, d: Option<(Item, Bytes)>,
                          i': Bytes, st': seq<nat>, o: Outcome) {
    && (o.Ok? <==> d.Some? || Overrun(t, i, st, h))
    && (o.Ok? && Overrun(t, i, st, h) ==>
          Behind(i, st, h, i', st') && o.value == List(DecodeAll(i[h.skip..][..h.size]).value))
  }

  /** The limit of the parent wraps around to something out of reach. */
  lemma PastTheParent(i: Bytes, st: seq<nat>, h: Header)
    requires Bounded(i, st) && Passed(i, st, h) && ReachesPast(i, st, h)
    ensures Runaway(i[h.skip..][h.size..], Deducted(Spend(st, h.skip), h.size))
  {
    assert (Last(st) - h.skip - h.size) % TWO64 == Last(st) - h.skip - h.size + TWO64;
  }

  /** A list that has passed Kind fits the available bytes or reaches past its parent. */
  lemma FitsOrReachesPast(i: Bytes, st: seq<nat>, h: Header)
    requires Passed(i, st, h) && IsList(h)
    ensures ReachesPast(i, st, h) <==> h.size > |Avail(i, st)| - h.skip
  {
  }

  lemma DeductedIsSpent(st: seq<nat>, m: nat, n: nat)
    requires st != [] ==> m + n <= Last(st) < TWO64
    ensures Deducted(Spend(st, m), n) == Spend(st, m + n)
  {
    if st != [] {
      assert (Last(st) - m - n) % TWO64 == Last(st) - m - n;
    }
  }

  /** The list ends inside the available bytes. */
  lemma ListInside(i: Bytes, st: seq<nat>, h: Header, d: Option<(Item, Bytes)>, x: Item, i': Bytes, st': seq<nat>)
    requires Bounded(i, st) && Passed(i, st, h) && h.Value? && h.size <= |Avail(i, st)| - h.skip
    requires d == Some((x, Avail(i, st)[h.skip + h.size..])) && Behind(i, st, h, i', st')
    ensures Delivered(i, st, d, i', st', x)
  {
    AvailAfter(i, st, h.skip + h.size);
    DeductedIsSpent(st, h.skip, h.size);
    assert i[h.skip..][h.size..] == i[h.skip + h.size..];
  }

  /** What a list whose elements were decoded to xs comes to. */
  lemma ListAfter(i: Bytes, st: seq<nat>, h: Header, d: Option<(Item, Bytes)>, xs: seq<Item>, i': Bytes, st': seq<nat>)
    requires Bounded(i, st) && !AtEnd(st) && ListAhead(i, st, h, d) && Behind(i, st, h, i', st')
    requires DecodeAll(i[h.skip..][..h.size]) == Some(xs)
    ensures After(i, st, d, i', st', Ok(List(xs)))
    ensures d.Some? <==> !ReachesPast(i, st, h)
  {
    FitsOrReachesPast(i, st, h);
    if ReachesPast(i, st, h) {
      PastTheParent(i, st, h);
    } else {
      ListInside(i, st, h, d, List(xs), i', st');
    }
  }

  /** The same for a list of a type. */
  lemma TypedListAfter(t: Type, i: Bytes, st: seq<nat>, h: Header, d: Option<(Item, Bytes)>, xs: seq<Item>,
                       i': Bytes, st': seq<nat>)
    requires Bounded(i, st) && !AtEnd(st) && ListAhead(i, st, h, d) && Behind(i, st, h, i', st')
    requires TypedList(t, DecodeAll(i[h.skip..][..h.size])) == Some(xs)
    ensures After(i, st, Typed(t, d), i', st', Ok(List(xs)))
    ensures Exactly(t, i, st, h, Typed(t, d), i', st', Ok(List(xs)))
  {
    ListAfter(i, st, h, d, xs, i', st');
  }

  lemma TypedListRefused(t: Type, i: Bytes, st: seq<nat>, h: Header, d: Option<(Item, Bytes)>)
    requires ListAhead(i, st, h, d) && TypedList(t, DecodeAll(i[h.skip..][..h.size])) == None
    ensures Typed(t, d) == None && !Overrun(t, i, st, h)
  {
  }

  lemma OpenedShape(st: seq<nat>, size: nat)
    ensures var o := Opened(st, size); o != [] && Last(o) == size && WithLast(o, 0)[..|o| - 1] == Deducted(st, size)
  {
  }

  lemma OpenedBounded(i: Bytes, st: seq<nat>, h: Header)
    requires Bounded(i, st) && Passed(i, st, h) && h.Value?
    ensures Bounded(i[h.skip..], Opened(Spend(st, h.skip), h.size))
    ensures Bounded(i[h.skip..][h.size..], Deducted(Spend(st, h.skip), h.size))
  {
  }

  // ---------- The elements of a list ----------

  /** The loop over the elements of a list that comes to `all`: either it has read xs of
      them, or the limit is out of reach and there is no such list. i0 is the input at the
      start of the list. */
  ghost predicate Reading(t: Type, all: Option<seq<Item>>, i0: Bytes, size: nat, xs: seq<Item>, i: Bytes, st: seq<nat>)
    requires st != []
  {
    if Runaway(i, st) then all == None
    else
      && Last(st) <= size <= |i0| && i == i0[size - Last(st)..]
      && all == Prepend(xs, ElementsFrom(t, |xs|, i[..Last(st)]))
  }

  lemma ReadingAt(t: Type, all: Option<seq<Item>>, i0: Bytes, size: nat, xs: seq<Item>, i: Bytes, st: seq<nat>,
                  a: Bytes)
    requires st != [] && Last(st) <= size <= |i0| && i == i0[size - Last(st)..] && Last(st) <= |i|
    requires a == i[..Last(st)] && all == Prepend(xs, ElementsFrom(t, |xs|, a))
    ensures Reading(t, all, i0, size, xs, i, st)
  {
  }

  lemma BothPrepended(all: Option<seq<Item>>, xs: seq<Item>, x: Item, r: Option<seq<Item>>, r': Option<seq<Item>>)
    requires all == Prepend(xs, r) && r == Prepend([x], r')
    ensures all == Prepend(xs + [x], r')
  {
    PrependOne(xs, x, r');
  }

  lemma OneMore(t: Type, all: Option<seq<Item>>, xs: seq<Item>, a: Bytes, x: Item, rest: Bytes)
    requires a != [] && Elem(t, |xs|).Some? && Typed(Elem(t, |xs|).value, Decode(a)) == Some((x, rest))
    requires all == Prepend(xs, ElementsFrom(t, |xs|, a))
    ensures all == Prepend(xs + [x], ElementsFrom(t, |xs + [x]|, rest))
  {
    NextElement(t, |xs|, a, x, rest);
    BothPrepended(all, xs, x, ElementsFrom(t, |xs|, a), ElementsFrom(t, |xs + [x]|, rest));
  }

  /** The place in the list after n of its bytes. */
  lemma PlaceAfter(i0: Bytes, size: nat, i: Bytes, st: seq<nat>, n: nat)
    requires st != [] && Last(st) <= |i| && n <= Last(st) <= size <= |i0| && i == i0[size - Last(st)..]
    ensures Avail(i, st) == i[..Last(st)]
    ensures Spend(st, n) != [] && Last(Spend(st, n)) == Last(st) - n
    ensures i[n..] == i0[size - (Last(st) - n)..] && i[n..][..Last(st) - n] == Avail(i, st)[n..]
  {
    var m := Last(st);
    assert i[n..][..m - n] == i[n..m] && i[..m][n..] == i[n..m];
  }

  lemma ElementDelivered(t: Type, all: Option<seq<Item>>, i0: Bytes, size: nat, xs: seq<Item>, i: Bytes, st: seq<nat>,
                         i': Bytes, st': seq<nat>, x: Item)
    requires st != [] && Reading(t, all, i0, size, xs, i, st) && Elem(t, |xs|).Some?
    requires !AtEnd(st) && !Runaway(i, st)
    requires Delivered(i, st, Typed(Elem(t, |xs|).value, Decode(Avail(i, st))), i', st', x)
    ensures st' != [] && Reading(t, all, i0, size, xs + [x], i', st')
  {
    var a, n := Avail(i, st), |i| - |i'|;
    PlaceAfter(i0, size, i, st, n);
    OneMore(t, all, xs, a, x, a[n..]);
    ReadingAt(t, all, i0, size, xs + [x], i', st', a[n..]);
  }

  /** The list cannot go on like this: its next element is none, or of another type, or
      there is one behind the last field of a struct. */
  lemma ElementRefused(t: Type, all: Option<seq<Item>>, i0: Bytes, size: nat, xs: seq<Item>, i: Bytes, st: seq<nat>)
    requires st != [] && Reading(t, all, i0, size, xs, i, st) && Last(st) > 0
    requires Elem(t, |xs|).Some? ==> Typed(Elem(t, |xs|).value, Decode(Avail(i, st))) == None
    ensures all == None
  {
    assert !Runaway(i, st) ==> Avail(i, st) == i[..Last(st)];
  }

  lemma ElementRead(t: Type, all: Option<seq<Item>>, i0: Bytes, size: nat, xs: seq<Item>, i: Bytes, st: seq<nat>,
                    i': Bytes, st': seq<nat>, x: Item)
    requires st != [] && Reading(t, all, i0, size, xs, i, st) && Elem(t, |xs|).Some?
    requires After(i, st, Typed(Elem(t, |xs|).value, Decode(Avail(i, st))), i', st', Ok(x))
    ensures st' != [] && Reading(t, all, i0, size, xs + [x], i', st')
  {
    if !Runaway(i, st) {
      var d := Typed(Elem(t, |xs|).value, Decode(Avail(i, st)));
      if Delivered(i, st, d, i', st', x) {
        ElementDelivered(t, all, i0, size, xs, i, st, i', st', x);
      } else {
        ElementRefused(t, all, i0, size, xs, i, st);
      }
    }
  }

  /** At the start nothing has been read, at the end everything. */
  lemma ReadingStarts(t: Type, i0: Bytes, st: seq<nat>)
    requires st != [] && Last(st) <= |i0|
    ensures Reading(t, ElementsFrom(t, 0, i0[..Last(st)]), i0, Last(st), [], i0, st)
  {
    PrependNone(ElementsFrom(t, 0, i0[..Last(st)]));
  }

  lemma ReadingEnds(t: Type, all: Option<seq<Item>>, i0: Bytes, size: nat, xs: seq<Item>, i: Bytes, st: seq<nat>)
    requires AtEnd(st) && Reading(t, all, i0, size, xs, i, st)
    ensures all == if Required(t) <= |xs| then Some(xs) else None
    ensures size <= |i0| && i == i0[size..]
  {
    assert i[..0] == [] && xs + [] == xs;
  }

  /** The stack differs from st0 in its last entry only. */
  ghost predicate Inside(st: seq<nat>, st0: seq<nat>) {
    |st| == |st0| && st != [] && st[..|st| - 1] == st0[..|st| - 1]
  }

  lemma UsedUp(st: seq<nat>, st0: seq<nat>)
    requires Inside(st, st0) && Last(st) == 0
    ensures st == WithLast(st0, 0)
  {
    assert st == st[..|st| - 1] + [0];
  }

  class Stream {
    var input: Bytes
    var stack: seq<nat>
    /** The header that Kind has read and no one has used yet. */
    var pending: Option<Header>

    ghost predicate Valid()
      reads this
    {
      Bounded(input, stack)
    }

    /** n bytes have been read since the input was i and the stack was st. */
    ghost predicate Moved(i: Bytes, st: seq<nat>, n: nat)
      reads this
    {
      n <= |Avail(i, st)| <= |i| && input == i[n..] && stack == Spend(st, n)
    }

    constructor (data: Bytes)
      requires |data| < TWO63
      ensures Valid() && input == data && stack == [] && pending == None
    {
      input := data;
      stack := [];
      pending := None;
    }

    method WillRead(n: nat) returns (ok: bool)
      modifies this`stack, this`pending
      ensures pending == None
      ensures ok <==> n <= |old(Avail(input, stack))|
      ensures stack == Spend(old(stack), n)
    {
      pending := None;
      if stack != [] {
        if n > Last(stack) {
          return false;
        }
        stack := WithLast(stack, Last(stack) - n);
      }
      ok := n <= |input|;
    }

    /** readFull, and readByte when n is one. */
    method ReadFull(n: nat) returns (b: Option<Bytes>)
      modifies this
      ensures pending == None
      ensures b.Some? <==> n <= |old(Avail(input, stack))|
      ensures b.Some? ==> b.value == old(Avail(input, stack))[..n] && Moved(old(input), old(stack), n)
      ensures b.None? ==> input == old(input)
    {
      var ok := WillRead(n);
      if !ok {
        return None;
      }
      AvailAfter(old(input), old(stack), n);
      b := Some(input[..n]);
      input := input[n..];
    }

    method ReadUint(n: nat) returns (r: Option<nat>)
      requires n > 0
      modifies this
      ensures pending == None
      ensures r == if n > |old(Avail(input, stack))| then None else Rlp.ReadUint(old(Avail(input, stack))[..n])
      ensures r.Some? ==> Moved(old(input), old(stack), n)
    {
      var b := ReadFull(n);
      if b.None? || (n > 1 && b.value[0] == 0) {
        return None;
      }
      return Some(FromBytes(b.value));
    }

    /** The long form: the tag has been read, n bytes of size follow. */
    method ReadLong(n: nat, list: bool, ghost i: Bytes, ghost st: seq<nat>) returns (h: Header)
      requires n > 0 && Moved(i, st, 1)
      modifies this
      ensures pending == None
      ensures h == ReadSize(Avail(i, st), n, list)
      ensures !h.Bad? ==> Moved(i, st, Width(h))
    {
      ghost var a := Avail(i, st);
      AvailAfter(i, st, 1);
      var size := ReadUint(n);
      if 1 + n <= |a| {
        assert a[1..][..n] == a[1..1 + n];
      }
      if size.None? || size.value < 56 {
        return Bad;
      }
      SpendTwice(st, 1, n);
      assert i[1..][n..] == i[1 + n..];
      return Value(list, size.value, 1 + n);
    }

    /** readKind reads the header that the available bytes begin with. */
    method ReadHeader() returns (h: Header)
      modifies this
      ensures pending == None
      ensures h == ReadKind(old(Avail(input, stack)))
      ensures !h.Bad? ==> Moved(old(input), old(stack), Width(h))
    {
      ghost var i, st := input, stack;
      var b := ReadFull(1);
      if b.None? {
        return Bad;
      }
      var tag := b.value[0];
      if tag < 0x80 {
        h := Single(tag);
      } else if tag < 0xB8 {
        h := Value(false, tag - 0x80, 1);
      } else if tag < 0xC0 {
        h := ReadLong(tag - 0xB7, false, i, st);
      } else if tag < 0xF8 {
        h := Value(true, tag - 0xC0, 1);
      } else {
        h := ReadLong(tag - 0xF7, true, i, st);
      }
    }

    method Kind() returns (r: Ahead)
      modifies this
      ensures old(pending.Some?) ==>
        r == Got(old(pending.value)) && pending == old(pending) && input == old(input) && stack == old(stack)
      ensures old(pending.None?) && old(stack != [] && Last(stack) == 0) ==>
        r == EndOfList && pending == None && input == old(input) && stack == old(stack)
      ensures old(pending.None?) && !old(stack != [] && Last(stack) == 0) ==>
        r == Got(old(Checked(input, stack))) && pending == Some(r.header)
      ensures old(pending.None?) && r.Got? && !r.header.Bad? ==> Moved(old(input), old(stack), Width(r.header))
    {
      if pending.Some? {
        return Got(pending.value);
      }
      var inList, limit := stack != [], if stack != [] then Last(stack) else 0;
      if inList && limit == 0 {
        return EndOfList;
      }
      var h := ReadHeader();
      if h.Value? && ((inList && h.size > limit) || h.size > |input|) {
        h := Bad;
      }
      pending := Some(h);
      return Got(h);
    }

    /** List opens the list ahead, whose header Kind may have read already. */
    method OpenList() returns (size: Option<nat>)
      modifies this
      ensures old(pending.Some?) ==>
        && input == old(input) && (size.Some? <==> IsList(old(pending.value)))
        && (size.Some? ==>
              && size.value == old(pending.value).size && pending == None
              && stack == Opened(old(stack), size.value))
        && (size.None? ==> stack == old(stack) && pending == old(pending))
      ensures old(pending.None? && AtEnd(stack)) ==>
        size == None && input == old(input) && stack == old(stack) && pending == None
      ensures old(pending.None? && !AtEnd(stack)) ==> var h := old(Checked(input, stack));
        && (size.Some? <==> IsList(h))
        && (size.Some? ==>
              && size.value == h.size && pending == None && h.skip <= |old(input)|
              && input == old(input)[h.skip..] && stack == Opened(Spend(old(stack), h.skip), h.size))
        && (size.None? ==> pending == Some(h))
    {
      var k := Kind();
      if k.EndOfList? || !k.header.Value? || !k.header.list {
        return None;
      }
      PushLimit(k.header.size);
      return Some(k.header.size);
    }

    /** The size goes off the enclosing limit first, so that it is right after ListEnd. */
    method PushLimit(n: nat)
      modifies this`stack, this`pending
      ensures stack == Opened(old(stack), n) && pending == None
    {
      if stack != [] {
        var limit := Last(stack);
        stack := WithLast(stack, (limit - n) % TWO64);
      }
      stack := stack + [n];
      pending := None;
    }

    method ListEnd() returns (ok: bool)
      modifies this`stack, this`pending
      ensures ok <==> old(AtEnd(stack))
      ensures ok ==> stack == old(stack[..|stack| - 1]) && pending == None
      ensures !ok ==> stack == old(stack) && pending == old(pending)
    {
      if stack == [] || Last(stack) > 0 {
        return false;
      }
      stack := stack[..|stack| - 1];
      pending := None;
      ok := true;
    }

    /** Bytes reads the string ahead, whose header Kind may have read already. */
    method ReadString() returns (b: Option<Bytes>)
      modifies this
      ensures old(pending.Some?) ==>
        && b == StringOf(old(pending.value), old(Avail(input, stack)))
        && (b.Some? ==> Moved(old(input), old(stack), ContentSize(old(pending.value))))
      ensures old(pending.None? && AtEnd(stack)) ==>
        b == None && input == old(input) && stack == old(stack) && pending == None
      ensures old(pending.None? && !AtEnd(stack)) ==>
        var h, a := old(Checked(input, stack)), old(Avail(input, stack));
        && b == (if h.Bad? then None else StringOf(h, a[Width(h)..]))
        && (b.Some? ==> Moved(old(input), old(stack), Width(h) + ContentSize(h)))
      ensures b.Some? ==> pending == None
    {
      ghost var i, st := input, stack;
      var k := Kind();
      if k.EndOfList? || k.header.Bad? {
        return None;
      }
      if old(pending.None?) {
        HeaderFits(Avail(i, st));
        AvailAfter(i, st, Width(k.header));
      }
      b := ReadContent(k.header);
      if old(pending.None?) && b.Some? {
        ReadTwice(i, st, Width(k.header), ContentSize(k.header));
      }
    }

    /** The part of Bytes behind the header. */
    method ReadContent(h: Header) returns (b: Option<Bytes>)
      modifies this
      ensures b == StringOf(h, old(Avail(input, stack)))
      ensures b.Some? ==> pending == None && Moved(old(input), old(stack), ContentSize(h))
    {
      if h.Single? {
        pending := None;
        AvailAfter(input, stack, 0);
        return Some([h.value]);
      }
      if h.Bad? || h.list {
        return None;
      }
      b := ReadFull(h.size);
      if h.size == 1 && b.Some? && b.value[0] < 0x80 {
        return None;
      }
    }

    /** The decoders of strings: Bytes for interface{} and byte slices, and those for
        integers and byte arrays, which look at the length before they read. */
    method DecodeString(t: Type, ghost i: Bytes, ghost st: seq<nat>, ghost d: Option<(Item, Bytes)>)
      returns (o: Outcome)
      requires Bounded(i, st) && !AtEnd(st)
      requires pending.Some? && StringAhead(i, st, pending.value, d) && Moved(i, st, Width(pending.value))
      modifies this
      ensures After(i, st, Typed(t, d), input, stack, o) && !o.EOL?
      ensures o.Ok? <==> Typed(t, d).Some?
      ensures o.Ok? ==> pending == None && Valid()
    {
      ghost var h := pending.value;
      AvailAfter(i, st, Width(h));
      if WrongLength(t, pending.value) {
        WrongLengthRefused(t, i, st, h, d);
        return Failed;
      }
      var b := ReadString();
      if b.None? || !AcceptsString(t, b.value) {
        return Failed;
      }
      StringAfter(i, st, h, d, b.value);
      return Ok(Str(b.value));
    }

    /** decodeSliceElems: elements of one type up to the end of the list. */
    method DecodeElems(t: Type) returns (xs: Option<seq<Item>>)
      requires Valid() && pending == None && stack != [] && Last(stack) <= |input|
      requires IsListType(t) && !t.Struct?
      modifies this
      ensures xs == ElementsFrom(t, 0, old(input[..Last(stack)]))
      ensures xs.Some? ==> pending == None && input == old(input[Last(stack)..]) && stack == WithLast(old(stack), 0)
      decreases |input|, 1
    {
      ghost var i0, st0 := input, stack;
      ghost var all := ElementsFrom(t, 0, i0[..Last(st0)]);
      var out := [];
      ReadingStarts(t, i0, st0);
      while true
        invariant Valid() && pending == None && |input| <= |i0|
        invariant Inside(stack, st0) && Reading(t, all, i0, Last(st0), out, input, stack)
        decreases |input|
      {
        var o := DecodeElement(t, out, all, i0, st0);
        if o.EOL? {
          return Some(out);
        }
        if o.Failed? {
          return None;
        }
        out := out + [o.value];
      }
    }

    /** The field loop of makeStructDecoder: the end of the list is allowed from the first
        optional field on. What follows the last field is left to ListEnd. */
    method DecodeFields(t: Type) returns (xs: Option<seq<Item>>)
      requires Valid() && pending == None && stack != [] && Last(stack) <= |input| && t.Struct?
      modifies this
      ensures var all := ElementsFrom(t, 0, old(input[..Last(stack)]));
        if xs.Some? && AtEnd(stack) then xs == all else all == None
      ensures xs.Some? && AtEnd(stack) ==>
        pending == None && input == old(input[Last(stack)..]) && stack == WithLast(old(stack), 0)
      decreases |input|, 1
    {
      ghost var i0, st0 := input, stack;
      ghost var all := ElementsFrom(t, 0, i0[..Last(st0)]);
      var fields := t.required + t.optional;
      var out := [];
      ReadingStarts(t, i0, st0);
      while |out| < |fields|
        invariant Valid() && pending == None && |input| <= |i0| && |out| <= |fields|
        invariant Inside(stack, st0) && Reading(t, all, i0, Last(st0), out, input, stack)
        decreases |fields| - |out|
      {
        var o := DecodeElement(t, out, all, i0, st0);
        if o.EOL? {
          return if |out| < |t.required| then None else Some(out);
        }
        if o.Failed? {
          return None;
        }
        out := out + [o.value];
      }
      if AtEnd(stack) {
        ReadingEnds(t, all, i0, Last(st0), out, input, stack);
        UsedUp(stack, st0);
      } else {
        ElementRefused(t, all, i0, Last(st0), out, input, stack);
      }
      return Some(out);
    }

    /** One element or field of the open list. */
    method DecodeElement(t: Type, xs: seq<Item>, ghost all: Option<seq<Item>>, ghost i0: Bytes, ghost st0: seq<nat>)
      returns (o: Outcome)
      requires Valid() && pending == None && Inside(stack, st0)
      requires Elem(t, |xs|).Some? && Reading(t, all, i0, Last(st0), xs, input, stack)
      modifies this
      ensures o.EOL? ==>
        && all == (if Required(t) <= |xs| then Some(xs) else None) && Last(st0) <= |i0|
        && pending == None && input == i0[Last(st0)..] && stack == WithLast(st0, 0)
      ensures o.Failed? ==> all == None
      ensures o.Ok? ==>
        && Valid() && pending == None && |input| < |old(input)|
        && Inside(stack, st0) && Reading(t, all, i0, Last(st0), xs + [o.value], input, stack)
      decreases |input|, 0, 1
    {
      ghost var i, st := input, stack;
      o := Decode(Elem(t, |xs|).value);
      match o
      case EOL =>
        ReadingEnds(t, all, i0, Last(st0), xs, i, st);
        UsedUp(st, st0);
      case Failed => ElementRefused(t, all, i0, Last(st0), xs, i, st);
      case Ok(x) => ElementRead(t, all, i0, Last(st0), xs, i, st, input, stack, x);
    }

    /** The decoder for a type: one value. */
    method Decode(t: Type) returns (o: Outcome)
      requires Valid() && pending == None
      modifies this
      ensures After(old(input), old(stack), Typed(t, Rlp.Decode(Avail(old(input), old(stack)))), input, stack, o)
      ensures !o.EOL? ==>
        var i, st := old(input), old(stack);
        var a := Avail(i, st);
        Exactly(t, i, st, ReadKind(a), Typed(t, Rlp.Decode(a)), input, stack, o)
      ensures o.Ok? ==> pending == None && Valid()
      ensures o.EOL? ==> pending == None && input == old(input) && stack == old(stack)
      decreases |input|, 0, 0
    {
      ghost var i, st := input, stack;
      ghost var d := Rlp.Decode(Avail(i, st));
      var k := Kind();
      if k.EndOfList? {
        return EOL;
      }
      HeaderIsAhead(i, st, k.header);
      ReachesPastIsPassed(i, st);
      if k.header.Bad? {
        return Failed;
      }
      o := DecodeBehind(t, i, st, d);
    }

    /** The decoder once Kind has read a header. */
    method DecodeBehind(t: Type, ghost i: Bytes, ghost st: seq<nat>, ghost d: Option<(Item, Bytes)>)
      returns (o: Outcome)
      requires Bounded(i, st) && !AtEnd(st)
      requires pending.Some? && !pending.value.Bad? && HeaderAhead(i, st, pending.value, d)
      requires Moved(i, st, Width(pending.value))
      modifies this
      ensures After(i, st, Typed(t, d), input, stack, o) && !o.EOL?
      ensures Exactly(t, i, st, old(pending.value), Typed(t, d), input, stack, o)
      ensures o.Ok? ==> pending == None && Valid()
      decreases |input|, 3
    {
      var h := pending.value;
      if h.Value? && h.list {
        if IsListType(t) {
          o := DecodeList(t, i, st, d);
        } else {
          ListTypeNeeded(t, i, st, h, d);
          o := Failed;
        }
      } else {
        o := DecodeString(t, i, st, d);
      }
    }

    /** decodeListSlice and the decoder of a struct: open, read, close. */
    method DecodeList(t: Type, ghost i: Bytes, ghost st: seq<nat>, ghost d: Option<(Item, Bytes)>) returns (o: Outcome)
      requires Bounded(i, st) && !AtEnd(st) && IsListType(t)
      requires pending.Some? && ListAhead(i, st, pending.value, d) && Moved(i, st, pending.value.skip)
      modifies this
      ensures After(i, st, Typed(t, d), input, stack, o) && !o.EOL?
      ensures Exactly(t, i, st, old(pending.value), Typed(t, d), input, stack, o)
      ensures o.Ok? ==> pending == None && Valid()
      decreases |input|, 2
    {
      ghost var h, st1 := pending.value, stack;
      OpenedBounded(i, st, h);
      OpenedShape(st1, h.size);
      ElementsExact(t, i[h.skip..][..h.size]);
      var size := OpenList();
      var xs: Option<seq<Item>>;
      if t.Struct? {
        xs := DecodeFields(t);
      } else {
        xs := DecodeElems(t);
      }
      if xs.None? {
        TypedListRefused(t, i, st, h, d);
        return Failed;
      }
      var ok := ListEnd();
      if !ok {
        TypedListRefused(t, i, st, h, d);
        return Failed;
      }
      TypedListAfter(t, i, st, h, d, xs.value, input, stack);
      return Ok(List(xs.value));
    }
  }

  // ---------- A whole input ----------

  /** A stream over the input decodes the value the input begins with, if the type accepts
      it, and stops behind it. */
  method DecodeFront(t: Type, data: Bytes) returns (r: Option<(Item, Bytes)>)
    requires |data| < TWO63
    ensures r == Typed(t, Decode(data))
  {
    var s := new Stream(data);
    var o := s.Decode(t);
    return if o.Ok? then Some((o.value, s.input)) else None;
  }

  /** The three bytes C1 C1 05, decoded by hand: the outer list holds one byte, and the value
      in it is delivered although its content lies behind that byte. */
  method DecodeOverrun() returns (o: Outcome)
    ensures o == Ok(List([Str([5])]))
  {
    var data: Bytes := [0xC1, 0xC1, 5];
    var s := new Stream(data);
    assert Checked(data, []) == Value(true, 1, 1) && data[1..] == [0xC1, 5];
    var size := s.OpenList();
    assert s.stack == [1];
    OverrunExists();
    o := s.Decode(Interface);
    assert [0xC1, 5][1..][..1] == [5];
    OneElement();
  }

  /** DecodeBytes inverts the encoding on the values of the type and refuses everything else. */
  method DecodeBytes(t: Type, data: Bytes) returns (r: Option<Item>)
    requires |data| < TWO63
    ensures r.Some? ==> Fits(r.value) && Accepts(t, r.value) && data == Encode(r.value)
    ensures r.None? ==> forall x :: Fits(x) && Accepts(t, x) ==> data != Encode(x)
  {
    var front := DecodeFront(t, data);
    forall x ensures Decode(data) == Some((x, [])) <==> Fits(x) && data == Encode(x) {
      DecodesExactly(data, x, []);
      assert Encode(x) + [] == Encode(x);
    }
    if front.None? || |front.value.1| > 0 {
      return None;
    }
    return Some(front.value.0);
  }
}

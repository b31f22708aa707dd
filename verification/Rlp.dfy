/** The RLP encoding of package rlp: what the encoder writes for a value and what the
    stream decoder accepts. */
module Rlp {
  import opened BigEndian
  import opened Integers
  import opened Options

  /** A value as the encoding sees it: a byte string or a list. */
  datatype Item = Str(bytes: Bytes) | List(items: seq<Item>)

  const STRING: Byte := 0x80
  const LIST: Byte := 0xC0

  // ---------- Encoding ----------

  /** puthead: the header of a string or list with that many bytes behind it. A size that
      takes more than eight bytes has no header; no such value exists in memory. */
  function Head(tag: Byte, size: nat): Bytes
    requires tag <= LIST
  {
    if size < 56 then [tag + size]
    else
      var n := ToBytes(size);
      if |n| <= 8 then [tag + 0x37 + |n|] + n else []
  }

  function Encode(x: Item): Bytes {
    match x
    case Str(b) => if |b| == 1 && b[0] <= 0x7F then b else Head(STRING, |b|) + b
    case List(items) => var p := EncodeAll(items); Head(LIST, |p|) + p
  }

  function EncodeAll(xs: seq<Item>): Bytes {
    if xs == [] then [] else Encode(xs[0]) + EncodeAll(xs[1..])
  }

  /** Every size in the encoding is a uint64. */
  predicate Fits(x: Item) {
    match x
    case Str(b) => IsUint64(|b|)
    case List(items) => IsUint64(|EncodeAll(items)|) && FitsAll(items)
  }

  predicate FitsAll(xs: seq<Item>) {
    xs == [] || (Fits(xs[0]) && FitsAll(xs[1..]))
  }

  lemma {:induction false} EncodeAllNext(xs: seq<Item>, k: nat)
    requires k < |xs|
    ensures EncodeAll(xs[..k + 1]) == EncodeAll(xs[..k]) + Encode(xs[k])
    decreases k
  {
    if k == 0 {
      assert xs[..1] == [xs[0]] && [xs[0]][1..] == [];
    } else {
      EncodeAllNext(xs[1..], k - 1);
      assert xs[..k + 1][1..] == xs[1..][..k] && xs[..k][1..] == xs[1..][..k - 1];
    }
  }

  lemma {:induction false} FitsAt(xs: seq<Item>, k: nat)
    requires FitsAll(xs) && k < |xs|
    ensures Fits(xs[k])
    decreases k
  {
    if k > 0 {
      FitsAt(xs[1..], k - 1);
    }
  }

  // ---------- Decoding ----------

  /** What readKind finds: an error, a byte that is its own encoding, or a header of `skip`
      bytes announcing `size` bytes of content. */
  datatype Header = Bad | Single(value: Byte) | Value(list: bool, size: nat, skip: nat)

  /** readUint: a leading zero is refused when there is more than one byte. */
  function ReadUint(b: Bytes): Option<nat>
    requires b != []
  {
    if |b| > 1 && b[0] == 0 then None else Some(FromBytes(b))
  }

  /** The long form of a header, with n bytes of size behind the tag. */
  function ReadSize(b: Bytes, n: nat, list: bool): (h: Header)
    requires 1 <= n
    ensures h.Value? ==> 1 <= h.skip <= |b|
    ensures !h.Single?
  {
    if |b| < 1 + n then Bad
    else
      match ReadUint(b[1..1 + n])
      case None => Bad
      case Some(size) => if size < 56 then Bad else Value(list, size, 1 + n)
  }

  function ReadKind(b: Bytes): (h: Header)
    ensures h.Value? ==> 1 <= h.skip <= |b|
    ensures h.Single? ==> b != []
  {
    if b == [] then Bad
    else if b[0] < 0x80 then Single(b[0])
    else if b[0] < 0xB8 then Value(false, b[0] - 0x80, 1)
    else if b[0] < 0xC0 then ReadSize(b, b[0] - 0xB7, false)
    else if b[0] < 0xF8 then Value(true, b[0] - 0xC0, 1)
    else ReadSize(b, b[0] - 0xF7, true)
  }

  /** One value off the front of the input, and what is left of it. */
  function Decode(b: Bytes): (r: Option<(Item, Bytes)>)
    ensures r.Some? ==> |r.value.1| < |b| && r.value.1 == b[|b| - |r.value.1|..]
    decreases |b|, 0
  {
    match ReadKind(b)
    case Bad => None
    case Single(v) => Some((Str([v]), b[1..]))
    case Value(list, size, skip) =>
      if |b| - skip < size then None
      else DecodeBody(b[skip..skip + size], b[skip + size..], list)
  }

  function DecodeBody(body: Bytes, rest: Bytes, list: bool): (r: Option<(Item, Bytes)>)
    ensures r.Some? ==> r.value.1 == rest
    decreases |body|, 2
  {
    if list then
      match DecodeAll(body)
      case None => None
      case Some(xs) => Some((List(xs), rest))
    else if |body| == 1 && body[0] < 0x80 then None
    else Some((Str(body), rest))
  }

  /** The values of a list, up to its end. */
  function DecodeAll(p: Bytes): Option<seq<Item>>
    decreases |p|, 1
  {
    if p == [] then Some([])
    else
      match Decode(p)
      case None => None
      case Some((x, rest)) =>
        match DecodeAll(rest)
        case None => None
        case Some(xs) => Some([x] + xs)
  }

  // ---------- Headers ----------

  lemma HeadShape(tag: Byte, size: nat)
    requires tag <= LIST && IsUint64(size)
    ensures |Head(tag, size)| == if size < 56 then 1 else 1 + |ToBytes(size)|
    ensures Head(tag, size)[0] == if size < 56 then tag + size else tag + 0x37 + |ToBytes(size)|
    ensures size >= 56 ==> 1 <= |ToBytes(size)| <= 8 && Head(tag, size)[1..] == ToBytes(size)
  {
    EightBytes(size);
    NoLeadingZero(size);
  }

  /** The decoder reads back every header the encoder writes. */
  lemma HeadIsRead(tag: Byte, size: nat, rest: Bytes)
    requires tag == STRING || tag == LIST
    requires IsUint64(size)
    ensures ReadKind(Head(tag, size) + rest) == Value(tag == LIST, size, |Head(tag, size)|)
  {
    HeadShape(tag, size);
    var b := Head(tag, size) + rest;
    assert b[0] == Head(tag, size)[0];
    if size >= 56 {
      var n := |ToBytes(size)|;
      assert b[1..1 + n] == ToBytes(size);
      FromOfTo(size);
      NoLeadingZero(size);
    }
  }

  lemma {:induction false} Positive(b: Bytes)
    requires b != [] && b[0] != 0
    ensures FromBytes(b) > 0
  {
    if |b| > 1 {
      Positive(b[..|b| - 1]);
    } else {
      assert b[..0] == [];
    }
  }

  /** Size bytes without a leading zero are the shortest ones. */
  lemma {:induction false} Shortest(b: Bytes)
    requires b == [] || b[0] != 0
    ensures ToBytes(FromBytes(b)) == b
  {
    if |b| > 0 {
      var n := |b| - 1;
      Shortest(b[..n]);
      if n > 0 {
        Positive(b[..n]);
      }
      assert FromBytes(b) / 256 == FromBytes(b[..n]) && FromBytes(b) % 256 == b[n];
      assert b == b[..n] + [b[n]];
    }
  }

  lemma OneByte(b: Bytes)
    requires |b| == 1
    ensures FromBytes(b) == b[0]
  {
    assert FromBytes(b[..0]) == 0;
  }

  lemma LongHeadIsCanonical(b: Bytes, n: nat, tag: Byte)
    requires tag == STRING || tag == LIST
    requires 1 <= n <= 8 && b != [] && b[0] == tag + 0x37 + n
    requires ReadSize(b, n, tag == LIST).Value?
    ensures var h := ReadSize(b, n, tag == LIST); IsUint64(h.size) && b[..h.skip] == Head(tag, h.size)
  {
    var s := b[1..1 + n];
    var size := FromBytes(s);
    if n == 1 {
      OneByte(s);
    }
    Shortest(s);
    EightBytes(size);
    assert b[..1 + n] == [b[0]] + s;
  }

  /** A header the decoder accepts is the one the encoder would write. */
  lemma HeadIsCanonical(b: Bytes)
    requires ReadKind(b).Value?
    ensures var h := ReadKind(b);
      IsUint64(h.size) && b[..h.skip] == Head(if h.list then LIST else STRING, h.size)
  {
    if 0xB8 <= b[0] < 0xC0 {
      LongHeadIsCanonical(b, b[0] - 0xB7, STRING);
    } else if b[0] >= 0xF8 {
      LongHeadIsCanonical(b, b[0] - 0xF7, LIST);
    }
  }

  // ---------- Round trip ----------

  lemma BodyIsRead(tag: Byte, body: Bytes, rest: Bytes)
    requires tag == STRING || tag == LIST
    requires IsUint64(|body|)
    ensures Decode(Head(tag, |body|) + body + rest) == DecodeBody(body, rest, tag == LIST)
  {
    var h := Head(tag, |body|);
    var b := h + body + rest;
    assert b == h + (body + rest);
    HeadIsRead(tag, |body|, body + rest);
    assert b[|h|..|h| + |body|] == body && b[|h| + |body|..] == rest;
  }

  /** Decoding gives back the encoded value and leaves what follows it. */
  lemma {:induction false} DecodeOfEncode(x: Item, rest: Bytes)
    requires Fits(x)
    ensures Decode(Encode(x) + rest) == Some((x, rest))
    decreases x
  {
    match x
    case Str(b) =>
      if |b| == 1 && b[0] <= 0x7F {
        assert (b + rest)[1..] == rest && b == [b[0]];
      } else {
        BodyIsRead(STRING, b, rest);
      }
    case List(items) =>
      BodyIsRead(LIST, EncodeAll(items), rest);
      DecodeOfEncodeAll(items);
  }

  lemma {:induction false} DecodeOfEncodeAll(xs: seq<Item>)
    requires FitsAll(xs)
    ensures DecodeAll(EncodeAll(xs)) == Some(xs)
    decreases xs
  {
    if xs != [] {
      DecodeOfEncode(xs[0], EncodeAll(xs[1..]));
      DecodeOfEncodeAll(xs[1..]);
      assert xs == [xs[0]] + xs[1..];
    }
  }

  lemma InThree(b: Bytes, m: nat, n: nat)
    requires m + n <= |b|
    ensures b == b[..m] + b[m..m + n] + b[m + n..] && |b[m..m + n]| == n
  {
  }

  /** The decoder accepts nothing but what the encoder writes. */
  lemma {:induction false} DecodeIsCanonical(b: Bytes)
    requires Decode(b).Some?
    ensures var (x, rest) := Decode(b).value; Fits(x) && b == Encode(x) + rest
    decreases |b|, 0
  {
    match ReadKind(b)
    case Single(v) =>
      assert b == [v] + b[1..];
    case Value(list, size, skip) =>
      var body, rest := b[skip..skip + size], b[skip + size..];
      HeadIsCanonical(b);
      InThree(b, skip, size);
      if list {
        AllIsCanonical(body);
      }
  }

  lemma {:induction false} AllIsCanonical(p: Bytes)
    requires DecodeAll(p).Some?
    ensures FitsAll(DecodeAll(p).value) && p == EncodeAll(DecodeAll(p).value)
    decreases |p|, 1
  {
    if p != [] {
      DecodeIsCanonical(p);
      var (x, rest) := Decode(p).value;
      AllIsCanonical(rest);
      var xs := DecodeAll(rest).value;
      assert ([x] + xs)[1..] == xs;
    }
  }

  /** Each byte string decodes to at most one value, and each value that fits has exactly
      one encoding: the two directions together. */
  lemma DecodesExactly(b: Bytes, x: Item, rest: Bytes)
    ensures Decode(b) == Some((x, rest)) <==> Fits(x) && b == Encode(x) + rest
  {
    if Decode(b).Some? {
      DecodeIsCanonical(b);
    }
    if Fits(x) {
      DecodeOfEncode(x, rest);
    }
  }

  /** No encoding is a proper prefix of another, so values can be laid end to end. */
  lemma PrefixFree(x: Item, y: Item, tail: Bytes)
    requires Fits(x) && Fits(y) && Encode(x) + tail == Encode(y)
    ensures x == y && tail == []
  {
    DecodeOfEncode(x, tail);
    DecodeOfEncode(y, []);
    assert Encode(y) + [] == Encode(y);
  }
}

/** The encoder buffer of rlp/encbuffer.go.

    A list header holds the size of what follows, which is not known when the list begins.
    The buffer therefore keeps the headers apart from the string data, each with its place
    in that data, and puts them in when the output is made.
 */
module RlpEncBuffer {
  import opened BigEndian
  import opened Integers
  import opened Rlp

  /** While its list is open, `size` holds the header bytes counted before it. */
  datatype ListHead = ListHead(offset: nat, size: nat)

  /** The fields of the buffer. */
  datatype State = State(str: Bytes, lheads: seq<ListHead>, lhsize: nat)

  // ---------- The output ----------

  /** The heads come in the order of their places, between lo and hi. */
  ghost predicate Ordered(heads: seq<ListHead>, lo: nat, hi: nat) {
    if heads == [] then lo <= hi
    else lo <= heads[0].offset <= hi && Ordered(heads[1..], heads[0].offset, hi)
  }

  lemma {:induction false} OrderedInside(heads: seq<ListHead>, lo: nat, hi: nat)
    requires Ordered(heads, lo, hi)
    ensures lo <= hi
    decreases |heads|
  {
    if heads != [] {
      OrderedInside(heads[1..], heads[0].offset, hi);
    }
  }

  /** The string data from pos on, with the headers in their places. */
  ghost function Render(str: Bytes, heads: seq<ListHead>, pos: nat): Bytes
    requires Ordered(heads, pos, |str|)
    decreases |heads|
  {
    if heads == [] then str[pos..]
    else
      OrderedInside(heads, pos, |str|);
      str[pos..heads[0].offset] + Head(LIST, heads[0].size) + Render(str, heads[1..], heads[0].offset)
  }

  ghost function HeadBytes(heads: seq<ListHead>): nat {
    if heads == [] then 0 else |Head(LIST, heads[0].size)| + HeadBytes(heads[1..])
  }

  /** The counter lhsize is what makes the size of the output known in advance. */
  lemma {:induction false} RenderLength(str: Bytes, heads: seq<ListHead>, pos: nat)
    requires Ordered(heads, pos, |str|)
    ensures pos <= |str| && |Render(str, heads, pos)| == |str| - pos + HeadBytes(heads)
    decreases |heads|
  {
    OrderedInside(heads, pos, |str|);
    if heads != [] {
      RenderLength(str, heads[1..], heads[0].offset);
    }
  }

  lemma {:induction false} HeadBytesConcat(a: seq<ListHead>, b: seq<ListHead>)
    ensures HeadBytes(a + b) == HeadBytes(a) + HeadBytes(b)
    decreases |a|
  {
    if a == [] {
      assert a + b == b;
    } else {
      HeadBytesConcat(a[1..], b);
      assert (a + b)[1..] == a[1..] + b;
    }
  }

  lemma OrderedLower(heads: seq<ListHead>, lo: nat, mid: nat, hi: nat)
    requires lo <= mid && Ordered(heads, mid, hi)
    ensures Ordered(heads, lo, hi)
  {
  }

  lemma {:induction false} OrderedConcat(a: seq<ListHead>, b: seq<ListHead>, lo: nat, mid: nat, hi: nat)
    requires Ordered(a, lo, mid) && Ordered(b, mid, hi)
    ensures Ordered(a + b, lo, hi)
    decreases |a|
  {
    OrderedInside(b, mid, hi);
    if a == [] {
      assert a + b == b;
      OrderedLower(b, lo, mid, hi);
    } else {
      OrderedConcat(a[1..], b, a[0].offset, mid, hi);
      OrderedInside(a[1..], a[0].offset, mid);
      assert (a + b)[1..] == a[1..] + b;
    }
  }

  lemma Regroup(a: Bytes, b: Bytes, c: Bytes, d: Bytes)
    ensures a + b + c + d == a + (b + c + d)
  {
  }

  lemma RenderLower(str: Bytes, heads: seq<ListHead>, lo: nat, mid: nat)
    requires lo <= mid <= |str| && Ordered(heads, mid, |str|)
    ensures Ordered(heads, lo, |str|)
    ensures Render(str, heads, lo) == str[lo..mid] + Render(str, heads, mid)
  {
    if heads == [] {
      assert str[lo..] == str[lo..mid] + str[mid..];
    } else {
      var at := heads[0].offset;
      OrderedInside(heads[1..], at, |str|);
      assert str[lo..at] == str[lo..mid] + str[mid..at];
      Regroup(str[lo..mid], str[mid..at], Head(LIST, heads[0].size), Render(str, heads[1..], at));
    }
  }

  lemma Regroup'(a: Bytes, b: Bytes, c: Bytes, d: Bytes)
    ensures a + b + (c + d) == a + b + c + d
  {
  }

  /** The output of two stretches is the output of the one, then of the other. */
  lemma {:induction false} RenderConcat(str: Bytes, more: Bytes, a: seq<ListHead>, b: seq<ListHead>, pos: nat)
    requires Ordered(a, pos, |str|) && Ordered(b, |str|, |str + more|)
    ensures Ordered(a + b, pos, |str + more|)
    ensures Render(str + more, a + b, pos) == Render(str, a, pos) + Render(str + more, b, |str|)
    decreases |a|
  {
    OrderedConcat(a, b, pos, |str|, |str + more|);
    OrderedInside(a, pos, |str|);
    if a == [] {
      assert a + b == b;
      RenderLower(str + more, b, pos, |str|);
      assert (str + more)[pos..|str|] == str[pos..];
    } else {
      OrderedInside(a[1..], a[0].offset, |str|);
      RenderConcat(str, more, a[1..], b, a[0].offset);
      assert (a + b)[1..] == a[1..] + b;
      assert (str + more)[pos..a[0].offset] == str[pos..a[0].offset];
      Regroup'(str[pos..a[0].offset], Head(LIST, a[0].size), Render(str, a[1..], a[0].offset),
               Render(str + more, b, |str|));
    }
  }

  /** One turn of copyTo: the string data before a header, then the header. */
  lemma RenderNext(str: Bytes, heads: seq<ListHead>, i: nat, pos: nat, done: Bytes)
    requires i < |heads| && Ordered(heads[i..], pos, |str|)
    ensures var at := heads[i].offset; pos <= at <= |str| && Ordered(heads[i + 1..], at, |str|)
    ensures var at := heads[i].offset; var enc := Head(LIST, heads[i].size);
      && done + Render(str, heads[i..], pos) == done + str[pos..at] + enc + Render(str, heads[i + 1..], at)
      && |done| + |str[pos..at]| + |enc| <= |done + Render(str, heads[i..], pos)|
  {
    var at := heads[i].offset;
    assert heads[i..][1..] == heads[i + 1..];
    Regroup(done, str[pos..at], Head(LIST, heads[i].size), Render(str, heads[i + 1..], at));
  }

  // ---------- Writing ----------

  /** Between s and t the bytes `out` have been added to the output, and nothing written
      before has changed. */
  ghost predicate Adds(s: State, t: State, out: Bytes) {
    && s.str <= t.str && s.lheads <= t.lheads
    && var heads := t.lheads[|s.lheads|..];
       && Ordered(heads, |s.str|, |t.str|)
       && Render(t.str, heads, |s.str|) == out
       && t.lhsize == s.lhsize + HeadBytes(heads)
  }

  lemma AddsNothing(s: State)
    ensures Adds(s, s, [])
  {
  }

  lemma AddsBytes(s: State, b: Bytes)
    ensures Adds(s, s.(str := s.str + b), b)
  {
    var t := s.(str := s.str + b);
    assert t.lheads[|s.lheads|..] == [] && t.str[|s.str|..] == b;
  }

  lemma AddsBoth(s: State, t: State, u: State, a: Bytes, b: Bytes)
    requires Adds(s, t, a) && Adds(t, u, b)
    ensures Adds(s, u, a + b)
  {
    var first, second := t.lheads[|s.lheads|..], u.lheads[|t.lheads|..];
    assert u.lheads[|s.lheads|..] == first + second;
    var more := u.str[|t.str|..];
    assert u.str == t.str + more;
    RenderConcat(t.str, more, first, second, |s.str|);
    HeadBytesConcat(first, second);
  }

  function Begun(s: State): State {
    s.(lheads := s.lheads + [ListHead(|s.str|, s.lhsize)])
  }

  function HeadSize(size: nat): nat {
    if size < 56 then 1 else 1 + |ToBytes(size)|
  }

  function Ended(t: State, index: nat): State
    requires index < |t.lheads|
    requires var lh := t.lheads[index]; lh.offset + lh.size <= |t.str| + t.lhsize
  {
    var lh := t.lheads[index];
    var size := |t.str| + t.lhsize - lh.offset - lh.size;
    t.(lheads := t.lheads[index := lh.(size := size)], lhsize := t.lhsize + HeadSize(size))
  }

  /** What was written between list and listEnd becomes the content of a list: the size
      that listEnd computes from the counters is the length of that content. */
  lemma EndAdds(s: State, t: State, out: Bytes)
    requires Adds(Begun(s), t, out) && IsUint64(|out|)
    ensures |s.lheads| < |t.lheads| && t.lheads[|s.lheads|] == ListHead(|s.str|, s.lhsize)
    ensures |s.str| + s.lhsize <= |t.str| + t.lhsize
    ensures Adds(s, Ended(t, |s.lheads|), Head(LIST, |out|) + out)
  {
    var n := |s.lheads|;
    var heads := t.lheads[n + 1..];
    assert Begun(s).lheads[n] == t.lheads[n];
    RenderLength(t.str, heads, |s.str|);
    var u := Ended(t, n);
    var lh := ListHead(|s.str|, |out|);
    assert u.lheads[n..] == [lh] + heads;
    assert u.lheads[..n] == t.lheads[..n] == s.lheads;
    HeadShape(LIST, |out|);
    assert t.str[|s.str|..|s.str|] == [];
  }

  method Put(dst: array<Byte>, pos: nat, b: Bytes)
    requires pos + |b| <= dst.Length
    modifies dst
    ensures dst[..pos + |b|] == old(dst[..pos]) + b
  {
    forall k | 0 <= k < |b| {
      dst[pos + k] := b[k];
    }
  }

  method PutBoth(dst: array<Byte>, pos: nat, part: Bytes, enc: Bytes)
    requires pos + |part| + |enc| <= dst.Length
    modifies dst
    ensures dst[..pos + |part| + |enc|] == old(dst[..pos]) + part + enc
  {
    Put(dst, pos, part);
    Put(dst, pos + |part|, enc);
  }

  method FillBytes(i: nat, length: nat) returns (b: Bytes)
    requires length == |ToBytes(i)|
    ensures b == ToBytes(i)
  {
    var buf := new Byte[length];
    var index, d := length, i;
    while index > 0
      invariant index <= length && |ToBytes(d)| == index
      invariant ToBytes(d) + buf[index..] == ToBytes(i)
    {
      index := index - 1;
      buf[index] := d % 256;
      d := d / 256;
    }
    return buf[..];
  }

  lemma NotShort(i: nat)
    requires i >= 128
    ensures |ToBytes(i)| == 1 ==> ToBytes(i)[0] > 0x7F
  {
    if i < 256 {
      assert ToBytes(i / 256) == [];
    } else {
      NoLeadingZero(i / 256);
    }
  }

  /** The three forms of an integer are the string encoding of its shortest bytes. */
  lemma UintEncoding(i: nat)
    requires IsUint64(i)
    ensures |ToBytes(i)| <= 8
    ensures Encode(Str(ToBytes(i))) ==
      if i == 0 then [0x80] else if i < 128 then [i] else [0x80 + |ToBytes(i)|] + ToBytes(i)
  {
    EightBytes(i);
    if 0 < i < 128 {
      assert ToBytes(i / 256) == [] && ToBytes(i) == [i];
    } else if i >= 128 {
      NotShort(i);
    }
  }

  class EncBuffer {
    var str: Bytes
    var lheads: seq<ListHead>
    var lhsize: nat

    ghost function Now(): State
      reads this
    {
      State(str, lheads, lhsize)
    }

    /** getEncBuffer: a buffer after reset. */
    constructor ()
      ensures Now() == State([], [], 0)
    {
      str, lheads, lhsize := [], [], 0;
    }

    method EncodeStringHeader(size: nat)
      requires IsUint64(size)
      modifies this
      ensures Adds(old(Now()), Now(), Head(STRING, size))
    {
      AddsBytes(Now(), Head(STRING, size));
      EightBytes(size);
      if size < 56 {
        str := str + [STRING + size];
      } else {
        var n := ToBytes(size);
        str := str + ([0xB7 + |n|] + n);
      }
    }

    method WriteBytes(b: Bytes)
      requires IsUint64(|b|)
      modifies this
      ensures Adds(old(Now()), Now(), Encode(Str(b)))
    {
      if |b| == 1 && b[0] <= 0x7F {
        AddsBytes(Now(), b);
        str := str + b;
      } else {
        ghost var s := Now();
        EncodeStringHeader(|b|);
        ghost var t := Now();
        AddsBytes(t, b);
        str := str + b;
        AddsBoth(s, t, Now(), Head(STRING, |b|), b);
      }
    }

    /** writeUint64; putint writes the shortest big-endian form. */
    method WriteUint64(i: nat)
      requires IsUint64(i)
      modifies this
      ensures Adds(old(Now()), Now(), Encode(Str(ToBytes(i))))
    {
      AddsBytes(Now(), Encode(Str(ToBytes(i))));
      UintEncoding(i);
      if i == 0 {
        str := str + [0x80];
      } else if i < 128 {
        str := str + [i];
      } else {
        var s := ToBytes(i);
        str := str + ([0x80 + |s|] + s);
      }
    }

    method BeginList() returns (index: nat)
      modifies this
      ensures Now() == Begun(old(Now())) && index == old(|lheads|)
    {
      lheads := lheads + [ListHead(|str|, lhsize)];
      return |lheads| - 1;
    }

    method EndList(index: nat)
      requires index < |lheads|
      requires lheads[index].offset + lheads[index].size <= |str| + lhsize
      modifies this
      ensures Now() == Ended(old(Now()), index)
    {
      var lh := lheads[index];
      var size := |str| + lhsize - lh.offset - lh.size;
      lheads := lheads[index := lh.(size := size)];
      if size < 56 {
        lhsize := lhsize + 1;
      } else {
        lhsize := lhsize + 1 + |ToBytes(size)|;
      }
    }

    /** The writers of strings and slices, on any value. */
    method Write(x: Item)
      requires Fits(x)
      modifies this
      ensures Adds(old(Now()), Now(), Encode(x))
      decreases x
    {
      match x
      case Str(b) => WriteBytes(b);
      case List(items) =>
        if |items| == 0 {
          AddsBytes(Now(), [0xC0]);
          str := str + [0xC0];
        } else {
          ghost var s := Now();
          var index := BeginList();
          WriteElements(items);
          EndAdds(s, Now(), EncodeAll(items));
          EndList(index);
        }
    }

    method WriteElements(items: seq<Item>)
      requires FitsAll(items)
      modifies this
      ensures Adds(old(Now()), Now(), EncodeAll(items))
      decreases items, 0
    {
      ghost var s := Now();
      AddsNothing(s);
      for i := 0 to |items|
        invariant Adds(s, Now(), EncodeAll(items[..i]))
      {
        ghost var t := Now();
        FitsAt(items, i);
        Write(items[i]);
        AddsBoth(s, t, Now(), EncodeAll(items[..i]), Encode(items[i]));
        EncodeAllNext(items, i);
      }
      assert items[..|items|] == items;
    }

    /** writeBigInt: small integers go through WriteUint64, the others are filled in from
        the last byte back. */
    method WriteBigInt(i: nat)
      requires IsUint64(|ToBytes(i)|)
      modifies this
      ensures Adds(old(Now()), Now(), Encode(Str(ToBytes(i))))
    {
      EightBytes(i);
      var length := |ToBytes(i)|;
      if length <= 8 {
        WriteUint64(i);
      } else {
        ghost var s := Now();
        EncodeStringHeader(length);
        ghost var t := Now();
        var b := FillBytes(i, length);
        AddsBytes(t, b);
        str := str + b;
        AddsBoth(s, t, Now(), Head(STRING, length), b);
      }
    }

    /** copyTo: string data and headers in turn. */
    method CopyTo(dst: array<Byte>)
      requires Ordered(lheads, 0, |str|) && dst.Length == |Render(str, lheads, 0)|
      modifies dst
      ensures dst[..] == Render(str, lheads, 0)
    {
      var strpos: nat, pos: nat := 0, 0;
      for i := 0 to |lheads|
        invariant pos <= dst.Length && Ordered(lheads[i..], strpos, |str|)
        invariant dst[..pos] + Render(str, lheads[i..], strpos) == Render(str, lheads, 0)
      {
        var head := lheads[i];
        RenderNext(str, lheads, i, strpos, dst[..pos]);
        var part, enc := str[strpos..head.offset], Head(LIST, head.size);
        PutBoth(dst, pos, part, enc);
        pos := pos + |part| + |enc|;
        strpos := head.offset;
      }
      OrderedInside(lheads[|lheads|..], strpos, |str|);
      assert |dst[..pos]| + |str[strpos..]| == dst.Length;
      Put(dst, pos, str[strpos..]);
    }

    /** makeBytes: the counters give the size of the output. */
    method MakeBytes() returns (out: Bytes)
      requires Ordered(lheads, 0, |str|) && lhsize == HeadBytes(lheads)
      ensures out == Render(str, lheads, 0)
    {
      RenderLength(str, lheads, 0);
      var dst := new Byte[|str| + lhsize];
      CopyTo(dst);
      return dst[..];
    }
  }

  /** EncodeToBytes: the two-part buffer gives the recursive encoding. */
  method EncodeToBytes(x: Item) returns (out: Bytes)
    requires Fits(x)
    ensures out == Encode(x)
  {
    var buf := new EncBuffer();
    buf.Write(x);
    assert buf.lheads[0..] == buf.lheads;
    out := buf.MakeBytes();
  }
}

/** Big-endian integers and fixed-width byte arrays (common/types.go and math/big). */
module BigEndian {
  import opened Integers

  type Bytes = seq<Byte>

  /** big.Int.SetBytes */
  function FromBytes(b: Bytes): nat {
    if b == [] then 0 else FromBytes(b[..|b| - 1]) * 256 + b[|b| - 1]
  }

  /** big.Int.Bytes: no leading zeros, nothing for zero. */
  function ToBytes(n: nat): Bytes {
    if n == 0 then [] else ToBytes(n / 256) + [n % 256]
  }

  function Pow256(k: nat): (p: nat)
    ensures p > 0
  {
    if k == 0 then 1 else 256 * Pow256(k - 1)
  }

  function Zeros(k: nat): (b: Bytes)
    ensures |b| == k
  {
    seq(k, _ => 0)
  }

  lemma {:induction false} FromOfTo(n: nat)
    ensures FromBytes(ToBytes(n)) == n
  {
    if n != 0 {
      FromOfTo(n / 256);
      assert ToBytes(n)[..|ToBytes(n)| - 1] == ToBytes(n / 256);
    }
  }

  lemma {:induction false} NoLeadingZero(n: nat)
    ensures n > 0 ==> ToBytes(n) != [] && ToBytes(n)[0] != 0
  {
    if n >= 256 {
      NoLeadingZero(n / 256);
    } else if n > 0 {
      assert ToBytes(n / 256) == [];
    }
  }

  lemma {:induction false} ZerosInFront(k: nat, b: Bytes)
    ensures FromBytes(Zeros(k) + b) == FromBytes(b)
    decreases k + |b|
  {
    var z := Zeros(k) + b;
    if b != [] {
      assert z[..|z| - 1] == Zeros(k) + b[..|b| - 1];
      ZerosInFront(k, b[..|b| - 1]);
    } else if k > 0 {
      assert z[..|z| - 1] == Zeros(k - 1) + [];
      ZerosInFront(k - 1, []);
    }
  }

  lemma {:induction false} FromBytesBound(b: Bytes)
    ensures FromBytes(b) < Pow256(|b|)
  {
    if b != [] {
      FromBytesBound(b[..|b| - 1]);
    }
  }

  lemma {:induction false} ToBytesLength(n: nat, k: nat)
    ensures |ToBytes(n)| <= k <==> n < Pow256(k)
    decreases k
  {
    if n != 0 && k > 0 {
      ToBytesLength(n / 256, k - 1);
    }
  }

  /** Eight bytes hold exactly the uint64 values. */
  lemma EightBytes(n: nat)
    ensures |ToBytes(n)| <= 8 <==> IsUint64(n)
  {
    ToBytesLength(n, 8);
    assert Pow256(4) == 0x1_0000_0000;
    assert Pow256(8) == TWO64;
  }

  lemma LastByte(x: nat, y: nat, a: Byte, b: Byte)
    requires x * 256 + a == y * 256 + b
    ensures x == y && a == b
  {
  }

  /** On arrays of one width the number decides the bytes. */
  lemma {:induction false} FromBytesInjective(a: Bytes, b: Bytes)
    requires |a| == |b| && FromBytes(a) == FromBytes(b)
    ensures a == b
  {
    if a != [] {
      var n := |a| - 1;
      LastByte(FromBytes(a[..n]), FromBytes(b[..n]), a[n], b[n]);
      FromBytesInjective(a[..n], b[..n]);
      assert a == a[..n] + [a[n]] && b == b[..n] + [b[n]];
    }
  }

  /** Left padding or cropping to a width: what BytesToAddress does with 20. */
  function ToFixed(b: Bytes, width: nat): (r: Bytes)
    ensures |r| == width
  {
    if |b| > width then b[|b| - width..] else Zeros(width - |b|) + b
  }

  lemma ShiftByte(hi: nat, p: nat, lo: nat, d: nat)
    ensures (hi * p + lo) * 256 + d == hi * (256 * p) + (lo * 256 + d)
  {
  }

  lemma {:induction false} ValueOfConcat(a: Bytes, b: Bytes)
    ensures FromBytes(a + b) == FromBytes(a) * Pow256(|b|) + FromBytes(b)
    decreases |b|
  {
    if b == [] {
      assert a + b == a;
    } else {
      var n := |b| - 1;
      assert (a + b)[..|a + b| - 1] == a + b[..n];
      ValueOfConcat(a, b[..n]);
      ShiftByte(FromBytes(a), Pow256(n), FromBytes(b[..n]), b[n]);
    }
  }

  /** Cropping from the left is reduction modulo 256^width. */
  lemma FixedValue(n: nat, width: nat) returns (quotient: nat)
    ensures var v := FromBytes(ToFixed(ToBytes(n), width));
      v < Pow256(width) && n == quotient * Pow256(width) + v
  {
    var b := ToBytes(n);
    FromOfTo(n);
    ToBytesLength(n, width);
    if |b| > width {
      var a, c := b[..|b| - width], b[|b| - width..];
      assert b == a + c;
      ValueOfConcat(a, c);
      FromBytesBound(c);
      quotient := FromBytes(a);
    } else {
      ZerosInFront(width - |b|, b);
      quotient := 0;
    }
  }

  lemma FixedSmall(n: nat, width: nat)
    requires n < Pow256(width)
    ensures FromBytes(ToFixed(ToBytes(n), width)) == n
  {
    ToBytesLength(n, width);
    FromOfTo(n);
    ZerosInFront(width - |ToBytes(n)|, ToBytes(n));
  }

  /** Any array of the width comes back from its number. */
  lemma FixedRoundTrip(a: Bytes)
    ensures ToFixed(ToBytes(FromBytes(a)), |a|) == a
  {
    FromBytesBound(a);
    FixedSmall(FromBytes(a), |a|);
    FromBytesInjective(ToFixed(ToBytes(FromBytes(a)), |a|), a);
  }

  // ---------- bytes.Compare ----------

  function Compare(a: Bytes, b: Bytes): int {
    if a == [] && b == [] then 0
    else if a == [] then -1
    else if b == [] then 1
    else if a[0] < b[0] then -1
    else if a[0] > b[0] then 1
    else Compare(a[1..], b[1..])
  }

  lemma {:induction false} HighByte(a: Bytes)
    requires a != []
    ensures FromBytes(a) == a[0] * Pow256(|a| - 1) + FromBytes(a[1..])
    ensures FromBytes(a[1..]) < Pow256(|a| - 1)
  {
    assert a == [a[0]] + a[1..];
    ValueOfConcat([a[0]], a[1..]);
    assert [a[0]][..0] == [];
    FromBytesBound(a[1..]);
  }

  lemma HighByteDecides(x: nat, y: nat, p: nat, lo: nat, lo': nat)
    requires x < y && lo < p && lo' < p
    ensures x * p + lo < y * p + lo'
  {
    TimesMonotone(x + 1, y, p);
    assert (x + 1) * p == x * p + p;
  }

  /** On equal lengths bytes.Compare orders as the numbers do. */
  lemma {:induction false} CompareIsNumeric(a: Bytes, b: Bytes)
    requires |a| == |b|
    ensures Compare(a, b) < 0 <==> FromBytes(a) < FromBytes(b)
    ensures Compare(a, b) == 0 <==> FromBytes(a) == FromBytes(b)
  {
    if a != [] {
      HighByte(a);
      HighByte(b);
      var p := Pow256(|a| - 1);
      if a[0] < b[0] {
        HighByteDecides(a[0], b[0], p, FromBytes(a[1..]), FromBytes(b[1..]));
      } else if a[0] > b[0] {
        HighByteDecides(b[0], a[0], p, FromBytes(b[1..]), FromBytes(a[1..]));
      } else {
        CompareIsNumeric(a[1..], b[1..]);
      }
    }
  }
}

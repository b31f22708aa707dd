/** IntrinsicGas of core/state_transition.go over uint64, with its overflow guards. */
module IntrinsicGas {
  import opened Integers
  import opened Options

  /** The gas prices of the params package; the ones divided by are positive. */
  type Price = x: int | 0 < x < 0x1_0000_0000_0000_0000 witness 1

  datatype Params = Params(
    txGas: Uint64,
    txGasContractCreation: Uint64,
    nonZeroFrontier: Price,
    nonZeroEIP2028: Price,
    zeroGas: Price,
    initCodeWordGas: Price,
    accessListAddressGas: Uint64,
    accessListStorageKeyGas: Uint64)

  /** The lengths that IntrinsicGas takes from an access list. */
  datatype AccessList = AccessList(addresses: Uint64, storageKeys: Uint64)

  datatype Flags = Flags(creation: bool, homestead: bool, eip2028: bool, eip3860: bool)

  datatype Result = Gas(gas: Uint64) | Overflow

  /** The number of non-zero bytes. */
  function NonZero(data: seq<Byte>): (n: nat)
    ensures n <= |data|
  {
    if data == [] then 0 else NonZero(data[..|data| - 1]) + if data[|data| - 1] != 0 then 1 else 0
  }

  function Base(p: Params, f: Flags): Uint64 {
    if f.creation && f.homestead then p.txGasContractCreation else p.txGas
  }

  function NonZeroPrice(p: Params, f: Flags): Price {
    if f.eip2028 then p.nonZeroEIP2028 else p.nonZeroFrontier
  }

  /** The number of 32-byte words that n bytes take. */
  function Words(n: nat): nat { (n + 31) / 32 }

  /** toWordSize: exact for every uint64, also where size + 31 would wrap. */
  function ToWordSize(size: Uint64): (r: Uint64)
    ensures 32 * (r - 1) < size <= 32 * r
  {
    if size > MAX_UINT64 - 31 then MAX_UINT64 / 32 + 1 else (size + 31) / 32
  }

  lemma WordsExact(size: Uint64)
    ensures ToWordSize(size) == Words(size)
  {
  }

  /** k units at a price. */
  function Times(k: nat, price: nat): (r: nat)
    ensures k == 0 ==> r == 0
  {
    k * price
  }

  /** The cost without an access list, as a plain sum. */
  function Cost(p: Params, f: Flags, data: seq<Byte>): nat {
    Base(p, f)
    + Times(NonZero(data), NonZeroPrice(p, f))
    + Times(|data| - NonZero(data), p.zeroGas)
    + if f.creation && f.eip3860 then Times(Words(|data|), p.initCodeWordGas) else 0
  }

  /** The places of the non-zero bytes. */
  ghost function NonZeroPlaces(data: seq<Byte>): set<int> {
    set i | 0 <= i < |data| && data[i] != 0
  }

  lemma {:induction false} NonZeroCounts(data: seq<Byte>)
    ensures NonZero(data) == |NonZeroPlaces(data)|
  {
    if data != [] {
      var n := |data| - 1;
      NonZeroCounts(data[..n]);
      assert NonZeroPlaces(data) == NonZeroPlaces(data[..n]) + if data[n] != 0 then {n} else {};
    }
  }

  /** The cost for each combination of fork and kind of transaction, from the numbers of
      non-zero bytes, zero bytes and words alone; a creation is given by what it costs more
      than a call with the same data. */
  lemma CostByCase(p: Params, f: Flags, data: seq<Byte>, nz: nat, z: nat, words: nat)
    requires nz == |NonZeroPlaces(data)| && z == |data| - nz && 32 * (words - 1) < |data| <= 32 * words
    ensures !f.creation && !f.eip2028 ==> Cost(p, f, data) == p.txGas + nz * p.nonZeroFrontier + z * p.zeroGas
    ensures !f.creation && f.eip2028 ==> Cost(p, f, data) == p.txGas + nz * p.nonZeroEIP2028 + z * p.zeroGas
    ensures f.creation && f.homestead && !f.eip3860 ==>
      Cost(p, f, data) - Cost(p, f.(creation := false), data) == p.txGasContractCreation - p.txGas
    ensures f.creation && f.homestead && f.eip3860 ==>
      Cost(p, f, data) - Cost(p, f.(creation := false), data)
      == p.txGasContractCreation - p.txGas + words * p.initCodeWordGas
    ensures f.creation && !f.homestead && !f.eip3860 ==>
      Cost(p, f, data) == Cost(p, f.(creation := false), data)
    ensures f.creation && !f.homestead && f.eip3860 ==>
      Cost(p, f, data) == Cost(p, f.(creation := false), data) + words * p.initCodeWordGas
  {
    NonZeroCounts(data);
    assert Words(|data|) == words;
  }

  lemma DivisionFacts(limit: nat, price: nat)
    requires price > 0
    ensures Times(limit / price, price) <= limit < Times(limit / price + 1, price)
  {
  }

  /** The guard (MaxUint64 - gas) / price < k is exact. */
  lemma GuardExact(gas: Uint64, price: Price, k: nat)
    ensures (MAX_UINT64 - gas) / price < k <==> gas + Times(k, price) > MAX_UINT64
  {
    var limit := MAX_UINT64 - gas;
    var quotient := limit / price;
    DivisionFacts(limit, price);
    if quotient < k {
      TimesMonotone(quotient + 1, k, price);
    } else {
      TimesMonotone(k, quotient, price);
    }
  }

  /** One guarded addition of the source. */
  method AddCost(gas: Uint64, k: nat, price: Price) returns (r: Result)
    ensures r == if gas + Times(k, price) > MAX_UINT64 then Overflow else Gas(gas + Times(k, price))
  {
    GuardExact(gas, price, k);
    if (MAX_UINT64 - gas) / price < k {
      return Overflow;
    }
    return Gas(gas + Times(k, price));
  }

  method CountNonZero(data: seq<Byte>) returns (nz: nat)
    ensures nz == NonZero(data)
  {
    nz := 0;
    for i := 0 to |data|
      invariant nz == NonZero(data[..i])
    {
      assert data[..i + 1][..i] == data[..i];
      if data[i] != 0 {
        nz := nz + 1;
      }
    }
    assert data[..|data|] == data;
  }

  /** The cost of the data; the length of a slice fits uint64. */
  method DataGas(p: Params, f: Flags, data: seq<Byte>) returns (r: Result)
    requires |data| <= MAX_UINT64
    ensures r == if Cost(p, f, data) > MAX_UINT64 then Overflow else Gas(Cost(p, f, data))
  {
    r := Gas(Base(p, f));
    if |data| > 0 {
      var nz := CountNonZero(data);
      r := AddCost(r.gas, nz, NonZeroPrice(p, f));
      if r.Overflow? {
        return;
      }
      r := AddCost(r.gas, |data| - nz, p.zeroGas);
      if r.Overflow? {
        return;
      }
      if f.creation && f.eip3860 {
        WordsExact(|data|);
        r := AddCost(r.gas, ToWordSize(|data|), p.initCodeWordGas);
      }
    }
  }

  function AccessCost(p: Params, a: AccessList): int {
    a.addresses * p.accessListAddressGas + a.storageKeys * p.accessListStorageKeyGas
  }

  lemma AddWraps(x: int, y: int)
    ensures (x % TWO64 + y) % TWO64 == (x + y) % TWO64
  {
  }

  /** IntrinsicGas: without an access list the exact sum, or the overflow error exactly when
      the sum does not fit. The access list is added without a guard, so with one the gas is
      the sum modulo 2^64. */
  method ComputeIntrinsicGas(p: Params, f: Flags, data: seq<Byte>, accessList: Option<AccessList>) returns (r: Result)
    requires |data| <= MAX_UINT64
    ensures Cost(p, f, data) > MAX_UINT64 <==> r.Overflow?
    ensures Cost(p, f, data) <= MAX_UINT64 && accessList.None? ==> r == Gas(Cost(p, f, data))
    ensures Cost(p, f, data) <= MAX_UINT64 && accessList.Some? ==>
      r == Gas((Cost(p, f, data) + AccessCost(p, accessList.value)) % TWO64)
  {
    r := DataGas(p, f, data);
    if r.Gas? && accessList.Some? {
      var x := accessList.value.addresses * p.accessListAddressGas;
      var y := accessList.value.storageKeys * p.accessListStorageKeyGas;
      AddWraps(r.gas + x, y);
      r := Gas((r.gas + x) % TWO64);
      r := Gas((r.gas + y) % TWO64);
    }
  }
}

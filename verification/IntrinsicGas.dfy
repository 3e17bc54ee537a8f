/** The gas a transaction costs before anything is executed. */
module IntrinsicGas {
  import opened Common
  import opened Bytes

  const TX_GAS: nat := 21000
  const TX_GAS_CONTRACT_CREATION: nat := 53000
  const TX_DATA_ZERO_GAS: nat := 4
  const TX_DATA_NON_ZERO_GAS_FRONTIER: nat := 68
  const TX_DATA_NON_ZERO_GAS_EIP2028: nat := 16
  const TX_ACCESS_LIST_ADDRESS_GAS: nat := 2400
  const TX_ACCESS_LIST_STORAGE_KEY_GAS: nat := 1900
  const INIT_CODE_WORD_GAS: nat := 2

  /** The slots a transaction declares for one address. */
  datatype AccessTuple = AccessTuple(address: nat, storageKeys: seq<nat>)

  datatype Schedule = Schedule(homestead: bool, eip2028: bool, eip3860: bool)

  // ---------- the cost, in unbounded arithmetic ----------

  ghost function NonZero(data: seq<byte>): (n: nat)
    ensures n <= |data|
  {
    if data == [] then 0 else NonZero(data[..|data| - 1]) + if data[|data| - 1] != 0 then 1 else 0
  }

  ghost function KeyCount(list: seq<AccessTuple>): nat {
    if list == [] then 0 else KeyCount(list[..|list| - 1]) + |list[|list| - 1].storageKeys|
  }

  ghost function BaseCost(data: seq<byte>, creation: bool, fork: Schedule): nat {
    var perByte := if fork.eip2028 then TX_DATA_NON_ZERO_GAS_EIP2028 else TX_DATA_NON_ZERO_GAS_FRONTIER;
    (if creation && fork.homestead then TX_GAS_CONTRACT_CREATION else TX_GAS)
    + NonZero(data) * perByte + (|data| - NonZero(data)) * TX_DATA_ZERO_GAS
    + (if creation && fork.eip3860 then (|data| + 31) / 32 * INIT_CODE_WORD_GAS else 0)
  }

  ghost function ListCost(list: seq<AccessTuple>): nat {
    |list| * TX_ACCESS_LIST_ADDRESS_GAS + KeyCount(list) * TX_ACCESS_LIST_STORAGE_KEY_GAS
  }

  ghost function Cost(data: seq<byte>, list: seq<AccessTuple>, creation: bool, fork: Schedule): nat {
    BaseCost(data, creation, fork) + ListCost(list)
  }

  /** Nothing but the fixed part for an empty message. */
  lemma EmptyCost(creation: bool, fork: Schedule)
    ensures Cost([], [], creation, fork) == if creation && fork.homestead then 53000 else 21000
  {
  }

  /** A further byte costs 4 if it is zero and 16 otherwise (68 before Istanbul), and every 32 bytes begun
      cost 2 more in a creation since Shanghai. */
  lemma ByteCost(data: seq<byte>, b: byte, list: seq<AccessTuple>, creation: bool, fork: Schedule)
    ensures Cost(data + [b], list, creation, fork) == Cost(data, list, creation, fork)
      + (if b == 0 then 4 else if fork.eip2028 then 16 else 68)
      + (if creation && fork.eip3860 && |data| % 32 == 0 then 2 else 0)
  {
    hide ListCost, NonZero;
    NonZeroNext(data, b);
    WordsNext(|data|);
  }

  lemma NonZeroNext(data: seq<byte>, b: byte)
    ensures NonZero(data + [b]) == NonZero(data) + if b != 0 then 1 else 0
  {
    assert (data + [b])[..|data|] == data;
  }

  lemma WordsNext(n: nat)
    ensures (n + 1 + 31) / 32 == (n + 31) / 32 + if n % 32 == 0 then 1 else 0
  {
  }

  /** A further entry of the access list costs 2400, and each of its keys 1900. */
  lemma EntryCost(data: seq<byte>, list: seq<AccessTuple>, t: AccessTuple, creation: bool, fork: Schedule)
    ensures Cost(data, list + [t], creation, fork) == Cost(data, list, creation, fork) + 2400 + 1900 * |t.storageKeys|
  {
    hide BaseCost;
    assert (list + [t])[..|list|] == list;
    assert KeyCount(list + [t]) == KeyCount(list) + |t.storageKeys|;
  }

  // ---------- the code ----------

  method ToWordSize(size: nat) returns (r: nat)
    requires size < TWO64
    ensures r == (size + 31) / 32
  {
    if size > TWO64 - 1 - 31 {
      return (TWO64 - 1) / 32 + 1;
    }
    return (size + 31) / 32;
  }

  method StorageKeys(list: seq<AccessTuple>) returns (sum: nat)
    ensures sum == KeyCount(list)
  {
    sum := 0;
    for i := 0 to |list|
      invariant sum == KeyCount(list[..i])
    {
      assert list[..i + 1][..i] == list[..i];
      sum := sum + |list[i].storageKeys|;
    }
    assert list[..|list|] == list;
  }

  method CountNonZero(data: seq<byte>) returns (nz: nat)
    ensures nz == NonZero(data)
  {
    nz := 0;
    for i := 0 to |data|
      invariant nz == NonZero(data[..i])
    {
      assert data[..i + 1][..i] == data[..i];
      if data[i] != 0 { nz := nz + 1; }
    }
    assert data[..|data|] == data;
  }

  /** The guard that keeps `gas + count * price` in 64 bits; it fails exactly on overflow. */
  method AddChecked(gas: nat, count: nat, price: nat) returns (ok: bool, sum: nat)
    requires gas < TWO64 && price > 0
    ensures ok <==> gas + count * price < TWO64
    ensures ok ==> sum == gas + count * price
  {
    QuotientBelow(TWO64 - 1 - gas, price, count);
    if (TWO64 - 1 - gas) / price < count {
      return false, gas;
    }
    return true, gas + count * price;
  }

  lemma QuotientBelow(n: nat, p: nat, k: nat)
    requires p > 0
    ensures n / p < k <==> n < k * p
  {
    var q, r := n / p, n % p;
    assert n == q * p + r;
    if q < k { MulMono(q + 1, k, p); } else { MulMono(k, q, p); }
  }

  /** The checked part: what the transaction and its data cost. */
  method BaseGas(data: seq<byte>, creation: bool, fork: Schedule) returns (ok: bool, gas: nat)
    requires |data| < TWO64
    ensures ok <==> BaseCost(data, creation, fork) < TWO64
    ensures ok ==> gas == BaseCost(data, creation, fork)
  {
    ok, gas := true, if creation && fork.homestead then TX_GAS_CONTRACT_CREATION else TX_GAS;
    if |data| > 0 {
      var nz := CountNonZero(data);
      var perByte := if fork.eip2028 then TX_DATA_NON_ZERO_GAS_EIP2028 else TX_DATA_NON_ZERO_GAS_FRONTIER;
      ok, gas := AddChecked(gas, nz, perByte);
      if !ok { return; }
      ok, gas := AddChecked(gas, |data| - nz, TX_DATA_ZERO_GAS);
      if !ok { return; }
      if creation && fork.eip3860 {
        var words := ToWordSize(|data|);
        ok, gas := AddChecked(gas, words, INIT_CODE_WORD_GAS);
      }
    }
  }

  /** Wrapping addition of 64-bit words. */
  function Add64(a: nat, b: nat): nat {
    (a + b) % TWO64
  }

  /** Two wrapping additions wrap like one. */
  lemma AddedTwice(a: nat, b: nat, c: nat, m: nat)
    requires m > 0
    ensures ((a + b) % m + c) % m == (a + (b + c)) % m
  {
    var q, r := (a + b) / m, (a + b) % m;
    var x := r + c;
    assert x == x / m * m + x % m;
    assert a + (b + c) == (q + x / m) * m + x % m by { assert (q + x / m) * m == q * m + x / m * m; }
    DivModUnique(a + (b + c), m, q + x / m, x % m);
  }

  /** Fails exactly when the cost without the access list leaves 64 bits; the cost of the
      access list is added without a check. */
  method IntrinsicGas(data: seq<byte>, list: seq<AccessTuple>, creation: bool, fork: Schedule) returns (ok: bool, gas: nat)
    requires |data| < TWO64
    ensures ok <==> BaseCost(data, creation, fork) < TWO64
    ensures ok ==> gas == Cost(data, list, creation, fork) % TWO64
  {
    hide BaseCost, KeyCount;
    ok, gas := BaseGas(data, creation, fork);
    if !ok { return; }
    AddedTwice(gas, |list| * TX_ACCESS_LIST_ADDRESS_GAS, KeyCount(list) * TX_ACCESS_LIST_STORAGE_KEY_GAS, TWO64);
    gas := Add64(gas, |list| * TX_ACCESS_LIST_ADDRESS_GAS);
    var keys := StorageKeys(list);
    gas := Add64(gas, keys * TX_ACCESS_LIST_STORAGE_KEY_GAS);
  }

  /** A transaction whose declared lists fit costs at least what any transaction costs. */
  lemma CostAtLeast(data: seq<byte>, list: seq<AccessTuple>, creation: bool, fork: Schedule)
    ensures Cost(data, list, creation, fork) >= TX_GAS
  {
  }
}

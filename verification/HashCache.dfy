/** Looking up ancestor hashes by number, with a cache that grows along the parent links.

    Numbers are 64-bit words, so that stepping below block 0 wraps around.
 */
module HashCache {
  import opened Common
  import opened Bytes

  const ZERO_HASH: nat := 0

  datatype Header = Header(number: nat, parentHash: nat)

  type Store = (nat, nat) -> Option<Header>

  /** Headers are found under their own number, and none is stored just below genesis. */
  ghost predicate Sensible(get: Store) {
    forall h: nat, n: nat :: get(h, n).Some? ==> get(h, n).value.number == n < TWO64 - 1
  }

  /** `n - 1`, as a 64-bit word. */
  function Dec(n: int): (r: nat)
    ensures r < TWO64
  {
    (n - 1) % TWO64
  }

  /** The uncached walk: from hash `h` at `num` along the parents until `n` is reached. */
  ghost function Walk(get: Store, h: nat, num: nat, n: nat): nat
    requires Sensible(get) && num < TWO64
    decreases (num + 1) % TWO64
  {
    if num == n then h
    else match get(h, num)
         case None => ZERO_HASH
         case Some(header) => Walk(get, header.parentHash, Dec(header.number), n)
  }

  /** The number of entry `i` below block `number`. */
  function Num(number: nat, i: int): (r: nat)
    ensures r < TWO64
  {
    (number - 1 - i) % TWO64
  }

  /** The entries follow one another as parents. */
  ghost predicate Linked(get: Store, number: nat, cache: seq<nat>) {
    forall i | 0 <= i < |cache| - 1 ::
      get(cache[i], Num(number, i)).Some? && get(cache[i], Num(number, i)).value.parentHash == cache[i + 1]
  }

  /** The cache ends at genesis at the latest. */
  lemma {:induction false} LinkedShort(get: Store, number: nat, cache: seq<nat>, i: nat)
    requires Sensible(get) && number < TWO64 && Linked(get, number, cache) && i < |cache|
    ensures i <= number
  {
    if i > 0 {
      LinkedShort(get, number, cache, i - 1);
      assert get(cache[i - 1], Num(number, i - 1)).Some?;
    }
  }

  lemma NumBelow(number: nat, i: nat)
    requires i > 0
    ensures Num(number, i) == Dec(Num(number, i - 1))
  {
    OneLess(number - i, TWO64);
  }

  lemma OneLess(x: int, m: nat)
    requires m > 1
    ensures (x - 1) % m == (x % m - 1) % m
  {
    var q, r := x / m, x % m;
    assert x == q * m + r;
    if r > 0 {
      DivModUnique(x - 1, m, q, r - 1);
      DivModUnique(r - 1, m, 0, r - 1);
    } else {
      assert (q - 1) * m == q * m - m;
      DivModUnique(x - 1, m, q - 1, m - 1);
      DivModUnique(-1, m, -1, m - 1);
    }
  }

  /** The walk passes along the cache. */
  lemma {:induction false} WalkAlong(get: Store, number: nat, cache: seq<nat>, i: nat, n: nat)
    requires Sensible(get) && number < TWO64 && Linked(get, number, cache) && i < |cache|
    requires forall k | 0 <= k < i :: Num(number, k) != n
    ensures Walk(get, cache[0], Num(number, 0), n) == Walk(get, cache[i], Num(number, i), n)
  {
    hide Num, Dec, Walk;
    if i > 0 {
      WalkAlong(get, number, cache, i - 1, n);
      NumBelow(number, i);
      WalkStep(get, cache[i - 1], Num(number, i - 1), n);
    }
  }

  /** Along parent links the walk finds the ancestor itself. */
  lemma AncestorFound(get: Store, number: nat, path: seq<nat>, n: nat)
    requires Sensible(get) && number < TWO64 && Linked(get, number, path) && 0 < |path| && n + |path| == number
    ensures Walk(get, path[0], Dec(number), n) == path[|path| - 1]
  {
    assert forall k | 0 <= k < |path| :: Num(number, k) == number - 1 - k;
    WalkAlong(get, number, path, |path| - 1, n);
  }

  lemma NumIndex(number: nat, n: nat, k: nat)
    requires number < TWO64 && n < TWO64 && k < TWO64
    ensures Num(number, k) == n <==> k == (number - n - 1) % TWO64
  {
  }

  lemma WalkStep(get: Store, h: nat, num: nat, n: nat)
    requires Sensible(get) && num < TWO64 && num != n
    ensures Walk(get, h, num, n) ==
      match get(h, num) case None => ZERO_HASH case Some(header) => Walk(get, header.parentHash, Dec(header.number), n)
  {
  }

  lemma Extended(get: Store, number: nat, cache: seq<nat>, header: Header)
    requires Sensible(get) && number < TWO64 && Linked(get, number, cache) && cache != []
    requires get(cache[|cache| - 1], Num(number, |cache| - 1)) == Some(header)
    ensures Linked(get, number, cache + [header.parentHash])
    ensures Dec(header.number) == Num(number, |cache|)
    ensures (Dec(header.number) + 1) % TWO64 < (header.number + 1) % TWO64
  {
    LinkedShort(get, number, cache, |cache| - 1);
  }

  lemma WalkFound(get: Store, h: nat, n: nat)
    requires Sensible(get) && n < TWO64
    ensures Walk(get, h, n, n) == h
  {
  }

  /** The function that `GetHashFn` returns. */
  class HashFn {
    const getHeader: Store
    const number: nat
    const parentHash: nat
    var cache: seq<nat>

    constructor (getHeader: Store, number: nat, parentHash: nat)
      requires Sensible(getHeader) && number < TWO64
      ensures Valid() && this.getHeader == getHeader && this.number == number && this.parentHash == parentHash
    {
      this.getHeader, this.number, this.parentHash, cache := getHeader, number, parentHash, [];
    }

    ghost predicate Valid()
      reads this
    {
      && Sensible(getHeader) && number < TWO64
      && (cache == [] || (cache[0] == parentHash && Linked(getHeader, number, cache)))
    }

    /** Whatever was asked before, the answer is that of the uncached walk from the parent. */
    method Get(n: nat) returns (h: nat)
      requires Valid() && n < TWO64
      modifies this
      ensures Valid() && h == Walk(getHeader, parentHash, Dec(number), n)
    {
      hide Walk, Sensible;
      if |cache| == 0 { cache := cache + [parentHash]; }
      LinkedShort(getHeader, number, cache, |cache| - 1);
      var idx := (number - n - 1) % TWO64;
      forall k | 0 <= k < |cache| ensures Num(number, k) == n <==> k == idx { NumIndex(number, n, k); }
      if idx < |cache| {
        WalkAlong(getHeader, number, cache, idx, n);
        WalkFound(getHeader, cache[idx], n);
        return cache[idx];
      }
      WalkAlong(getHeader, number, cache, |cache| - 1, n);
      h := Extend(n);
    }

    /** Follow the parents from the last known hash on. */
    method Extend(n: nat) returns (h: nat)
      requires Valid() && n < TWO64 && cache != [] && Num(number, |cache| - 1) != n
      modifies this
      ensures Valid() && h == Walk(getHeader, old(cache[|cache| - 1]), old(Num(number, |cache| - 1)), n)
    {
      hide Walk, Sensible, Linked;
      var lastKnownHash := cache[|cache| - 1];
      var lastKnownNumber := (number - |cache|) % TWO64;
      ghost var answer := Walk(getHeader, lastKnownHash, lastKnownNumber, n);
      while true
        invariant Valid() && cache != [] && lastKnownHash == cache[|cache| - 1]
        invariant lastKnownNumber == Num(number, |cache| - 1) != n
        invariant Walk(getHeader, lastKnownHash, lastKnownNumber, n) == answer
        decreases (lastKnownNumber + 1) % TWO64
      {
        WalkStep(getHeader, lastKnownHash, lastKnownNumber, n);
        var header := getHeader(lastKnownHash, lastKnownNumber);
        if header.None? { break; }
        OwnNumber(getHeader, lastKnownHash, lastKnownNumber);
        Extended(getHeader, number, cache, header.value);
        cache := cache + [header.value.parentHash];
        lastKnownHash := header.value.parentHash;
        lastKnownNumber := Dec(header.value.number);
        if n == lastKnownNumber {
          WalkFound(getHeader, lastKnownHash, n);
          return lastKnownHash;
        }
      }
      return ZERO_HASH;
    }
  }

  lemma OwnNumber(get: Store, h: nat, n: nat)
    requires Sensible(get) && get(h, n).Some?
    ensures get(h, n).value.number == n
  {
  }
}

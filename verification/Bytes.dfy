/** The byte layer: big-endian encodings of integers.

    `BigEndian` is defined on all integers, so that a negative number gets its
    two's complement form, exactly as `U256` followed by `PaddedBigBytes` does.
 */
module Bytes {

  type byte = x: int | 0 <= x < 256

  function Pow256(k: nat): (r: nat)
    ensures r > 0
  {
    if k == 0 then 1 else 256 * Pow256(k - 1)
  }

  /** Byte `j` of `n`, counted from the least significant one. */
  function ByteAt(n: int, j: nat): byte {
    n / Pow256(j) % 256
  }

  /** The low `k` bytes of `n`, most significant first. */
  function BigEndian(n: int, k: nat): (r: seq<byte>)
    ensures |r| == k
  {
    seq(k, i requires 0 <= i < k => ByteAt(n, k - 1 - i))
  }

  /** The number a byte string stands for, as `big.Int.SetBytes` reads it. */
  function ToNat(s: seq<byte>): (r: nat)
  {
    if s == [] then 0 else 256 * ToNat(s[..|s| - 1]) + s[|s| - 1]
  }

  function Zeros(n: nat): (r: seq<byte>)
    ensures |r| == n && forall i :: 0 <= i < n ==> r[i] == 0
  {
    seq(n, _ => 0)
  }

  lemma PowSum(a: nat, b: nat)
    ensures Pow256(a + b) == Pow256(a) * Pow256(b)
  {
    if a > 0 { PowSum(a - 1, b); }
  }

  lemma {:induction false} ToNatBound(s: seq<byte>)
    ensures ToNat(s) < Pow256(|s|)
  {
    if s != [] { ToNatBound(s[..|s| - 1]); }
  }

  /** Splitting off the last byte of a remainder. */
  lemma ModStep(n: int, p: nat)
    requires p > 0
    ensures n % (256 * p) == 256 * ((n / 256) % p) + n % 256
  {
    var q, r := n / 256, n % 256;
    var d, m := q / p, q % p;
    assert n == 256 * (d * p + m) + r;
    DivModUnique(n, 256 * p, d, 256 * m + r) by {
      assert 256 * (d * p) == d * (256 * p);
    }
  }

  lemma DivModUnique(n: int, p: int, d: int, m: int)
    requires p > 0 && n == d * p + m && 0 <= m < p
    ensures n / p == d && n % p == m
  {
    var d', m' := n / p, n % p;
    assert n == d' * p + m';
    assert (d - d') * p == m' - m;
    if d > d' {
      MulMono(1, d - d', p);
    } else if d < d' {
      MulMono(d - d', -1, p);
    }
  }

  lemma DivDiv(n: int, p: nat)
    requires p > 0
    ensures n / 256 / p == n / (256 * p)
  {
    var q, r := n / 256, n % 256;
    var d, m := q / p, q % p;
    assert n == 256 * (d * p + m) + r;
    assert 256 * (d * p) == d * (256 * p);
    DivModUnique(n, 256 * p, d, 256 * m + r);
  }

  lemma ByteStep(n: int, j: nat)
    ensures ByteAt(n, j + 1) == ByteAt(n / 256, j)
  {
    DivDiv(n, Pow256(j));
  }

  lemma BigEndianStep(n: int, k: nat)
    requires k > 0
    ensures BigEndian(n, k) == BigEndian(n / 256, k - 1) + [n % 256]
  {
    var r := BigEndian(n / 256, k - 1) + [ByteAt(n, 0)];
    forall i | 0 <= i < k
      ensures BigEndian(n, k)[i] == r[i]
    {
      if i < k - 1 { ByteStep(n, k - 2 - i); }
    }
  }

  lemma MulMono(a: int, b: int, p: nat)
    requires a <= b
    ensures a * p <= b * p
  {
    assert (b - a) * p >= 0;
  }

  /** Reading back a big-endian encoding gives the number modulo its width. */
  lemma {:induction false} ToNatBigEndian(n: int, k: nat)
    ensures ToNat(BigEndian(n, k)) == n % Pow256(k)
    decreases k
  {
    if k > 0 {
      ToNatBigEndian(n / 256, k - 1);
      BigEndianStep(n, k);
      var r := BigEndian(n, k);
      assert r[..|r| - 1] == BigEndian(n / 256, k - 1);
      ModStep(n, Pow256(k - 1));
    }
  }

  /** Writing out what was read gives the bytes back. */
  lemma {:induction false} BigEndianToNat(s: seq<byte>)
    ensures BigEndian(ToNat(s), |s|) == s
  {
    if s != [] {
      var t := s[..|s| - 1];
      BigEndianToNat(t);
      DivModUnique(ToNat(s), 256, ToNat(t), s[|s| - 1]);
      BigEndianStep(ToNat(s), |s|);
      assert s == t + [s[|s| - 1]];
    }
  }

  /** The last `j` bytes of an encoding are the shorter encoding. */
  lemma BigEndianSuffix(n: int, k: nat, j: nat)
    requires j <= k
    ensures BigEndian(n, k)[k - j..] == BigEndian(n, j)
  {
  }

  lemma {:induction false} BigEndianMod(n: int, k: nat)
    ensures BigEndian(n % Pow256(k), k) == BigEndian(n, k)
  {
    ToNatBigEndian(n, k);
    BigEndianToNat(BigEndian(n, k));
  }

  /** A number that fits in `j` bytes has zeros in front when written in `k`. */
  lemma {:induction false} BigEndianPadded(n: nat, k: nat, j: nat)
    requires j <= k && n < Pow256(j)
    ensures BigEndian(n, k) == Zeros(k - j) + BigEndian(n, j)
  {
    if j > 0 {
      BigEndianPadded(n / 256, k - 1, j - 1);
      BigEndianStep(n, k);
      BigEndianStep(n, j);
    } else if k > 0 {
      BigEndianPadded(0, k - 1, 0);
      BigEndianStep(0, k);
    }
  }

  lemma PowMono(j: nat, k: nat)
    requires j <= k
    ensures Pow256(j) <= Pow256(k)
  {
    PowSum(j, k - j);
    MulMono(1, Pow256(k - j), Pow256(j));
  }

  /** A number that fits in `j` bytes is read back from all `k` bytes and from the last `j`. */
  lemma ToNatSmall(n: nat, k: nat, j: nat)
    requires j <= k && n < Pow256(j)
    ensures ToNat(BigEndian(n, k)) == n && ToNat(BigEndian(n, k)[k - j..]) == n
  {
    PowMono(j, k);
    ToNatBigEndian(n, k);
    BigEndianSuffix(n, k, j);
    ToNatBigEndian(n, j);
    DivModUnique(n, Pow256(k), 0, n);
    DivModUnique(n, Pow256(j), 0, n);
  }
}

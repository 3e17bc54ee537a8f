/** Integers down to bytes, as `common/math/big.go` does it: machine word by machine
    word into a buffer, then cut to 256 bits.
 */
module BigBytes {
  import opened Bytes

  const WORD_BYTES: nat := 8

  /** `big.Int.Bits`: little-endian machine words. */
  type Words = ws: seq<nat> | forall i | 0 <= i < |ws| :: ws[i] < Pow256(WORD_BYTES)

  function ValueOf(ws: Words): nat {
    if ws == [] then 0 else ws[0] + Pow256(WORD_BYTES) * ValueOf(ws[1..])
  }

  function WordsOf(n: nat): (ws: Words)
    ensures ValueOf(ws) == n
    decreases n
  {
    if n == 0 then []
    else
      var p := Pow256(WORD_BYTES);
      assert p > 1;
      [n % p] + WordsOf(n / p)
  }

  /** `big.Int.Bytes`: big-endian without leading zeros. */
  function MinimalBytes(n: nat): seq<byte> {
    if n == 0 then [] else MinimalBytes(n / 256) + [n % 256]
  }

  lemma {:induction false} MinimalIsBigEndian(n: nat, k: nat)
    requires n < Pow256(k) && (k > 0 ==> n >= Pow256(k - 1))
    ensures MinimalBytes(n) == BigEndian(n, k)
  {
    if k > 0 {
      BigEndianStep(n, k);
      if k > 1 { assert Pow256(k - 1) == 256 * Pow256(k - 2); }
      MinimalIsBigEndian(n / 256, k - 1);
    }
  }

  /** Taking one byte off what is left of a number. */
  lemma NextByte(v: nat, count: nat, d: nat, j: nat, above: nat)
    requires j < WORD_BYTES
    requires v / Pow256(count) == d + Pow256(WORD_BYTES - j) * above
    ensures ByteAt(v, count) == d % 256
    ensures v / Pow256(count + 1) == d / 256 + Pow256(WORD_BYTES - j - 1) * above
    ensures d < Pow256(WORD_BYTES - j) ==> d / 256 < Pow256(WORD_BYTES - j - 1)
  {
    var p, m := Pow256(count), WORD_BYTES - j - 1;
    assert Pow256(m + 1) == 256 * Pow256(m);
    var rest := v / p;
    assert rest == 256 * (Pow256(m) * above) + d;
    DivModUnique(rest, 256, Pow256(m) * above + d / 256, d % 256);
    DivSwap(v, p);
  }

  lemma DivSwap(n: nat, p: nat)
    requires p > 0
    ensures n / (256 * p) == n / p / 256
  {
    var q, r := n / p, n % p;
    var d, m := q / 256, q % 256;
    assert n == (256 * d + m) * p + r;
    assert (256 * d + m) * p == d * (256 * p) + m * p;
    MulMono(m, 255, p);
    DivModUnique(n, 256 * p, d, m * p + r);
  }

  /** The inner loop of `ReadBits`: one machine word into the buffer, ending before `start`. */
  method ReadWord(word: nat, buf: array<byte>, start: nat, ghost v: nat, ghost above: nat) returns (i: nat)
    requires start <= buf.Length && word < Pow256(WORD_BYTES)
    requires v / Pow256(buf.Length - start) == word + Pow256(WORD_BYTES) * above
    modifies buf
    ensures i == if start >= WORD_BYTES then start - WORD_BYTES else 0
    ensures i > 0 ==> v / Pow256(buf.Length - i) == above
    ensures forall m | i <= m < start :: buf[m] == ByteAt(v, buf.Length - 1 - m)
    ensures forall m | 0 <= m < i || start <= m < buf.Length :: buf[m] == old(buf[m])
  {
    hide Pow256, ByteAt;
    var d: nat := word;
    var j: nat := 0;
    i := start;
    while j < WORD_BYTES && i > 0
      invariant 0 <= j <= WORD_BYTES && i == start - j
      invariant d < Pow256(WORD_BYTES - j)
      invariant v / Pow256(buf.Length - i) == d + Pow256(WORD_BYTES - j) * above
      invariant forall m | i <= m < start :: buf[m] == ByteAt(v, buf.Length - 1 - m)
      invariant forall m | 0 <= m < i || start <= m < buf.Length :: buf[m] == old(buf[m])
    {
      NextByte(v, buf.Length - i, d, j, above);
      i := i - 1;
      buf[i] := d % 256;
      d := d / 256;
      j := j + 1;
    }
    PowZero();
  }

  lemma PowZero()
    ensures Pow256(0) == 1
  {
  }

  /** `ReadBits`: the bytes of the number fill the buffer from its end; what the
      number does not reach stays as it was. */
  method ReadBits(words: Words, buf: array<byte>)
    modifies buf
    ensures forall i | 0 <= i < buf.Length ::
              buf[i] == if buf.Length - 1 - i < WORD_BYTES * |words| then ByteAt(ValueOf(words), buf.Length - 1 - i)
                        else old(buf[i])
  {
    hide Pow256, ByteAt;
    var i := buf.Length;
    ghost var v := ValueOf(words);
    var w := 0;
    assert words[0..] == words;
    PowZero();
    while w < |words|
      invariant 0 <= w <= |words| && 0 <= i <= buf.Length
      invariant buf.Length - i == if WORD_BYTES * w <= buf.Length then WORD_BYTES * w else buf.Length
      invariant i > 0 ==> v / Pow256(buf.Length - i) == ValueOf(words[w..])
      invariant forall m | i <= m < buf.Length :: buf[m] == ByteAt(v, buf.Length - 1 - m)
      invariant forall m | 0 <= m < i :: buf[m] == old(buf[m])
    {
      assert words[w..][1..] == words[w + 1..];
      if i > 0 {
        i := ReadWord(words[w], buf, i, v, ValueOf(words[w + 1..]));
      }
      w := w + 1;
    }
  }

  /** `PaddedBigBytes`: at least `k` bytes; exactly the `k` low bytes when the number fits. */
  method PaddedBigBytes(n: nat, k: nat) returns (r: seq<byte>)
    ensures n < Pow256(k) ==> r == BigEndian(n, k)
    ensures n >= Pow256(k) ==> r == MinimalBytes(n)
  {
    // BitLen() / 8 >= k, that is, bit 8k - 1 or a higher one is set
    if 2 * n >= Pow256(k) {
      r := MinimalBytes(n);
      if n < Pow256(k) { MinimalIsBigEndian(n, k); }
    } else {
      var buf := new byte[k](_ => 0);
      var ws := WordsOf(n);
      ReadBits(ws, buf);
      forall i | 0 <= i < k && k - 1 - i >= WORD_BYTES * |ws|
        ensures ByteAt(n, k - 1 - i) == 0 && buf[i] == 0
      {
        ValueBound(ws);
        PowMono(WORD_BYTES * |ws|, k - 1 - i);
        DivModUnique(n, Pow256(k - 1 - i), 0, n);
      }
      r := buf[..];
      assert forall i | 0 <= i < k :: r[i] == BigEndian(n, k)[i];
    }
  }

  lemma {:induction false} ValueBound(ws: Words)
    ensures ValueOf(ws) < Pow256(WORD_BYTES * |ws|)
  {
    if ws != [] {
      ValueBound(ws[1..]);
      var p, q := Pow256(WORD_BYTES), Pow256(WORD_BYTES * |ws[1..]|);
      PowSum(WORD_BYTES, WORD_BYTES * |ws[1..]|);
      MulMono(ValueOf(ws[1..]) + 1, q, p);
      assert (ValueOf(ws[1..]) + 1) * p == p * ValueOf(ws[1..]) + p;
      assert q * p == p * q;
    }
  }

  /** `U256Bytes`: every integer, negative ones in two's complement, as one word. */
  method U256Bytes(n: int) returns (r: seq<byte>)
    ensures r == BigEndian(n, 32)
  {
    var low := n % Pow256(32);
    BigEndianMod(n, 32);
    r := PaddedBigBytes(low, 32);
  }
}

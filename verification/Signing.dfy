/** Signing a transaction and recovering its sender under the London signer.

    Hashing and public-key recovery are parameters.  What is proved is what reaches
    them: the same payload and the same 65 bytes that were signed.
 */
module Signing {
  import opened Common
  import opened Bytes
  import opened BigBytes

  const SIGNATURE_LENGTH: nat := 65
  const SECP256K1_N: nat := 0xfffffffffffffffffffffffffffffffe_baaedce6af48a03bbfd25e8cd0364141
  const SECP256K1_HALF_N: nat := SECP256K1_N / 2

  datatype SigError = InvalidSig | InvalidChainId | InvalidKey

  datatype Result<T> = Ok(value: T) | Err(error: SigError)

  datatype Kind = Legacy | AccessList | DynamicFee

  /** The contents of a transaction. */
  datatype Body = Body(nonce: nat, gasPrice: nat, tip: nat, feeCap: nat, gas: nat, to: Option<nat>, value: nat,
                       data: seq<byte>, accessList: seq<(nat, seq<nat>)>)

  datatype Tx = Tx(kind: Kind, chainId: nat, body: Body, v: nat, r: nat, s: nat)

  /** What is hashed: the fields that each transaction type lists, with or without a chain ID. */
  datatype Payload =
    | PlainPayload(nonce: nat, gasPrice: nat, gas: nat, to: Option<nat>, value: nat, data: seq<byte>)
    | ProtectedPayload(nonce: nat, gasPrice: nat, gas: nat, to: Option<nat>, value: nat, data: seq<byte>, chainId: nat)
    | AccessListPayload(chainId: nat, nonce: nat, gasPrice: nat, gas: nat, to: Option<nat>, value: nat, data: seq<byte>,
                        accessList: seq<(nat, seq<nat>)>)
    | DynamicFeePayload(chainId: nat, nonce: nat, tip: nat, feeCap: nat, gas: nat, to: Option<nat>, value: nat,
                        data: seq<byte>, accessList: seq<(nat, seq<nat>)>)

  /** `uint256.FromBig`: the low 256 bits. */
  function Word(n: int): nat {
    n % Pow256(32)
  }

  // ---------- signing ----------

  function Plain(b: Body): Payload {
    PlainPayload(b.nonce, b.gasPrice, b.gas, b.to, b.value, b.data)
  }

  /** `Hash` of the London signer for chain `id`, before hashing. */
  function PayloadOf(id: nat, tx: Tx): Payload {
    var b := tx.body;
    match tx.kind
    case Legacy => ProtectedPayload(b.nonce, b.gasPrice, b.gas, b.to, b.value, b.data, id)
    case AccessList => AccessListPayload(id, b.nonce, b.gasPrice, b.gas, b.to, b.value, b.data, b.accessList)
    case DynamicFee => DynamicFeePayload(id, b.nonce, b.tip, b.feeCap, b.gas, b.to, b.value, b.data, b.accessList)
  }

  datatype Values = Values(r: nat, s: nat, v: nat)

  /** `decodeSignature`; the last byte wraps. */
  function DecodeSignature(sig: seq<byte>): Values
    requires |sig| == SIGNATURE_LENGTH
  {
    var last: int := sig[64];
    Values(ToNat(sig[..32]), ToNat(sig[32..64]), (last + 27) % 256)
  }

  function SignatureValues(id: nat, tx: Tx, sig: seq<byte>): Result<Values>
    requires |sig| == SIGNATURE_LENGTH
  {
    var d, last: int := DecodeSignature(sig), sig[64];
    match tx.kind
    case Legacy => Ok(if id != 0 then d.(v := (last + 35) % 256 + 2 * id) else d)
    case _ =>
      if tx.chainId != 0 && tx.chainId != Word(id) then Err(InvalidChainId)
      else Ok(d.(v := sig[64]))
  }

  /** `WithSignature`: the typed transactions also get the signer's chain ID. */
  function WithSignature(id: nat, tx: Tx, sig: seq<byte>): Result<Tx>
    requires |sig| == SIGNATURE_LENGTH
  {
    match SignatureValues(id, tx, sig)
    case Err(e) => Err(e)
    case Ok(x) =>
      var signed := tx.(v := Word(x.v), r := Word(x.r), s := Word(x.s));
      Ok(if tx.kind == Legacy then signed else signed.(chainId := Word(id)))
  }

  // ---------- recovering ----------

  function DeriveChainId(v: nat): nat {
    if v < TWO64 then
      if v == 27 || v == 28 then 0 else (v - 35) % TWO64 / 2
    else Word(v - 35) / 2
  }

  /** `ChainId` of a transaction. */
  function ChainIdOf(tx: Tx): nat {
    if tx.kind == Legacy then DeriveChainId(tx.v) else tx.chainId
  }

  predicate IsProtectedV(v: nat) {
    v < 256 ==> v != 27 && v != 28 && v != 1 && v != 0
  }

  predicate ValidateSignatureValues(v: nat, r: nat, s: nat) {
    r != 0 && s != 0 && s <= SECP256K1_HALF_N && r < SECP256K1_N && s < SECP256K1_N && (v == 0 || v == 1)
  }

  function Abs(n: int): nat {
    if n < 0 then -n else n
  }

  /** What `recoverPlain` passes on for recovery, in the Homestead rules. */
  function RecoverInput(payload: Payload, r: nat, s: nat, vb: int): Result<(Payload, seq<byte>)> {
    if Abs(vb) >= 256 then Err(InvalidSig)
    else
      var v := (Abs(vb) - 27) % 256;
      if !ValidateSignatureValues(v, r, s) then Err(InvalidSig)
      else Ok((payload, BigEndian(r, 32) + BigEndian(s, 32) + [v]))
  }

  /** What `Sender` of the London signer for chain `id` passes on for recovery. */
  function SenderInput(id: nat, tx: Tx): Result<(Payload, seq<byte>)> {
    match tx.kind
    case Legacy =>
      if !IsProtectedV(tx.v) then RecoverInput(Plain(tx.body), tx.r, tx.s, tx.v)
      else if ChainIdOf(tx) != Word(id) then Err(InvalidChainId)
      else RecoverInput(PayloadOf(id, tx), tx.r, tx.s, tx.v - 2 * id - 8)
    case _ =>
      if ChainIdOf(tx) != Word(id) then Err(InvalidChainId)
      else RecoverInput(PayloadOf(id, tx), tx.r, tx.s, tx.v + 27)
  }

  // ---------- the round trip ----------

  /** A signature as the signing function makes them. */
  ghost predicate GoodSignature(sig: seq<byte>) {
    |sig| == SIGNATURE_LENGTH && ValidateSignatureValues(sig[64], ToNat(sig[..32]), ToNat(sig[32..64]))
  }

  /** Rebuilding gives the 65 bytes back. */
  lemma RecoverBack(payload: Payload, sig: seq<byte>)
    requires GoodSignature(sig)
    ensures RecoverInput(payload, Word(ToNat(sig[..32])), Word(ToNat(sig[32..64])), sig[64] + 27) == Ok((payload, sig))
  {
    hide BigEndian, ToNat, Word, Pow256;
    var r, s := sig[..32], sig[32..64];
    ToNatBound(r);
    ToNatBound(s);
    WordSame(ToNat(r));
    WordSame(ToNat(s));
    BigEndianToNat(r);
    BigEndianToNat(s);
    assert sig == r + s + [sig[64]];
  }

  /** For typed transactions the round trip always holds. */
  lemma TypedRoundTrip(id: nat, tx: Tx, sig: seq<byte>)
    requires GoodSignature(sig) && tx.kind != Legacy && (tx.chainId == 0 || tx.chainId == Word(id))
    ensures WithSignature(id, tx, sig).Ok?
    ensures var signed := WithSignature(id, tx, sig).value;
      SenderInput(id, signed) == Ok((PayloadOf(id, tx), sig)) && ChainIdOf(signed) == Word(id)
  {
    hide RecoverInput, GoodSignature, Word, Pow256;
    LastBit(sig);
    RecoverBack(PayloadOf(id, tx), sig);
    WordSmall(0);
    WordSmall(1);
  }

  lemma WordSmall(n: nat)
    ensures n < 65536 ==> Word(n) == n
  {
    PowMono(2, 32);
    assert Pow256(2) == 65536;
    if n < 65536 { DivModUnique(n, Pow256(32), 0, n); }
  }

  /** The recovery value of a signed legacy transaction fits. */
  ghost predicate Fits(id: nat, sig: seq<byte>)
    requires |sig| == SIGNATURE_LENGTH
  {
    2 * id + 35 + sig[64] < Pow256(32)
  }

  lemma LegacyFits(id: nat, tx: Tx, sig: seq<byte>)
    requires GoodSignature(sig) && tx.kind == Legacy && id != 0 && Fits(id, sig)
    ensures var signed := WithSignature(id, tx, sig).value;
      && WithSignature(id, tx, sig).Ok? && SenderInput(id, signed) == Ok((PayloadOf(id, tx), sig))
      && ChainIdOf(signed) == id
  {
    hide RecoverInput, GoodSignature, Word, Pow256, DeriveChainId, IsProtectedV;
    LastBit(sig);
    var v: int := 2 * id + 35 + sig[64];
    WordSame(v);
    WordSame(id);
    DerivesBack(id, v);
    RecoverBack(PayloadOf(id, tx), sig);
  }

  lemma WordSame(n: nat)
    requires n < Pow256(32)
    ensures Word(n) == n
  {
    DivModUnique(n, Pow256(32), 0, n);
  }

  lemma LastBit(sig: seq<byte>)
    requires GoodSignature(sig)
    ensures |sig| == SIGNATURE_LENGTH && (sig[64] == 0 || sig[64] == 1)
  {
  }

  lemma DerivesBack(id: nat, v: nat)
    requires id != 0 && (v == 2 * id + 35 || v == 2 * id + 36) && v < Pow256(32)
    ensures DeriveChainId(v) == id && IsProtectedV(v)
  {
    hide Pow256;
    DivModUnique(v - 35, Pow256(32), 0, v - 35);
    if v < TWO64 { DivModUnique(v - 35, TWO64, 0, v - 35); }
  }

  /** Without protection, the payload is another one. */
  lemma PlainDiffers(id: nat, tx: Tx, r: nat, s: nat, v: nat, sig: seq<byte>)
    requires tx.kind == Legacy
    ensures RecoverInput(Plain(tx.body), r, s, v) != Ok((PayloadOf(id, tx), sig))
  {
  }

  lemma BigWord()
    ensures Pow256(32) >= 65536
  {
    PowMono(2, 32);
    assert Pow256(2) == 65536;
  }

  lemma LegacyFails(id: nat, tx: Tx, sig: seq<byte>)
    requires GoodSignature(sig) && tx.kind == Legacy && (id == 0 || !Fits(id, sig))
    ensures WithSignature(id, tx, sig).Ok?
    ensures SenderInput(id, WithSignature(id, tx, sig).value) != Ok((PayloadOf(id, tx), sig))
  {
    hide GoodSignature, RecoverInput, Word, DeriveChainId, Pow256;
    LastBit(sig);
    var signed := WithSignature(id, tx, sig).value;
    PlainDiffers(id, signed, signed.r, signed.s, signed.v, sig);
    if id == 0 {
      WordSmall(27);
      WordSmall(28);
    } else {
      var full: int := 2 * id + 35 + sig[64];
      WordDrops(full);
      FarOff(PayloadOf(id, signed), signed.r, signed.s, signed.v - 2 * id - 8);
    }
  }

  lemma WordDrops(n: nat)
    requires n >= Pow256(32)
    ensures Word(n) <= n - Pow256(32)
  {
    hide Pow256;
    ModDrops(n, Pow256(32));
  }

  lemma ModDrops(n: nat, m: nat)
    requires n >= m > 0
    ensures n % m <= n - m
  {
    var q, r := (n - m) / m, (n - m) % m;
    assert n == (q + 1) * m + r;
    DivModUnique(n, m, q + 1, r);
    assert n - m == q * m + r;
    MulMono(0, q, m);
  }

  lemma FarOff(payload: Payload, r: nat, s: nat, vb: int)
    requires vb <= 28 - Pow256(32)
    ensures RecoverInput(payload, r, s, vb) == Err(InvalidSig)
  {
    BigWord();
  }

  /** A transaction is signed unless it is typed and names another chain. */
  ghost predicate Signable(id: nat, tx: Tx) {
    tx.kind == Legacy || tx.chainId == 0 || tx.chainId == Word(id)
  }

  /** Signing changes nothing but the signature, and the chain ID of a typed transaction. */
  ghost predicate OnlySigned(id: nat, tx: Tx, signed: Tx) {
    && signed.body == tx.body && signed.kind == tx.kind
    && signed.chainId == if tx.kind == Legacy then tx.chainId else Word(id)
  }

  /** The chain ID of the signature survives: always in a typed transaction, and in a legacy one
      if it is not zero and the recovery value fits in a word. */
  ghost predicate Protected(id: nat, tx: Tx, sig: seq<byte>)
    requires |sig| == SIGNATURE_LENGTH
  {
    tx.kind == Legacy ==> id != 0 && Fits(id, sig)
  }

  /** Signing and then recovering under one London signer hands the recovery the payload and the
      65 bytes that were signed, exactly when the signature is protected. */
  lemma SignRecover(id: nat, tx: Tx, sig: seq<byte>)
    requires GoodSignature(sig)
    ensures WithSignature(id, tx, sig) == Err(InvalidChainId) || WithSignature(id, tx, sig).Ok?
    ensures WithSignature(id, tx, sig).Ok? <==> Signable(id, tx)
    ensures Signable(id, tx) ==> OnlySigned(id, tx, WithSignature(id, tx, sig).value)
    ensures Signable(id, tx) ==>
      (SenderInput(id, WithSignature(id, tx, sig).value) == Ok((PayloadOf(id, tx), sig)) <==> Protected(id, tx, sig))
  {
    SignedWhen(id, tx, sig);
    hide WithSignature, SenderInput, Fits;
    if tx.kind != Legacy {
      if Signable(id, tx) { TypedRoundTrip(id, tx, sig); }
    } else if id != 0 && Fits(id, sig) {
      LegacyFits(id, tx, sig);
    } else {
      LegacyFails(id, tx, sig);
    }
  }

  lemma SignedWhen(id: nat, tx: Tx, sig: seq<byte>)
    requires |sig| == SIGNATURE_LENGTH
    ensures WithSignature(id, tx, sig) == Err(InvalidChainId) || WithSignature(id, tx, sig).Ok?
    ensures WithSignature(id, tx, sig).Ok? <==> Signable(id, tx)
    ensures Signable(id, tx) ==> OnlySigned(id, tx, WithSignature(id, tx, sig).value)
  {
  }

  /** A protected signature for one chain is refused by the signer of every other one. */
  lemma ReplayRefused(id: nat, other: nat, tx: Tx, sig: seq<byte>)
    requires GoodSignature(sig) && Signable(id, tx) && Protected(id, tx, sig)
    ensures WithSignature(id, tx, sig).Ok?
    ensures SenderInput(other, WithSignature(id, tx, sig).value) == Err(InvalidChainId) <==> Word(other) != Word(id)
  {
    hide RecoverInput, GoodSignature, Word, Pow256, DeriveChainId, IsProtectedV;
    LastBit(sig);
    var signed := WithSignature(id, tx, sig).value;
    if tx.kind == Legacy {
      var v: int := 2 * id + 35 + sig[64];
      WordSame(v);
      WordSame(id);
      DerivesBack(id, v);
      OtherError(PayloadOf(other, signed), signed.r, signed.s, signed.v - 2 * other - 8);
    } else {
      OtherError(PayloadOf(other, signed), signed.r, signed.s, signed.v + 27);
    }
  }

  lemma OtherError(payload: Payload, r: nat, s: nat, vb: int)
    ensures RecoverInput(payload, r, s, vb) != Err(InvalidChainId)
  {
  }

  /** A legacy signature for chain zero recovers under every signer, with the plain payload. */
  lemma PlainReplays(other: nat, tx: Tx, sig: seq<byte>)
    requires GoodSignature(sig) && tx.kind == Legacy
    ensures WithSignature(0, tx, sig).Ok?
    ensures SenderInput(other, WithSignature(0, tx, sig).value) == Ok((Plain(tx.body), sig))
  {
    hide RecoverInput, GoodSignature, Word, Pow256;
    LastBit(sig);
    WordSmall(27);
    WordSmall(28);
    RecoverBack(Plain(tx.body), sig);
  }

  // ---------- the code around recovery ----------

  method CopyInto(buf: array<byte>, at: nat, src: seq<byte>)
    requires at + |src| <= buf.Length
    modifies buf
    ensures buf[at..at + |src|] == src
    ensures forall i | 0 <= i < at || at + |src| <= i < buf.Length :: buf[i] == old(buf[i])
  {
    for i := 0 to |src|
      invariant forall k | 0 <= k < i :: buf[at + k] == src[k]
      invariant forall k | 0 <= k < at || at + |src| <= k < buf.Length :: buf[k] == old(buf[k])
    {
      buf[at + i] := src[i];
    }
  }

  lemma {:induction false} MinimalPadded(n: nat, k: nat)
    requires n < Pow256(k)
    ensures |MinimalBytes(n)| <= k && BigEndian(n, k) == Zeros(k - |MinimalBytes(n)|) + MinimalBytes(n)
  {
    if n == 0 {
      BigEndianPadded(0, k, 0);
    } else {
      MinimalPadded(n / 256, k - 1);
      BigEndianStep(n, k);
    }
  }

  /** The buffer of `recoverPlain`: the two numbers right-aligned in 32 bytes each, and the bit. */
  method EncodeSignature(r: nat, s: nat, v: byte) returns (sig: seq<byte>)
    requires r < Pow256(32) && s < Pow256(32)
    ensures sig == BigEndian(r, 32) + BigEndian(s, 32) + [v]
  {
    hide BigEndian, Pow256;
    var rb, sb := MinimalBytes(r), MinimalBytes(s);
    MinimalPadded(r, 32);
    MinimalPadded(s, 32);
    var buf := new byte[SIGNATURE_LENGTH](_ => 0);
    CopyInto(buf, 32 - |rb|, rb);
    CopyInto(buf, 64 - |sb|, sb);
    buf[64] := v;
    sig := buf[..];
    assert sig[..32] == Zeros(32 - |rb|) + rb;
    assert sig[32..64] == Zeros(32 - |sb|) + sb;
    assert sig == sig[..32] + sig[32..64] + [sig[64]];
  }

  /** `recoverPlain` up to the recovery itself. */
  method RecoverPlain(payload: Payload, r: nat, s: nat, vb: int) returns (input: Result<(Payload, seq<byte>)>)
    requires r < Pow256(32) && s < Pow256(32)
    ensures input == RecoverInput(payload, r, s, vb)
  {
    hide Pow256, BigEndian;
    if Abs(vb) >= 256 { return Err(InvalidSig); }
    var v := (Abs(vb) - 27) % 256;
    if !ValidateSignatureValues(v, r, s) { return Err(InvalidSig); }
    var sig := EncodeSignature(r, s, v);
    return Ok((payload, sig));
  }

  /** The sender of a transaction: what was passed on for recovery, recovered. */
  function SenderOf(id: nat, tx: Tx, hash: Payload -> nat, recover: (nat, seq<byte>) -> Option<nat>): Result<nat> {
    match SenderInput(id, tx)
    case Err(e) => Err(e)
    case Ok(input) =>
      match recover(hash(input.0), input.1)
      case None => Err(InvalidKey)
      case Some(address) => Ok(address)
  }

  /** A transaction with the sender that was derived last and the chain it was derived for. */
  class Transaction {
    const inner: Tx
    const hash: Payload -> nat
    const recover: (nat, seq<byte>) -> Option<nat>
    var from: Option<(nat, nat)>

    constructor (inner: Tx, hash: Payload -> nat, recover: (nat, seq<byte>) -> Option<nat>)
      ensures Valid() && this.inner == inner && this.hash == hash && this.recover == recover
    {
      this.inner, this.hash, this.recover, from := inner, hash, recover, None;
    }

    ghost predicate Valid()
      reads this
    {
      from.Some? ==> SenderOf(from.value.0, inner, hash, recover) == Ok(from.value.1)
    }

    /** `Sender`: the cache never changes the answer. */
    method Sender(id: nat) returns (r: Result<nat>)
      requires Valid()
      modifies this
      ensures Valid() && r == SenderOf(id, inner, hash, recover)
    {
      if from.Some? && from.value.0 == id { return Ok(from.value.1); }
      r := SenderOf(id, inner, hash, recover);
      if r.Ok? { from := Some((id, r.value)); }
    }
  }

  /** If recovery undoes signing, then the sender of a signed transaction is who signed it. */
  lemma SenderIsSigner(id: nat, tx: Tx, sig: seq<byte>, address: nat, hash: Payload -> nat,
                       recover: (nat, seq<byte>) -> Option<nat>)
    requires GoodSignature(sig) && recover(hash(PayloadOf(id, tx)), sig) == Some(address)
    requires if tx.kind == Legacy then id != 0 && Fits(id, sig) else tx.chainId == 0 || tx.chainId == Word(id)
    ensures WithSignature(id, tx, sig).Ok? && SenderOf(id, WithSignature(id, tx, sig).value, hash, recover) == Ok(address)
  {
    hide WithSignature, SenderInput, Fits, GoodSignature, PayloadOf;
    SignRecover(id, tx, sig);
  }
}

/** What a signature covers, and which signatures a signer accepts. */
module SignedContent {
  import opened Common
  import opened Bytes
  import opened Signing

  // ---------- what is signed ----------

  /** Every part of a payload is the part of the transaction with that name. */
  lemma PayloadFields(id: nat, tx: Tx)
    ensures var p, b := PayloadOf(id, tx), tx.body;
      && p.nonce == b.nonce && p.gas == b.gas && p.to == b.to && p.value == b.value && p.data == b.data && p.chainId == id
      && match tx.kind
         case Legacy => p.ProtectedPayload? && p.gasPrice == b.gasPrice
         case AccessList => p.AccessListPayload? && p.gasPrice == b.gasPrice && p.accessList == b.accessList
         case DynamicFee =>
           p.DynamicFeePayload? && p.tip == b.tip && p.feeCap == b.feeCap && p.accessList == b.accessList
    ensures var p, b := Plain(tx.body), tx.body;
      && p.PlainPayload? && p.nonce == b.nonce && p.gasPrice == b.gasPrice && p.gas == b.gas && p.to == b.to
      && p.value == b.value && p.data == b.data
  {
  }

  /** The two transactions ask for the same thing, on the same chain. */
  ghost predicate SameRequest(id: nat, t: Tx, id': nat, t': Tx) {
    && id == id' && t.kind == t'.kind && SameCall(t.body, t'.body)
    && (t.kind != DynamicFee ==> t.body.gasPrice == t'.body.gasPrice)
    && (t.kind == DynamicFee ==> t.body.tip == t'.body.tip && t.body.feeCap == t'.body.feeCap)
    && (t.kind != Legacy ==> t.body.accessList == t'.body.accessList)
  }

  ghost predicate SameCall(b: Body, b': Body) {
    b.nonce == b'.nonce && b.gas == b'.gas && b.to == b'.to && b.value == b'.value && b.data == b'.data
  }

  /** The payload determines chain, kind and everything that the kind of transaction says. */
  lemma PayloadDetermines(id: nat, t: Tx, id': nat, t': Tx)
    ensures PayloadOf(id, t) == PayloadOf(id', t') <==> SameRequest(id, t, id', t')
    ensures Plain(t.body) == Plain(t'.body) <==> SameCall(t.body, t'.body) && t.body.gasPrice == t'.body.gasPrice
    ensures Plain(t.body) != PayloadOf(id', t')
  {
    PayloadFields(id, t);
    PayloadFields(id', t');
  }

  predicate Unprotected(tx: Tx) {
    tx.kind == Legacy && (tx.v == 27 || tx.v == 28)
  }

  // ---------- what is accepted ----------

  const CURVE_ORDER: nat := 0xfffffffffffffffffffffffffffffffe_baaedce6af48a03bbfd25e8cd0364141
  const HALF_ORDER: nat := 0x7fffffffffffffffffffffffffffffff_5d576e7357a4501ddfe92f46681b20a0

  /** Both numbers are in range, the second one in the lower half, and the recovery value is that of an
      old signature, of the chain, or of a typed transaction for the chain. */
  ghost predicate Accepts(id: nat, tx: Tx) {
    && 0 < tx.r < CURVE_ORDER && 0 < tx.s <= HALF_ORDER
    && if tx.kind == Legacy then tx.v == 27 || tx.v == 28 || tx.v == 2 * id + 35 || tx.v == 2 * id + 36
       else tx.chainId == Word(id) && (tx.v == 0 || tx.v == 1)
  }

  /** 0 or 1, as the recovery value says. */
  ghost function Parity(tx: Tx): byte {
    if tx.kind == Legacy then (tx.v + 1) % 2 else tx.v % 2
  }

  lemma Halves()
    ensures SECP256K1_N == CURVE_ORDER && SECP256K1_HALF_N == HALF_ORDER && CURVE_ORDER == 2 * HALF_ORDER + 1
  {
  }

  /** What reaches recovery does so with a recovery value of 27 or 28, or of -27 or -28. */
  lemma RecoverAccepts(payload: Payload, r: nat, s: nat, vb: int)
    ensures RecoverInput(payload, r, s, vb) ==
      if 0 < r < CURVE_ORDER && 0 < s <= HALF_ORDER && (Abs(vb) == 27 || Abs(vb) == 28)
      then Ok((payload, BigEndian(r, 32) + BigEndian(s, 32) + [Abs(vb) - 27])) else Err(InvalidSig)
  {
    hide BigEndian;
    Halves();
    if Abs(vb) < 27 {
      DivModUnique(Abs(vb) - 27, 256, -1, Abs(vb) + 229);
    } else if Abs(vb) < 256 {
      DivModUnique(Abs(vb) - 27, 256, 0, Abs(vb) - 27);
    }
  }

  /** A negative recovery value never comes with the right chain ID. */
  lemma NoNegative(id: nat, v: nat)
    requires v < Pow256(32) && v + 19 <= 2 * id <= v + 20 && v != 27 && v != 28
    ensures DeriveChainId(v) != Word(id)
  {
    hide Pow256;
    BigWord();
    Roomy();
    WordSame(id);
    if v >= 35 {
      DivModUnique(v - 35, Pow256(32), 0, v - 35);
      if v < TWO64 { DivModUnique(v - 35, TWO64, 0, v - 35); }
    } else {
      DivModUnique(v - 35, TWO64, -1, TWO64 + v - 35);
    }
  }

  lemma Roomy()
    ensures Pow256(32) >= 2 * TWO64
  {
    PowMono(9, 32);
    assert Pow256(8) == TWO64;
    assert Pow256(9) == 256 * Pow256(8);
  }

  /** The chain ID of a legacy transaction, for every recovery value: that of the chain from 35 on, zero
      for an old signature, and an impossible one for the other small values. */
  lemma DerivedChain(v: nat)
    requires v < Pow256(32)
    ensures DeriveChainId(v) ==
      if v >= 35 then (v - 35) / 2 else if v == 27 || v == 28 then 0 else (0xffff_ffff_ffff_ffff - 34 + v) / 2
  {
    hide Pow256;
    if v >= 35 {
      DivModUnique(v - 35, Pow256(32), 0, v - 35);
      if v < TWO64 { DivModUnique(v - 35, TWO64, 0, v - 35); }
    } else {
      DivModUnique(v - 35, TWO64, -1, TWO64 + v - 35);
    }
  }

  /** A signer reports the chain ID exactly if it is to blame: a typed transaction of another chain, or a
      protected legacy one. */
  lemma WrongChain(id: nat, tx: Tx)
    ensures SenderInput(id, tx) == Err(InvalidChainId) <==>
      if tx.kind == Legacy then tx.v != 0 && tx.v != 1 && tx.v != 27 && tx.v != 28 && DeriveChainId(tx.v) != Word(id)
      else tx.chainId != Word(id)
  {
    hide RecoverInput, Word, DeriveChainId, PayloadOf, Plain;
    OtherError(Plain(tx.body), tx.r, tx.s, tx.v);
    OtherError(PayloadOf(id, tx), tx.r, tx.s, tx.v - 2 * id - 8);
    OtherError(PayloadOf(id, tx), tx.r, tx.s, tx.v + 27);
  }

  /** The numbers that signing writes, for any 65 bytes: both numbers as they are, and the last byte with
      an offset that wraps within a byte. */
  lemma SignedNumbers(id: nat, tx: Tx, sig: seq<byte>)
    requires |sig| == SIGNATURE_LENGTH && Signable(id, tx) && 2 * id + 256 <= Pow256(32)
    ensures WithSignature(id, tx, sig).Ok?
    ensures var signed := WithSignature(id, tx, sig).value;
      && signed.r == ToNat(sig[..32]) && signed.s == ToNat(sig[32..64])
      && if tx.kind != Legacy then signed.v == sig[64]
         else 2 * id <= signed.v < 2 * id + 256 && (signed.v - 2 * id - sig[64] - if id == 0 then 27 else 35) % 256 == 0
  {
    hide ToNat, Pow256;
    ToNatBound(sig[..32]);
    ToNatBound(sig[32..64]);
    var last: int := sig[64];
    var offset := if id == 0 then 27 else 35;
    Offset(last, offset);
    var v: nat := if tx.kind != Legacy then last else 2 * id + (last + offset) % 256;
    WordSame(v);
    WordSame(ToNat(sig[..32]));
    WordSame(ToNat(sig[32..64]));
  }

  lemma Offset(last: int, offset: int)
    requires 0 <= last < 256 && 0 <= offset < 256
    ensures ((last + offset) % 256 - last - offset) % 256 == 0
  {
    if last + offset < 256 {
      DivModUnique(last + offset, 256, 0, last + offset);
    } else {
      DivModUnique(last + offset, 256, 1, last + offset - 256);
    }
  }

  lemma ChainOfV(id: nat, v: nat)
    requires v < Pow256(32) && (v == 2 * id + 35 || v == 2 * id + 36)
    ensures DeriveChainId(v) == Word(id)
  {
    hide Pow256;
    WordSame(id);
    DivModUnique(v - 35, Pow256(32), 0, v - 35);
    if v < TWO64 { DivModUnique(v - 35, TWO64, 0, v - 35); }
  }

  /** A signer hands on exactly the transactions it accepts, with their payload and the signature. */
  lemma SenderAccepts(id: nat, tx: Tx)
    requires tx.v < Pow256(32)
    ensures SenderInput(id, tx).Ok? <==> Accepts(id, tx)
    ensures Accepts(id, tx) ==>
      var payload := if Unprotected(tx) then Plain(tx.body) else PayloadOf(id, tx);
      SenderInput(id, tx) == Ok((payload, BigEndian(tx.r, 32) + BigEndian(tx.s, 32) + [Parity(tx)]))
  {
    hide RecoverInput, BigEndian, Word, Pow256, DeriveChainId, Plain, PayloadOf;
    var v := tx.v;
    if tx.kind != Legacy {
      RecoverAccepts(PayloadOf(id, tx), tx.r, tx.s, v + 27);
    } else if !IsProtectedV(v) {
      RecoverAccepts(Plain(tx.body), tx.r, tx.s, v);
    } else {
      RecoverAccepts(PayloadOf(id, tx), tx.r, tx.s, v - 2 * id - 8);
      if v == 2 * id + 35 || v == 2 * id + 36 {
        ChainOfV(id, v);
      } else if v + 19 == 2 * id || v + 20 == 2 * id {
        NoNegative(id, v);
      }
    }
  }

  /** Of the two signatures that fit a message on the curve, a signer accepts one only. */
  lemma OtherHalfRefused(id: nat, tx: Tx, v: nat)
    requires Accepts(id, tx)
    ensures !Accepts(id, tx.(s := CURVE_ORDER - tx.s, v := v))
  {
  }

  // ---------- a signature on another transaction ----------

  /** A signature moved to a transaction that asks for something else reaches recovery with another
      payload, whatever signer looks at it. */
  lemma MovedSignature(id: nat, t: Tx, id': nat, t': Tx)
    requires t.v < Pow256(32) && t'.v < Pow256(32) && Accepts(id, t) && Accepts(id', t')
    ensures SenderInput(id, t).Ok? && SenderInput(id', t').Ok?
    ensures SenderInput(id, t).value.0 == SenderInput(id', t').value.0 <==>
      (Unprotected(t) <==> Unprotected(t')) &&
      if Unprotected(t) then SameCall(t.body, t'.body) && t.body.gasPrice == t'.body.gasPrice else SameRequest(id, t, id', t')
  {
    hide Accepts, SenderInput, PayloadOf, Plain, SameRequest, SameCall, BigEndian, Pow256;
    SenderAccepts(id, t);
    SenderAccepts(id', t');
    PayloadDetermines(id, t, id', t');
    PayloadDetermines(id', t', id, t);
  }
}

/** The codec as a whole: what unpacking makes of a packed list of arguments. */
module Abi {
  import opened Common
  import opened Bytes
  import opened AbiTypes
  import opened AbiCodec
  import opened AbiPack
  import opened AbiUnpack
  import opened AbiRoundTrip

  predicate NoneIndexed(args: seq<Argument>) {
    forall i | 0 <= i < |args| :: !args[i].indexed
  }

  predicate AllZeroFree(args: seq<Argument>) {
    forall i | 0 <= i < |args| :: ZeroFree(args[i].typ)
  }

  /** A packed argument list that a Go slice can hold. */
  predicate Packable(args: seq<Argument>, vs: seq<Value>) {
    && AllWellFormed(Types(args)) && HasTypes(Types(args), vs)
    && |Block(Types(args), vs)| < TWO63
  }

  lemma {:induction false} DecodeSeqLength(ts: seq<Type>, pos: nat, output: seq<byte>)
    requires AllWellFormed(ts) && DecodeSeq(ts, pos, output).Ok?
    ensures |DecodeSeq(ts, pos, output).value| == |ts|
    decreases ts
  {
    hide Decode, WellFormed, TypeSize;
    if ts != [] { DecodeSeqLength(ts[1..], pos + TypeSize(ts[0]), output); }
  }

  /** Unpacking what was packed: the values come back, with numbers cut to their width,
      when the decoder has the room it asks for, and an error comes back otherwise. */
  lemma UnpackPacked(args: seq<Argument>, vs: seq<Value>)
    requires Packable(args, vs) && NoneIndexed(args)
    ensures var ts := Types(args); var data := Block(ts, vs);
            Unpacked(args, data) == Outcome(FitsSeq(ts, vs, 0, HeadSize(ts), |data|), NormSeq(ts, vs))
  {
    hide HasType, WellFormed, Block, DecodeSeq, FitsSeq, NormSeq;
    var ts := Types(args);
    NonIndexedMembers(args);
    BlockBack(ts, vs, Block(ts, vs));
  }

  /** The round trip holds exactly when no argument is indexed, every number is in
      the range of its type, and the zero-width parts leave enough room. */
  lemma RoundTrip(args: seq<Argument>, vs: seq<Value>)
    requires Packable(args, vs)
    ensures var ts := Types(args); var data := Block(ts, vs);
            Unpacked(args, data) == Ok(vs) <==>
            NoneIndexed(args) && InRangeSeq(ts, vs) && FitsSeq(ts, vs, 0, HeadSize(ts), |data|)
  {
    hide HasType, WellFormed, Block, DecodeSeq, FitsSeq, NormSeq, InRangeSeq;
    var ts := Types(args);
    var data := Block(ts, vs);
    if NoneIndexed(args) {
      UnpackPacked(args, vs);
      NormSeqInRange(ts, vs);
    } else if Unpacked(args, data).Ok? {
      NonIndexedWellFormed(args);
      NonIndexedMembers(args);
      DecodeSeqLength(Types(NonIndexed(args)), 0, data);
    }
  }

  /** Without zero-width parts, being in range is all it takes. */
  lemma RoundTripZeroFree(args: seq<Argument>, vs: seq<Value>)
    requires Packable(args, vs) && NoneIndexed(args) && AllZeroFree(args)
    ensures Unpacked(args, Block(Types(args), vs)) == Ok(vs) <==> InRangeSeq(Types(args), vs)
  {
    hide HasType, WellFormed, DecodeSeq, FitsSeq, NormSeq, InRangeSeq, ZeroFree, Heads, Tails;
    var ts := Types(args);
    HeadsSize(ts, vs, HeadSize(ts));
    ZeroFreeFitsSeq(ts, vs, 0, HeadSize(ts), |Block(ts, vs)|);
    RoundTrip(args, vs);
  }

  /** Two argument lists with the same encoding are the same. */
  lemma PackInjective(args: seq<Argument>, vs: seq<Value>, ws: seq<Value>)
    requires NoneIndexed(args) && AllZeroFree(args)
    requires Packable(args, vs) && InRangeSeq(Types(args), vs)
    requires Packable(args, ws) && InRangeSeq(Types(args), ws)
    requires Block(Types(args), vs) == Block(Types(args), ws)
    ensures vs == ws
  {
    hide HasType, WellFormed, Block, InRangeSeq, ZeroFree;
    RoundTripZeroFree(args, vs);
    RoundTripZeroFree(args, ws);
  }

  /** Whatever the bytes were, unpacking them, packing the result and unpacking again
      changes nothing. */
  lemma UnpackStable(args: seq<Argument>, data: seq<byte>)
    requires NoneIndexed(args) && AllZeroFree(args) && AllWellFormed(Types(args))
    requires Unpacked(args, data).Ok?
    ensures var vs := Unpacked(args, data).value;
            HasTypes(Types(args), vs) &&
            (Packable(args, vs) ==> Unpacked(args, Block(Types(args), vs)) == Ok(vs))
  {
    hide HasType, WellFormed, Block, InRangeSeq, ZeroFree;
    NonIndexedMembers(args);
    DecodedSeqTyped(Types(args), 0, data);
    if Packable(args, Unpacked(args, data).value) {
      RoundTripZeroFree(args, Unpacked(args, data).value);
    }
  }

  /** A single argument of type `uint256[0]` packs to nothing and does not unpack. */
  lemma EmptyArrayFails()
    ensures var args := [Argument(ArrayTy(UintTy(256), 0), false)];
            var vs := [List([])];
            Packable(args, vs) && Block(Types(args), vs) == [] && Unpacked(args, []) == Err
  {
    var args := [Argument(ArrayTy(UintTy(256), 0), false)];
    assert Types(args) == [ArrayTy(UintTy(256), 0)];
    assert NonIndexed(args) == args;
  }
}

/** The two directions of the codec as functions.

    `Encode` follows the section "Formal Specification of the Encoding" of the
    Solidity Contract ABI Specification: a block of components is the concatenation
    of their heads followed by the concatenation of their tails.  `Decode` chases
    the offsets found in the buffer.  The loops that the program runs are in the
    modules `AbiPack` and `AbiUnpack`, which are proved equal to these functions.
 */
module AbiCodec {
  import opened Common
  import opened Bytes
  import opened AbiTypes

  function Word(n: int): (r: seq<byte>) {
    BigEndian(n, 32)
  }

  // ---------- encoding ----------

  /** `packBytesSlice`: the length, then the bytes padded to whole words. */
  function PackBytes(b: seq<byte>): (r: seq<byte>)
    ensures |r| == 32 + (|b| + 31) / 32 * 32
    ensures |r| >= 32 + |b| && r[..32] == Word(|b|) && r[32..32 + |b|] == b
    ensures forall i | 32 + |b| <= i < |r| :: r[i] == 0
  {
    Word(|b|) + (b + Zeros((|b| + 31) / 32 * 32 - |b|))
  }

  function Encode(t: Type, v: Value): (r: seq<byte>)
    requires WellFormed(t) && HasType(t, v)
    decreases v
  {
    match t
    case IntTy(_) => Word(v.n)
    case UintTy(_) => Word(v.n)
    case BoolTy => Word(if v.b then 1 else 0)
    case StringTy => PackBytes(v.bytes)
    case BytesTy => PackBytes(v.bytes)
    case FixedBytesTy(k) => v.bytes + Zeros(32 - k)
    case FunctionTy => v.bytes + Zeros(8)
    case AddressTy => Zeros(12) + v.bytes
    case SliceTy(e) => Word(|v.items|) + Block(Repeat(e, |v.items|), v.items)
    case ArrayTy(e, n) => Block(Repeat(e, n), v.items)
    case TupleTy(ts) => Block(ts, v.items)
  }

  predicate Encodable(ts: seq<Type>, vs: seq<Value>) {
    HasTypes(ts, vs) && forall i | 0 <= i < |ts| :: WellFormed(ts[i])
  }

  /** `head(X(1)) ... head(X(k)) tail(X(1)) ... tail(X(k))` */
  function Block(ts: seq<Type>, vs: seq<Value>): (r: seq<byte>)
    requires Encodable(ts, vs)
    decreases vs, 1
  {
    Heads(ts, vs, HeadSize(ts)) + Tails(ts, vs)
  }

  function Heads(ts: seq<Type>, vs: seq<Value>, offset: nat): (r: seq<byte>)
    requires Encodable(ts, vs)
    decreases vs, 0
  {
    if ts == [] then []
    else if IsDynamic(ts[0]) then
      Word(offset) + Heads(ts[1..], vs[1..], offset + |Encode(ts[0], vs[0])|)
    else
      Encode(ts[0], vs[0]) + Heads(ts[1..], vs[1..], offset)
  }

  function Tails(ts: seq<Type>, vs: seq<Value>): (r: seq<byte>)
    requires Encodable(ts, vs)
    decreases vs, 0
  {
    if ts == [] then []
    else (if IsDynamic(ts[0]) then Encode(ts[0], vs[0]) else []) + Tails(ts[1..], vs[1..])
  }

  /** A static value is encoded in exactly `TypeSize` bytes. */
  lemma {:induction false} StaticSize(t: Type, v: Value)
    requires WellFormed(t) && HasType(t, v) && !IsDynamic(t)
    ensures |Encode(t, v)| == TypeSize(t)
    decreases v
  {
    match t
    case ArrayTy(e, n) =>
      HeadsSize(Repeat(e, n), v.items, HeadSize(Repeat(e, n)));
      StaticTails(Repeat(e, n), v.items);
      HeadSizeRepeat(e, n);
    case TupleTy(ts) =>
      HeadsSize(ts, v.items, HeadSize(ts));
      StaticTails(ts, v.items);
    case _ =>
  }

  /** The heads of a block take `HeadSize` bytes, whatever the offsets are. */
  lemma {:induction false} HeadsSize(ts: seq<Type>, vs: seq<Value>, offset: nat)
    requires Encodable(ts, vs)
    ensures |Heads(ts, vs, offset)| == HeadSize(ts)
    decreases vs
  {
    if ts != [] {
      if IsDynamic(ts[0]) {
        HeadsSize(ts[1..], vs[1..], offset + |Encode(ts[0], vs[0])|);
      } else {
        StaticSize(ts[0], vs[0]);
        HeadsSize(ts[1..], vs[1..], offset);
      }
    }
  }

  lemma {:induction false} StaticTails(ts: seq<Type>, vs: seq<Value>)
    requires Encodable(ts, vs) && forall i | 0 <= i < |ts| :: !IsDynamic(ts[i])
    ensures Tails(ts, vs) == []
  {
    if ts != [] { StaticTails(ts[1..], vs[1..]); }
  }

  // ---------- decoding ----------

  /** `S256` on a number of `k` bytes. */
  function Signed(x: int, k: nat): int {
    if 2 * x < Pow256(k) then x else x - Pow256(k)
  }

  /** What encoding and decoding make of a number: it is cut to the width of its type. */
  function Wrapped(t: Type, n: int): int
    requires t.IntTy? || t.UintTy?
  {
    var x := n % Pow256(Width(t.size));
    if t.IntTy? then Signed(x, Width(t.size)) else x
  }

  function ReadInteger(t: Type, word: seq<byte>): int
    requires (t.IntTy? || t.UintTy?) && |word| == 32
  {
    var k := Width(t.size);
    var x := ToNat(word[32 - k..]);
    if t.IntTy? then Signed(x, k) else x
  }

  function ReadBool(word: seq<byte>): Result<Value>
    requires |word| == 32
  {
    if exists i | 0 <= i < 31 :: word[i] != 0 then Err
    else if word[31] == 0 then Ok(Bool(false))
    else if word[31] == 1 then Ok(Bool(true))
    else Err
  }

  function ReadFunction(word: seq<byte>): Result<Value>
    requires |word| == 32
  {
    if ToNat(word[24..]) != 0 then Err else Ok(Data(word[..24]))
  }

  /** Where the payload of a length-prefixed value begins, and its length. */
  function LengthPrefixPointsTo(index: nat, output: seq<byte>): (r: Result<(nat, nat)>)
    requires index + 32 <= |output|
    ensures r.Ok? ==> r.value.0 + r.value.1 <= |output|
  {
    var offsetEnd := ToNat(output[index..index + 32]) + 32;
    if offsetEnd > |output| || offsetEnd >= TWO63 then Err
    else
      var length := ToNat(output[offsetEnd - 32..offsetEnd]);
      if offsetEnd + length >= TWO63 || offsetEnd + length > |output| then Err
      else Ok((offsetEnd, length))
  }

  function TuplePointsTo(index: nat, output: seq<byte>): (r: Result<nat>)
    requires index + 32 <= |output|
    ensures r.Ok? ==> r.value <= |output|
  {
    var offset := ToNat(output[index..index + 32]);
    if offset > |output| || offset >= TWO63 then Err else Ok(offset)
  }

  function AsList(r: Result<seq<Value>>): Result<Value> {
    match r
    case Ok(vs) => Ok(List(vs))
    case Err => Err
  }

  function Cons(v: Result<Value>, rest: Result<seq<Value>>): Result<seq<Value>> {
    if v.Err? || rest.Err? then Err else Ok([v.value] + rest.value)
  }

  /** `toGoType` */
  function Decode(t: Type, index: nat, output: seq<byte>): (r: Result<Value>)
    requires WellFormed(t)
    decreases t, 0
  {
    if index + 32 > |output| then Err
    else
      var word := output[index..index + 32];
      match t
      case IntTy(_) => Ok(Num(ReadInteger(t, word)))
      case UintTy(_) => Ok(Num(ReadInteger(t, word)))
      case BoolTy => ReadBool(word)
      case FixedBytesTy(k) => Ok(Data(word[..k]))
      case AddressTy => Ok(Data(word[12..]))
      case FunctionTy => ReadFunction(word)
      case StringTy => DecodeBytes(index, output)
      case BytesTy => DecodeBytes(index, output)
      case SliceTy(e) =>
        var p := LengthPrefixPointsTo(index, output);
        if p.Err? then Err else AsList(DecodeEach(e, output[p.value.0..], p.value.1))
      case ArrayTy(e, n) =>
        if IsDynamic(e) then
          var offset := ToNat(word[24..]);
          if offset > |output| then Err else AsList(DecodeEach(e, output[offset..], n))
        else
          AsList(DecodeEach(e, output[index..], n))
      case TupleTy(ts) =>
        if IsDynamic(t) then
          var p := TuplePointsTo(index, output);
          if p.Err? then Err else AsList(DecodeSeq(ts, 0, output[p.value..]))
        else
          AsList(DecodeSeq(ts, 0, output[index..]))
  }

  function DecodeBytes(index: nat, output: seq<byte>): Result<Value>
    requires index + 32 <= |output|
  {
    var p := LengthPrefixPointsTo(index, output);
    if p.Err? then Err else Ok(Data(output[p.value.0..p.value.0 + p.value.1]))
  }

  /** `forEachUnpack`: `size` elements of one type, after its check on the buffer. */
  function DecodeEach(e: Type, output: seq<byte>, size: nat): Result<seq<Value>>
    requires WellFormed(e)
    decreases e, 2, 0
  {
    if 32 * size > |output| then Err else DecodeFrom(e, output, 0, size)
  }

  /** The elements from position `pos` on, `TypeSize(e)` bytes apart. */
  function DecodeFrom(e: Type, output: seq<byte>, pos: nat, size: nat): Result<seq<Value>>
    requires WellFormed(e)
    decreases e, 1, size
  {
    if size == 0 then Ok([])
    else Cons(Decode(e, pos, output), DecodeFrom(e, output, pos + TypeSize(e), size - 1))
  }

  /** One value per type, each at the end of the heads before it. */
  function DecodeSeq(ts: seq<Type>, pos: nat, output: seq<byte>): Result<seq<Value>>
    requires forall i | 0 <= i < |ts| :: WellFormed(ts[i])
    decreases ts, 1, 0
  {
    if ts == [] then Ok([])
    else Cons(Decode(ts[0], pos, output), DecodeSeq(ts[1..], pos + TypeSize(ts[0]), output))
  }

  lemma {:induction false} DecodeFromIsSeq(e: Type, output: seq<byte>, pos: nat, size: nat)
    requires WellFormed(e)
    ensures DecodeFrom(e, output, pos, size) == DecodeSeq(Repeat(e, size), pos, output)
    decreases size
  {
    hide Decode, TypeSize, IsDynamic;
    if size > 0 {
      assert Repeat(e, size)[0] == e && Repeat(e, size)[1..] == Repeat(e, size - 1);
      DecodeFromIsSeq(e, output, pos + TypeSize(e), size - 1);
    }
  }
}

/** What decoding makes of an encoding, for every type and every value.

    Decoding gives the value back, with numbers cut to their width, exactly when
    the buffer has the room that `toGoType` and `forEachUnpack` insist on; without
    that room it gives an error.  Only types that take no space can lack the room.
 */
module AbiRoundTrip {
  import opened Common
  import opened Bytes
  import opened AbiTypes
  import opened AbiCodec

  /** The value with every number cut to the width of its type. */
  function Norm(t: Type, v: Value): (r: Value)
    requires HasType(t, v)
    decreases v
  {
    match t
    case IntTy(_) => Num(Wrapped(t, v.n))
    case UintTy(_) => Num(Wrapped(t, v.n))
    case SliceTy(e) => List(NormSeq(Repeat(e, |v.items|), v.items))
    case ArrayTy(e, n) => List(NormSeq(Repeat(e, n), v.items))
    case TupleTy(ts) => List(NormSeq(ts, v.items))
    case _ => v
  }

  function NormSeq(ts: seq<Type>, vs: seq<Value>): (r: seq<Value>)
    requires HasTypes(ts, vs)
    ensures |r| == |vs|
    decreases vs
  {
    if ts == [] then [] else [Norm(ts[0], vs[0])] + NormSeq(ts[1..], vs[1..])
  }

  /** Every number lies in the range of its type. */
  predicate InRange(t: Type, v: Value)
    requires HasType(t, v)
    decreases v
  {
    match t
    case IntTy(s) => SignedRange(v.n, Width(s))
    case UintTy(s) => 0 <= v.n < Pow256(Width(s))
    case SliceTy(e) => InRangeSeq(Repeat(e, |v.items|), v.items)
    case ArrayTy(e, n) => InRangeSeq(Repeat(e, n), v.items)
    case TupleTy(ts) => InRangeSeq(ts, v.items)
    case _ => true
  }

  predicate InRangeSeq(ts: seq<Type>, vs: seq<Value>)
    requires HasTypes(ts, vs)
    decreases vs
  {
    ts == [] || (InRange(ts[0], vs[0]) && InRangeSeq(ts[1..], vs[1..]))
  }

  /** The decoder's demands on the space from the start of the encoding of `v` to the
      end of the data: one word at every head, and one word per list element. */
  predicate Fits(t: Type, v: Value, room: int)
    requires WellFormed(t) && HasType(t, v)
    decreases v
  {
    match t
    case SliceTy(e) =>
      && 32 * |v.items| <= room - 32
      && FitsSeq(Repeat(e, |v.items|), v.items, 0, HeadSize(Repeat(e, |v.items|)), room - 32)
    case ArrayTy(e, n) =>
      && 32 * n <= room
      && FitsSeq(Repeat(e, n), v.items, 0, HeadSize(Repeat(e, n)), room)
    case TupleTy(ts) => FitsSeq(ts, v.items, 0, HeadSize(ts), room)
    case _ => true
  }

  predicate FitsSeq(ts: seq<Type>, vs: seq<Value>, head: nat, tail: nat, room: int)
    requires Encodable(ts, vs)
    decreases vs
  {
    ts == [] || (
      && head + 32 <= room
      && if IsDynamic(ts[0]) then
           && Fits(ts[0], vs[0], room - tail)
           && FitsSeq(ts[1..], vs[1..], head + 32, tail + |Encode(ts[0], vs[0])|, room)
         else
           && Fits(ts[0], vs[0], room - head)
           && FitsSeq(ts[1..], vs[1..], head + TypeSize(ts[0]), tail, room))
  }

  /** No part of the type is a static array of length zero or an empty tuple. */
  predicate ZeroFree(t: Type) {
    match t
    case SliceTy(e) => ZeroFree(e)
    case ArrayTy(e, n) => ZeroFree(e) && (n > 0 || IsDynamic(e))
    case TupleTy(ts) => ts != [] && forall e | e in ts :: ZeroFree(e)
    case _ => true
  }

  function Outcome<T>(fits: bool, v: T): Result<T> {
    if fits then Ok(v) else Err
  }

  /** `output` holds `part` at `pos`. */
  predicate Holds(output: seq<byte>, pos: nat, part: seq<byte>) {
    pos + |part| <= |output| && output[pos..pos + |part|] == part
  }

  lemma HoldsSplit(output: seq<byte>, pos: nat, a: seq<byte>, b: seq<byte>)
    requires Holds(output, pos, a + b)
    ensures Holds(output, pos, a) && Holds(output, pos + |a|, b)
  {
    var s := output[pos..pos + |a + b|];
    assert s[..|a|] == a && s[|a|..] == b;
    assert output[pos..pos + |a|] == s[..|a|];
    assert output[pos + |a|..pos + |a| + |b|] == s[|a|..];
  }

  lemma HoldsDrop(output: seq<byte>, pos: nat, part: seq<byte>, k: nat)
    requires Holds(output, pos, part) && k <= pos
    ensures Holds(output[k..], pos - k, part)
  {
    assert output[k..][pos - k..pos - k + |part|] == output[pos..pos + |part|];
  }

  lemma SmallWord(n: nat)
    requires n < TWO63
    ensures ToNat(Word(n)) == n && ToNat(Word(n)[24..]) == n
  {
    EightBytes();
    ToNatSmall(n, 32, 8);
  }

  lemma EightBytes()
    ensures Pow256(8) == 2 * TWO63
  {
  }

  lemma IntegerBack(t: Type, n: int)
    requires t.IntTy? || t.UintTy?
    ensures ReadInteger(t, Word(n)) == Wrapped(t, n)
  {
    var k := Width(t.size);
    BigEndianSuffix(n, 32, k);
    ToNatBigEndian(n, k);
  }

  lemma BoolBack(b: bool)
    ensures ReadBool(Word(if b then 1 else 0)) == Ok(Bool(b))
  {
    var n := if b then 1 else 0;
    assert Pow256(1) == 256;
    BigEndianPadded(n, 32, 1);
    assert Word(n)[31] == n % 256;
  }

  lemma FunctionBack(b: seq<byte>)
    requires |b| == 24
    ensures ReadFunction(b + Zeros(8)) == Ok(Data(b))
  {
    assert (b + Zeros(8))[24..] == Zeros(8);
    BigEndianPadded(0, 8, 0);
    assert BigEndian(0, 8) == Zeros(8);
    ToNatBigEndian(0, 8);
  }

  /** A head and its value are in place: the value itself, or its offset and the value there. */
  predicate Placed(t: Type, v: Value, pos: nat, at: nat, output: seq<byte>)
    requires WellFormed(t) && HasType(t, v)
  {
    && Holds(output, at, Encode(t, v))
    && if IsDynamic(t) then Holds(output, pos, Word(at)) else at == pos
  }

  lemma PrefixBack(n: nat, pos: nat, at: nat, output: seq<byte>)
    requires |output| < TWO63 && n < TWO63 && Holds(output, pos, Word(at)) && Holds(output, at, Word(n))
    ensures LengthPrefixPointsTo(pos, output) == Outcome(at + 32 + n <= |output|, (at + 32, n))
  {
    SmallWord(at);
    SmallWord(n);
  }

  lemma BytesBack(b: seq<byte>, pos: nat, at: nat, output: seq<byte>)
    requires |output| < TWO63 && Holds(output, pos, Word(at)) && Holds(output, at, PackBytes(b))
    ensures DecodeBytes(pos, output) == Ok(Data(b))
  {
    var enc := PackBytes(b);
    assert enc == Word(|b|) + enc[32..];
    HoldsSplit(output, at, Word(|b|), enc[32..]);
    PrefixBack(|b|, pos, at, output);
    assert output[at + 32..at + 32 + |b|] == output[at + 32..at + 32 + |enc[32..]|][..|b|];
  }

  lemma {:induction false} LeafBack(t: Type, v: Value, pos: nat, at: nat, output: seq<byte>)
    requires WellFormed(t) && HasType(t, v) && !t.SliceTy? && !t.ArrayTy? && !t.TupleTy?
    requires |output| < TWO63 && Placed(t, v, pos, at, output)
    ensures Decode(t, pos, output) == Ok(Norm(t, v))
  {
    match t
    case IntTy(_) => IntegerBack(t, v.n);
    case UintTy(_) => IntegerBack(t, v.n);
    case BoolTy => BoolBack(v.b);
    case FunctionTy => FunctionBack(v.bytes);
    case StringTy => BytesBack(v.bytes, pos, at, output);
    case BytesTy => BytesBack(v.bytes, pos, at, output);
    case FixedBytesTy(k) => assert Encode(t, v)[..k] == v.bytes;
    case AddressTy => assert Encode(t, v)[12..] == v.bytes;
  }

  /** A list of elements of one type, at the start of its own buffer. */
  lemma {:induction false} EachBack(e: Type, vs: seq<Value>, output: seq<byte>)
    requires WellFormed(e) && Encodable(Repeat(e, |vs|), vs)
    requires |output| < TWO63 && Holds(output, 0, Block(Repeat(e, |vs|), vs))
    ensures DecodeEach(e, output, |vs|) ==
            Outcome(32 * |vs| <= |output| && FitsSeq(Repeat(e, |vs|), vs, 0, HeadSize(Repeat(e, |vs|)), |output|),
                    NormSeq(Repeat(e, |vs|), vs))
    decreases vs, 2
  {
    DecodeFromIsSeq(e, output, 0, |vs|);
    BlockBack(Repeat(e, |vs|), vs, output);
  }

  lemma {:induction false} SliceBack(e: Type, v: Value, pos: nat, at: nat, output: seq<byte>)
    requires WellFormed(e) && HasType(SliceTy(e), v)
    requires pos + 32 <= |output| < TWO63 && Placed(SliceTy(e), v, pos, at, output)
    ensures Decode(SliceTy(e), pos, output) ==
            Outcome(Fits(SliceTy(e), v, |output| - at), Norm(SliceTy(e), v))
    decreases v, 0
  {
    hide DecodeEach, FitsSeq, NormSeq, Block, LengthPrefixPointsTo;
    var n := |v.items|;
    var block := Block(Repeat(e, n), v.items);
    HoldsSplit(output, at, Word(n), block);
    PrefixBack(n, pos, at, output);
    HoldsDrop(output, at + 32, block, at + 32);
    EachBack(e, v.items, output[at + 32..]);
  }

  lemma {:induction false} ArrayBack(t: Type, v: Value, pos: nat, at: nat, output: seq<byte>)
    requires WellFormed(t) && HasType(t, v) && t.ArrayTy?
    requires pos + 32 <= |output| < TWO63 && Placed(t, v, pos, at, output)
    ensures Decode(t, pos, output) == Outcome(Fits(t, v, |output| - at), Norm(t, v))
    decreases v, 0
  {
    hide DecodeEach, FitsSeq, NormSeq, Block;
    if IsDynamic(t.elem) { SmallWord(at); }
    HoldsDrop(output, at, Encode(t, v), at);
    EachBack(t.elem, v.items, output[at..]);
  }

  lemma {:induction false} TupleBack(t: Type, v: Value, pos: nat, at: nat, output: seq<byte>)
    requires WellFormed(t) && HasType(t, v) && t.TupleTy?
    requires pos + 32 <= |output| < TWO63 && Placed(t, v, pos, at, output)
    ensures Decode(t, pos, output) == Outcome(Fits(t, v, |output| - at), Norm(t, v))
    decreases v, 0
  {
    hide DecodeSeq, FitsSeq, NormSeq, Block;
    if IsDynamic(t) { SmallWord(at); }
    HoldsDrop(output, at, Encode(t, v), at);
    BlockBack(t.elems, v.items, output[at..]);
  }

  /** Decoding at the head of an encoded value, in any buffer around it. */
  lemma {:induction false} DecodeEncoded(t: Type, v: Value, pos: nat, at: nat, output: seq<byte>)
    requires WellFormed(t) && HasType(t, v)
    requires pos + 32 <= |output| < TWO63 && Placed(t, v, pos, at, output)
    ensures Decode(t, pos, output) == Outcome(Fits(t, v, |output| - at), Norm(t, v))
    decreases v, 1
  {
    match t
    case SliceTy(e) => SliceBack(e, v, pos, at, output);
    case ArrayTy(_, _) => ArrayBack(t, v, pos, at, output);
    case TupleTy(_) => TupleBack(t, v, pos, at, output);
    case _ => LeafBack(t, v, pos, at, output);
  }

  lemma {:induction false} BlockBack(ts: seq<Type>, vs: seq<Value>, output: seq<byte>)
    requires Encodable(ts, vs) && |output| < TWO63 && Holds(output, 0, Block(ts, vs))
    ensures DecodeSeq(ts, 0, output) ==
            Outcome(FitsSeq(ts, vs, 0, HeadSize(ts), |output|), NormSeq(ts, vs))
    decreases vs, 1
  {
    HeadsSize(ts, vs, HeadSize(ts));
    HoldsSplit(output, 0, Heads(ts, vs, HeadSize(ts)), Tails(ts, vs));
    SeqBack(ts, vs, 0, HeadSize(ts), output);
  }

  lemma DynamicSize(t: Type)
    ensures IsDynamic(t) ==> TypeSize(t) == 32
  {
  }

  lemma HeadsTails(ts: seq<Type>, vs: seq<Value>, tail: nat)
    requires Encodable(ts, vs) && ts != []
    ensures Encodable(ts[1..], vs[1..])
    ensures IsDynamic(ts[0]) ==>
      Heads(ts, vs, tail) == Word(tail) + Heads(ts[1..], vs[1..], tail + |Encode(ts[0], vs[0])|) &&
      Tails(ts, vs) == Encode(ts[0], vs[0]) + Tails(ts[1..], vs[1..])
    ensures !IsDynamic(ts[0]) ==>
      Heads(ts, vs, tail) == Encode(ts[0], vs[0]) + Heads(ts[1..], vs[1..], tail) &&
      Tails(ts, vs) == Tails(ts[1..], vs[1..])
  {
    hide HasType, WellFormed, Encode, TypeSize, IsDynamic;
    assert [] + Tails(ts[1..], vs[1..]) == Tails(ts[1..], vs[1..]);
  }

  /** Where the next component of a block has its head and where its tail. */
  lemma Split(ts: seq<Type>, vs: seq<Value>, head: nat, tail: nat, output: seq<byte>)
    returns (at: nat, head': nat, tail': nat)
    requires Encodable(ts, vs) && ts != []
    requires Holds(output, head, Heads(ts, vs, tail)) && Holds(output, tail, Tails(ts, vs))
    ensures Placed(ts[0], vs[0], head, at, output)
    ensures head' == head + TypeSize(ts[0])
    ensures if IsDynamic(ts[0]) then at == tail && tail' == tail + |Encode(ts[0], vs[0])|
            else at == head && tail' == tail
    ensures Holds(output, head', Heads(ts[1..], vs[1..], tail')) && Holds(output, tail', Tails(ts[1..], vs[1..]))
  {
    hide HasType, WellFormed, Encode, TypeSize, IsDynamic, Heads, Tails;
    DynamicSize(ts[0]);
    HeadsTails(ts, vs, tail);
    var enc := Encode(ts[0], vs[0]);
    var rest := Tails(ts[1..], vs[1..]);
    head' := head + TypeSize(ts[0]);
    if IsDynamic(ts[0]) {
      at, tail' := tail, tail + |enc|;
      HoldsSplit(output, head, Word(tail), Heads(ts[1..], vs[1..], tail'));
      HoldsSplit(output, tail, enc, rest);
    } else {
      at, tail' := head, tail;
      StaticSize(ts[0], vs[0]);
      HoldsSplit(output, head, enc, Heads(ts[1..], vs[1..], tail));
    }
  }

  lemma DecodeSeqUnfold(ts: seq<Type>, head: nat, output: seq<byte>)
    requires ts != [] && forall i | 0 <= i < |ts| :: WellFormed(ts[i])
    ensures DecodeSeq(ts, head, output) ==
            Cons(Decode(ts[0], head, output), DecodeSeq(ts[1..], head + TypeSize(ts[0]), output))
    ensures head + 32 > |output| ==> Decode(ts[0], head, output) == Err
  {
  }

  lemma FitsSeqUnfold(ts: seq<Type>, vs: seq<Value>, head: nat, tail: nat, room: int, at: nat, tail': nat)
    requires Encodable(ts, vs) && ts != []
    requires if IsDynamic(ts[0]) then at == tail && tail' == tail + |Encode(ts[0], vs[0])|
             else at == head && tail' == tail
    ensures FitsSeq(ts, vs, head, tail, room) ==
            (&& head + 32 <= room
             && Fits(ts[0], vs[0], room - at)
             && FitsSeq(ts[1..], vs[1..], head + TypeSize(ts[0]), tail', room))
  {
  }

  /** The components of a block from any point on. */
  lemma {:induction false} SeqBack(ts: seq<Type>, vs: seq<Value>, head: nat, tail: nat, output: seq<byte>)
    requires Encodable(ts, vs) && |output| < TWO63
    requires Holds(output, head, Heads(ts, vs, tail)) && Holds(output, tail, Tails(ts, vs))
    ensures DecodeSeq(ts, head, output) ==
            Outcome(FitsSeq(ts, vs, head, tail, |output|), NormSeq(ts, vs))
    decreases vs, 0
  {
    hide HasType, WellFormed, Decode, Fits, Norm, Encode, TypeSize, Heads, Tails;
    if ts != [] {
      var at, head', tail' := Split(ts, vs, head, tail, output);
      if head + 32 <= |output| {
        DecodeEncoded(ts[0], vs[0], head, at, output);
        SeqBack(ts[1..], vs[1..], head', tail', output);
      }
      DecodeSeqUnfold(ts, head, output);
      FitsSeqUnfold(ts, vs, head, tail, |output|, at, tail');
    }
  }

  // ---------- consequences ----------

  lemma {:induction false} ZeroFreeSize(t: Type)
    requires ZeroFree(t)
    ensures TypeSize(t) >= 32
    decreases t, 1
  {
    if t.ArrayTy? && !IsDynamic(t.elem) && (t.elem.ArrayTy? || t.elem.TupleTy?) {
      ZeroFreeSize(t.elem);
      MulMono(1, t.size, TypeSize(t.elem));
    } else if t.TupleTy? && !IsDynamic(t) {
      ZeroFreeSize(t.elems[0]);
    }
  }

  /** Types without zero-width parts leave room for every check of the decoder. */
  lemma {:induction false} ZeroFreeFits(t: Type, v: Value, room: int)
    requires WellFormed(t) && HasType(t, v) && ZeroFree(t) && room >= |Encode(t, v)|
    ensures Fits(t, v, room)
    decreases v
  {
    match t
    case SliceTy(e) => ZeroFreeFitsEach(e, v.items, room - 32);
    case ArrayTy(e, _) => ZeroFreeFitsEach(e, v.items, room);
    case TupleTy(ts) =>
      HeadsSize(ts, v.items, HeadSize(ts));
      ZeroFreeFitsSeq(ts, v.items, 0, HeadSize(ts), room);
    case _ =>
  }

  lemma HeadRoom(e: Type, n: nat)
    requires ZeroFree(e)
    ensures 32 * n <= HeadSize(Repeat(e, n))
  {
    hide HeadSize, TypeSize, ZeroFree, IsDynamic, Repeat;
    HeadSizeRepeat(e, n);
    ZeroFreeSize(e);
    MulMono(32, TypeSize(e), n);
  }

  lemma {:induction false} ZeroFreeFitsEach(e: Type, vs: seq<Value>, room: int)
    requires ZeroFree(e) && Encodable(Repeat(e, |vs|), vs) && room >= |Block(Repeat(e, |vs|), vs)|
    ensures 32 * |vs| <= room && FitsSeq(Repeat(e, |vs|), vs, 0, HeadSize(Repeat(e, |vs|)), room)
    decreases vs, 1
  {
    hide HasType, WellFormed, IsDynamic, Fits, FitsSeq, ZeroFree, TypeSize, HeadSize, Heads, Tails;
    var ts := Repeat(e, |vs|);
    HeadsSize(ts, vs, HeadSize(ts));
    HeadRoom(e, |vs|);
    ZeroFreeFitsSeq(ts, vs, 0, HeadSize(ts), room);
  }

  lemma {:induction false} ZeroFreeFitsSeq(ts: seq<Type>, vs: seq<Value>, head: nat, tail: nat, room: int)
    requires Encodable(ts, vs) && forall i | 0 <= i < |ts| :: ZeroFree(ts[i])
    requires head + HeadSize(ts) <= room && tail + |Tails(ts, vs)| <= room
    ensures FitsSeq(ts, vs, head, tail, room)
    decreases vs, 0
  {
    hide HasType, WellFormed, Fits, ZeroFree, Encode;
    if ts != [] {
      var t, v := ts[0], vs[0];
      ZeroFreeSize(t);
      if IsDynamic(t) {
        ZeroFreeFits(t, v, room - tail);
        ZeroFreeFitsSeq(ts[1..], vs[1..], head + 32, tail + |Encode(t, v)|, room);
      } else {
        StaticSize(t, v);
        ZeroFreeFits(t, v, room - head);
        ZeroFreeFitsSeq(ts[1..], vs[1..], head + TypeSize(t), tail, room);
      }
    }
  }

  /** Cutting a number to its width changes it exactly when it is out of range. */
  lemma WrappedInRange(t: Type, n: int)
    requires t.IntTy? || t.UintTy?
    ensures Wrapped(t, n) == n <==> if t.IntTy? then SignedRange(n, Width(t.size)) else 0 <= n < Pow256(Width(t.size))
  {
    var p := Pow256(Width(t.size));
    if 0 <= n < p { DivModUnique(n, p, 0, n); }
    if -p <= n < 0 { DivModUnique(n, p, -1, n + p); }
  }

  lemma {:induction false} NormInRange(t: Type, v: Value)
    requires HasType(t, v)
    ensures Norm(t, v) == v <==> InRange(t, v)
    decreases v
  {
    match t
    case IntTy(_) => WrappedInRange(t, v.n);
    case UintTy(_) => WrappedInRange(t, v.n);
    case SliceTy(e) => NormSeqInRange(Repeat(e, |v.items|), v.items);
    case ArrayTy(e, n) => NormSeqInRange(Repeat(e, n), v.items);
    case TupleTy(ts) => NormSeqInRange(ts, v.items);
    case _ =>
  }

  lemma {:induction false} NormSeqInRange(ts: seq<Type>, vs: seq<Value>)
    requires HasTypes(ts, vs)
    ensures NormSeq(ts, vs) == vs <==> InRangeSeq(ts, vs)
    decreases vs
  {
    hide HasType, Norm, InRange;
    if ts != [] {
      NormInRange(ts[0], vs[0]);
      NormSeqInRange(ts[1..], vs[1..]);
      assert vs == [vs[0]] + vs[1..];
      var r := NormSeq(ts, vs);
      assert r == [r[0]] + r[1..] && r[0] == Norm(ts[0], vs[0]) && r[1..] == NormSeq(ts[1..], vs[1..]);
    }
  }
}

/** `Type.pack` and `Arguments.Pack`: the loops that append heads to `ret` and tails to
    `tail` while `offset` moves past the tails.  Packing succeeds exactly on values
    of the type and yields the head and tail encoding of the specification.
 */
module AbiPack {
  import opened Common
  import opened Bytes
  import opened BigBytes
  import opened AbiTypes
  import opened AbiCodec

  datatype Argument = Argument(typ: Type, indexed: bool)

  function Types(args: seq<Argument>): (ts: seq<Type>)
    ensures |ts| == |args| && forall i | 0 <= i < |args| :: ts[i] == args[i].typ
  {
    seq(|args|, i requires 0 <= i < |args| => args[i].typ)
  }

  predicate AllWellFormed(ts: seq<Type>) {
    forall i | 0 <= i < |ts| :: WellFormed(ts[i])
  }

  /** What packing a list of values gives. */
  function Packed(ts: seq<Type>, vs: seq<Value>): Result<seq<byte>>
    requires AllWellFormed(ts)
  {
    if HasTypes(ts, vs) then Ok(Block(ts, vs)) else Err
  }

  /** `typeCheck`: the check on one value before its parts are looked at. */
  predicate TypeCheck(t: Type, v: Value) {
    match t
    case SliceTy(_) => v.List? && |v.items| < TWO63
    case ArrayTy(_, n) => v.List? && |v.items| == n
    case TupleTy(ts) => v.List? && |v.items| == |ts|
    case _ => HasType(t, v)
  }

  /** The loop state after `i` components: what is still to come completes both parts. */
  ghost predicate PackedUpTo(ts: seq<Type>, vs: seq<Value>, i: nat, ret: seq<byte>, tail: seq<byte>, offset: nat, start: nat)
    requires AllWellFormed(ts) && i <= |ts| == |vs|
  {
    && (forall k | 0 <= k < i :: HasType(ts[k], vs[k]))
    && (HasTypes(ts, vs) ==>
          && ret + Heads(ts[i..], vs[i..], offset) == Heads(ts, vs, start)
          && tail + Tails(ts[i..], vs[i..]) == Tails(ts, vs))
  }

  lemma PackedStart(ts: seq<Type>, vs: seq<Value>, start: nat)
    requires AllWellFormed(ts) && |ts| == |vs|
    ensures PackedUpTo(ts, vs, 0, [], [], start, start)
  {
    assert ts[0..] == ts && vs[0..] == vs;
    if HasTypes(ts, vs) {
      assert [] + Heads(ts, vs, start) == Heads(ts, vs, start);
      assert [] + Tails(ts, vs) == Tails(ts, vs);
    }
  }

  lemma PackedNext(ts: seq<Type>, vs: seq<Value>, i: nat, ret: seq<byte>, tail: seq<byte>, offset: nat, start: nat, val: seq<byte>)
    requires AllWellFormed(ts) && i < |ts| == |vs| && PackedUpTo(ts, vs, i, ret, tail, offset, start)
    requires HasType(ts[i], vs[i]) && val == Encode(ts[i], vs[i])
    ensures if IsDynamic(ts[i]) then PackedUpTo(ts, vs, i + 1, ret + Word(offset), tail + val, offset + |val|, start)
            else PackedUpTo(ts, vs, i + 1, ret + val, tail, offset, start)
  {
    hide HasType, WellFormed, IsDynamic, Encode, Word;
    var ts', vs' := ts[i..], vs[i..];
    assert ts'[1..] == ts[i + 1..] && vs'[1..] == vs[i + 1..];
    if HasTypes(ts, vs) {
      if IsDynamic(ts[i]) {
        var h := Heads(ts'[1..], vs'[1..], offset + |val|);
        assert ret + (Word(offset) + h) == ret + Word(offset) + h;
        assert tail + (val + Tails(ts'[1..], vs'[1..])) == tail + val + Tails(ts'[1..], vs'[1..]);
      } else {
        var h := Heads(ts'[1..], vs'[1..], offset);
        assert ret + (val + h) == ret + val + h;
        assert [] + Tails(ts'[1..], vs'[1..]) == Tails(ts'[1..], vs'[1..]);
      }
    }
  }

  lemma PackedEnd(ts: seq<Type>, vs: seq<Value>, ret: seq<byte>, tail: seq<byte>, offset: nat, start: nat)
    requires AllWellFormed(ts) && |ts| == |vs| && PackedUpTo(ts, vs, |ts|, ret, tail, offset, start)
    ensures HasTypes(ts, vs) && ret + tail == Heads(ts, vs, start) + Tails(ts, vs)
  {
    assert ts[|ts|..] == [] && vs[|ts|..] == [];
    assert ret + [] == ret && tail + [] == tail;
  }

  /** Offsets do not show in the heads of static values. */
  lemma {:induction false} StaticHeads(ts: seq<Type>, vs: seq<Value>, a: nat, b: nat)
    requires Encodable(ts, vs) && forall i | 0 <= i < |ts| :: !IsDynamic(ts[i])
    ensures Heads(ts, vs, a) == Heads(ts, vs, b)
  {
    if ts != [] { StaticHeads(ts[1..], vs[1..], a, b); }
  }

  method PackNum(n: int) returns (r: seq<byte>)
    ensures r == Word(n)
  {
    r := U256Bytes(n);
  }

  method PackElement(t: Type, v: Value) returns (r: seq<byte>)
    requires WellFormed(t) && HasType(t, v) && !t.SliceTy? && !t.ArrayTy? && !t.TupleTy?
    ensures r == Encode(t, v)
  {
    match t
    case IntTy(_) => r := PackNum(v.n);
    case UintTy(_) => r := PackNum(v.n);
    case BoolTy => r := PackNum(if v.b then 1 else 0);
    case StringTy => r := PackBytes(v.bytes);
    case BytesTy => r := PackBytes(v.bytes);
    case AddressTy => r := Zeros(32 - |v.bytes|) + v.bytes;
    case FixedBytesTy(_) => r := v.bytes + Zeros(32 - |v.bytes|);
    case FunctionTy => r := v.bytes + Zeros(32 - |v.bytes|);
  }

  method PackType(t: Type, v: Value) returns (r: Result<seq<byte>>)
    requires WellFormed(t)
    ensures r == if HasType(t, v) then Ok(Encode(t, v)) else Err
    decreases v, 2
  {
    if !TypeCheck(t, v) { return Err; }
    match t
    case SliceTy(e) => r := PackList(t, e, v.items);
    case ArrayTy(e, _) => r := PackList(t, e, v.items);
    case TupleTy(ts) => r := PackTuple(ts, v.items);
    case _ =>
      var b := PackElement(t, v);
      r := Ok(b);
  }

  lemma ListRefused(t: Type, e: Type, vs: seq<Value>, i: nat)
    requires (t == SliceTy(e) || t == ArrayTy(e, |vs|)) && i < |vs| && !HasType(e, vs[i])
    ensures !HasType(t, List(vs))
  {
    assert vs[i] in vs;
  }

  lemma ListEncoding(t: Type, e: Type, vs: seq<Value>)
    requires WellFormed(e) && (t == SliceTy(e) || t == ArrayTy(e, |vs|))
    requires TypeCheck(t, List(vs)) && HasTypes(Repeat(e, |vs|), vs)
    ensures HasType(t, List(vs))
    ensures Encode(t, List(vs)) ==
            (if RequiresLengthPrefix(t) then Word(|vs|) else []) + Block(Repeat(e, |vs|), vs)
  {
    hide Block, Word;
    var block := Block(Repeat(e, |vs|), vs);
    assert [] + block == block;
  }

  method PackList(t: Type, e: Type, vs: seq<Value>) returns (r: Result<seq<byte>>)
    requires WellFormed(e) && (t == SliceTy(e) || t == ArrayTy(e, |vs|))
    requires TypeCheck(t, List(vs))
    ensures r == if HasType(t, List(vs)) then Ok(Encode(t, List(vs))) else Err
    decreases vs, 1
  {
    hide WellFormed, HasType, IsDynamic, Encode, Word, Heads, Tails, HeadSize, TypeSize, PackedUpTo;
    ghost var ts := Repeat(e, |vs|);
    var prefix := [];
    if RequiresLengthPrefix(t) {
      prefix := PackNum(|vs|);
    }
    var ret, tail := [], [];
    var offset: nat := 0;
    var offsetReq := IsDynamic(e);
    if offsetReq {
      offset := TypeSize(e) * |vs|;
    }
    HeadSizeRepeat(e, |vs|);
    ghost var start := offset;
    PackedStart(ts, vs, start);
    for i := 0 to |vs|
      invariant !offsetReq ==> offset == start
      invariant PackedUpTo(ts, vs, i, ret, tail, offset, start)
    {
      var val := PackType(e, vs[i]);
      if val.Err? {
        ListRefused(t, e, vs, i);
        return Err;
      }
      PackedNext(ts, vs, i, ret, tail, offset, start, val.value);
      if offsetReq {
        var head := PackNum(offset);
        ret := ret + head;
        offset := offset + |val.value|;
        tail := tail + val.value;
      } else {
        ret := ret + val.value;
      }
    }
    PackedEnd(ts, vs, ret, tail, offset, start);
    if !offsetReq { StaticHeads(ts, vs, start, HeadSize(ts)); }
    ListEncoding(t, e, vs);
    assert [] + (ret + tail) == ret + tail;
    return Ok(prefix + (ret + tail));
  }

  method PackTuple(ts: seq<Type>, vs: seq<Value>) returns (r: Result<seq<byte>>)
    requires AllWellFormed(ts) && |ts| == |vs|
    ensures r == Packed(ts, vs)
    decreases vs, 1
  {
    hide HasType, WellFormed, IsDynamic, Encode, Word, Heads, Tails, HeadSize, PackedUpTo;
    var offset: nat := SumSizes(ts);
    var ret, tail := [], [];
    PackedStart(ts, vs, offset);
    for i := 0 to |ts|
      invariant PackedUpTo(ts, vs, i, ret, tail, offset, HeadSize(ts))
    {
      var val := PackType(ts[i], vs[i]);
      if val.Err? { return Err; }
      PackedNext(ts, vs, i, ret, tail, offset, HeadSize(ts), val.value);
      if IsDynamic(ts[i]) {
        var head := PackNum(offset);
        ret := ret + head;
        tail := tail + val.value;
        offset := offset + |val.value|;
      } else {
        ret := ret + val.value;
      }
    }
    PackedEnd(ts, vs, ret, tail, offset, HeadSize(ts));
    return Ok(ret + tail);
  }

  /** The loop that adds up the head sizes before anything is packed. */
  method SumSizes(ts: seq<Type>) returns (offset: nat)
    ensures offset == HeadSize(ts)
  {
    offset := 0;
    assert ts[0..] == ts;
    for i := 0 to |ts|
      invariant offset + HeadSize(ts[i..]) == HeadSize(ts)
    {
      assert ts[i..][1..] == ts[i + 1..];
      offset := offset + TypeSize(ts[i]);
    }
  }

  /** `Arguments.Pack` */
  method Pack(args: seq<Argument>, vs: seq<Value>) returns (r: Result<seq<byte>>)
    requires AllWellFormed(Types(args))
    ensures r == Packed(Types(args), vs)
  {
    hide HasType, WellFormed, IsDynamic, Encode, Word, Heads, Tails, HeadSize, PackedUpTo;
    if |vs| != |args| { return Err; }
    ghost var ts := Types(args);
    var inputOffset: nat := SumSizes(Types(args));
    var ret, variableInput := [], [];
    PackedStart(ts, vs, inputOffset);
    for i := 0 to |vs|
      invariant PackedUpTo(ts, vs, i, ret, variableInput, inputOffset, HeadSize(ts))
    {
      var packed := PackType(args[i].typ, vs[i]);
      if packed.Err? { return Err; }
      PackedNext(ts, vs, i, ret, variableInput, inputOffset, HeadSize(ts), packed.value);
      if IsDynamic(args[i].typ) {
        var head := PackNum(inputOffset);
        ret := ret + head;
        inputOffset := inputOffset + |packed.value|;
        variableInput := variableInput + packed.value;
      } else {
        ret := ret + packed.value;
      }
    }
    PackedEnd(ts, vs, ret, variableInput, inputOffset, HeadSize(ts));
    return Ok(ret + variableInput);
  }
}

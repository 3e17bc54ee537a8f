/** `toGoType`, `forEachUnpack`, `forTupleUnpack` and `Arguments.UnpackValues`.

    The methods take any bytes at all.  That they verify means that decoding ends
    with a value or an error and that every index and slice lies inside the buffer,
    whatever offsets and lengths the bytes claim.  `DecodedTyped` adds that a value
    that comes out belongs to the type.
 */
module AbiUnpack {
  import opened Bytes
  import opened AbiTypes
  import opened AbiCodec
  import opened AbiPack
  import opened AbiRoundTrip

  function Prepend(done: seq<Value>, rest: Result<seq<Value>>): (r: Result<seq<Value>>)
    ensures done == [] ==> r == rest
    ensures rest == Ok([]) ==> r == Ok(done)
  {
    if rest.Err? then Err
    else
      assert [] + rest.value == rest.value && done + [] == done;
      Ok(done + rest.value)
  }

  lemma PrependNext(done: seq<Value>, v: Value, rest: Result<seq<Value>>)
    ensures Prepend(done, Cons(Ok(v), rest)) == Prepend(done + [v], rest)
  {
    if rest.Ok? { assert done + ([v] + rest.value) == done + [v] + rest.value; }
  }

  /** `Arguments.NonIndexed` */
  function NonIndexed(args: seq<Argument>): (r: seq<Argument>) {
    if args == [] then []
    else (if args[0].indexed then [] else [args[0]]) + NonIndexed(args[1..])
  }

  /** Exactly the arguments that are not indexed, and all of the list only if none is. */
  lemma {:induction false} NonIndexedMembers(args: seq<Argument>)
    ensures forall a :: a in NonIndexed(args) <==> a in args && !a.indexed
    ensures |NonIndexed(args)| <= |args|
    ensures |NonIndexed(args)| == |args| <==> forall a | a in args :: !a.indexed
    ensures |NonIndexed(args)| == |args| ==> NonIndexed(args) == args
  {
    if args != [] {
      NonIndexedMembers(args[1..]);
      assert args == [args[0]] + args[1..];
    }
  }

  lemma NonIndexedHead(args: seq<Argument>)
    ensures NonIndexed(args) ==
            if args == [] then [] else (if args[0].indexed then [] else [args[0]]) + NonIndexed(args[1..])
  {
  }

  /** In their order: what comes first in the list comes first in what is kept. */
  lemma {:induction false} NonIndexedConcat(s: seq<Argument>, t: seq<Argument>)
    ensures NonIndexed(s + t) == NonIndexed(s) + NonIndexed(t)
  {
    hide NonIndexed;
    NonIndexedHead(s);
    if s == [] {
      assert s + t == t;
    } else {
      NonIndexedConcat(s[1..], t);
      NonIndexedHead(s + t);
      assert (s + t)[0] == s[0] && (s + t)[1..] == s[1..] + t;
      var head, x, y := if s[0].indexed then [] else [s[0]], NonIndexed(s[1..]), NonIndexed(t);
      assert head + (x + y) == head + x + y;
    }
  }

  lemma NonIndexedWellFormed(args: seq<Argument>)
    requires AllWellFormed(Types(args))
    ensures AllWellFormed(Types(NonIndexed(args)))
  {
    NonIndexedMembers(args);
    forall i | 0 <= i < |NonIndexed(args)| ensures WellFormed(NonIndexed(args)[i].typ) {
      assert NonIndexed(args)[i] in args;
    }
  }

  method ToGoType(t: Type, index: nat, output: seq<byte>) returns (r: Result<Value>)
    requires WellFormed(t)
    ensures r == Decode(t, index, output)
    decreases t, 1
  {
    if index + 32 > |output| { return Err; }
    var begin, length := 0, 0;
    var returnOutput := output[index..index + 32];
    if RequiresLengthPrefix(t) {
      var p := LengthPrefixPointsTo(index, output);
      if p.Err? { return Err; }
      begin, length := p.value.0, p.value.1;
    }
    match t
    case TupleTy(ts) =>
      var vs;
      if IsDynamic(t) {
        var p := TuplePointsTo(index, output);
        if p.Err? { return Err; }
        vs := ForTupleUnpack(ts, output[p.value..]);
      } else {
        vs := ForTupleUnpack(ts, output[index..]);
      }
      r := AsList(vs);
    case SliceTy(e) =>
      var vs := ForEachUnpack(e, output[begin..], length);
      r := AsList(vs);
    case ArrayTy(e, n) =>
      var vs;
      if IsDynamic(e) {
        var offset := ToNat(returnOutput[24..]);
        if offset > |output| { return Err; }
        vs := ForEachUnpack(e, output[offset..], n);
      } else {
        vs := ForEachUnpack(e, output[index..], n);
      }
      r := AsList(vs);
    case StringTy => r := Ok(Data(output[begin..begin + length]));
    case BytesTy => r := Ok(Data(output[begin..begin + length]));
    case IntTy(_) => r := Ok(Num(ReadInteger(t, returnOutput)));
    case UintTy(_) => r := Ok(Num(ReadInteger(t, returnOutput)));
    case BoolTy => r := ReadBool(returnOutput);
    case AddressTy => r := Ok(Data(returnOutput[12..]));
    case FixedBytesTy(k) => r := Ok(Data(returnOutput[..k]));
    case FunctionTy => r := ReadFunction(returnOutput);
  }

  method ForEachUnpack(e: Type, output: seq<byte>, size: nat) returns (r: Result<seq<Value>>)
    requires WellFormed(e)
    ensures r == DecodeEach(e, output, size)
    decreases e, 2
  {
    hide Decode, TypeSize, IsDynamic;
    if 32 * size > |output| { return Err; }
    var elemSize := TypeSize(e);
    var vs: seq<Value> := [];
    var i: nat, j: nat := 0, 0;
    while j < size
      invariant j <= size
      invariant DecodeFrom(e, output, 0, size) == Prepend(vs, DecodeFrom(e, output, i, size - j))
    {
      var inter := ToGoType(e, i, output);
      if inter.Err? { return Err; }
      PrependNext(vs, inter.value, DecodeFrom(e, output, i + elemSize, size - j - 1));
      vs := vs + [inter.value];
      i, j := i + elemSize, j + 1;
    }
    return Ok(vs);
  }

  /** How far the next head is, in words beyond the one that `index` counts itself. */
  method VirtualArgs(t: Type) returns (extra: int)
    ensures 32 * (extra + 1) == TypeSize(t)
  {
    TypeSizeWords(t);
    if t.ArrayTy? && !IsDynamic(t) {
      return TypeSize(t) / 32 - 1;
    } else if t.TupleTy? && !IsDynamic(t) {
      return TypeSize(t) / 32 - 1;
    }
    return 0;
  }

  /** The position `32 * (index + virtualArgs)` is always the end of the heads already read. */
  method ForTupleUnpack(ts: seq<Type>, output: seq<byte>) returns (r: Result<seq<Value>>)
    requires AllWellFormed(ts)
    ensures r == DecodeSeq(ts, 0, output)
    decreases ts, 0
  {
    hide Decode, TypeSize, IsDynamic, WellFormed;
    var vs: seq<Value> := [];
    var virtualArgs := 0;
    assert ts[0..] == ts;
    for index := 0 to |ts|
      invariant index + virtualArgs >= 0
      invariant 32 * (index + virtualArgs) + HeadSize(ts[index..]) == HeadSize(ts)
      invariant DecodeSeq(ts, 0, output) == Prepend(vs, DecodeSeq(ts[index..], 32 * (index + virtualArgs), output))
    {
      assert ts[index..][1..] == ts[index + 1..];
      var v := ToGoType(ts[index], (index + virtualArgs) * 32, output);
      if v.Err? { return Err; }
      var extra := VirtualArgs(ts[index]);
      virtualArgs := virtualArgs + extra;
      ghost var rest := DecodeSeq(ts[index + 1..], 32 * (index + 1 + virtualArgs), output);
      if rest.Ok? { assert vs + ([v.value] + rest.value) == vs + [v.value] + rest.value; }
      vs := vs + [v.value];
    }
    return Ok(vs);
  }

  /** What unpacking gives: the non-indexed arguments, one after the other. */
  function Unpacked(args: seq<Argument>, data: seq<byte>): Result<seq<Value>>
    requires AllWellFormed(Types(args))
  {
    NonIndexedWellFormed(args);
    DecodeSeq(Types(NonIndexed(args)), 0, data)
  }

  /** `Arguments.UnpackValues` */
  method UnpackValues(args: seq<Argument>, data: seq<byte>) returns (r: Result<seq<Value>>)
    requires AllWellFormed(Types(args))
    ensures r == Unpacked(args, data)
  {
    hide Decode, TypeSize, IsDynamic, WellFormed, NonIndexed;
    var nonIndexed := NonIndexed(args);
    ghost var ts := Types(nonIndexed);
    ghost var all := Unpacked(args, data);
    NonIndexedWellFormed(args);
    var vs: seq<Value> := [];
    var virtualArgs := 0;
    assert ts[0..] == ts;
    for index := 0 to |nonIndexed|
      invariant index + virtualArgs >= 0
      invariant 32 * (index + virtualArgs) + HeadSize(ts[index..]) == HeadSize(ts)
      invariant all == Prepend(vs, DecodeSeq(ts[index..], 32 * (index + virtualArgs), data))
    {
      assert ts[index..][1..] == ts[index + 1..];
      var v := ToGoType(nonIndexed[index].typ, (index + virtualArgs) * 32, data);
      if v.Err? { return Err; }
      var extra := VirtualArgs(nonIndexed[index].typ);
      virtualArgs := virtualArgs + extra;
      ghost var rest := DecodeSeq(ts[index + 1..], 32 * (index + 1 + virtualArgs), data);
      if rest.Ok? { assert vs + ([v.value] + rest.value) == vs + [v.value] + rest.value; }
      vs := vs + [v.value];
    }
    return Ok(vs);
  }

  // ---------- what comes out of the decoder ----------

  lemma ReadIntegerRange(t: Type, word: seq<byte>)
    requires (t.IntTy? || t.UintTy?) && |word| == 32
    ensures HasType(t, Num(ReadInteger(t, word))) && InRange(t, Num(ReadInteger(t, word)))
  {
    ToNatBound(word[32 - Width(t.size)..]);
  }

  /** A decoded value belongs to its type, and its numbers lie in range. */
  lemma {:induction false} DecodedTyped(t: Type, index: nat, output: seq<byte>)
    requires WellFormed(t) && Decode(t, index, output).Ok?
    ensures HasType(t, Decode(t, index, output).value) && InRange(t, Decode(t, index, output).value)
    decreases t, 0
  {
    match t
    case IntTy(_) => ReadIntegerRange(t, output[index..index + 32]);
    case UintTy(_) => ReadIntegerRange(t, output[index..index + 32]);
    case SliceTy(e) =>
      var p := LengthPrefixPointsTo(index, output).value;
      DecodedEachTyped(e, output[p.0..], 0, p.1);
    case ArrayTy(e, n) =>
      DecodedEachTyped(e, output[if IsDynamic(e) then ToNat(output[index..index + 32][24..]) else index..], 0, n);
    case TupleTy(ts) =>
      DecodedSeqTyped(ts, 0, output[if IsDynamic(t) then TuplePointsTo(index, output).value else index..]);
    case _ =>
  }

  lemma {:induction false} DecodedEachTyped(e: Type, output: seq<byte>, pos: nat, size: nat)
    requires WellFormed(e) && DecodeFrom(e, output, pos, size).Ok?
    ensures var vs := DecodeFrom(e, output, pos, size).value;
            HasTypes(Repeat(e, size), vs) && InRangeSeq(Repeat(e, size), vs) && forall x | x in vs :: HasType(e, x)
    decreases e, 1, size
  {
    hide Decode, TypeSize, HasType, InRange;
    if size > 0 {
      DecodedTyped(e, pos, output);
      DecodedEachTyped(e, output, pos + TypeSize(e), size - 1);
      assert Repeat(e, size)[1..] == Repeat(e, size - 1);
    }
  }

  lemma {:induction false} DecodedSeqTyped(ts: seq<Type>, pos: nat, output: seq<byte>)
    requires AllWellFormed(ts) && DecodeSeq(ts, pos, output).Ok?
    ensures var vs := DecodeSeq(ts, pos, output).value; HasTypes(ts, vs) && InRangeSeq(ts, vs)
    decreases ts, 1, 0
  {
    hide Decode, TypeSize, HasType, InRange, WellFormed;
    if ts != [] {
      DecodedTyped(ts[0], pos, output);
      DecodedSeqTyped(ts[1..], pos + TypeSize(ts[0]), output);
    }
  }
}

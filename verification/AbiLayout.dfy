/** What the codec means, byte by byte.

    Decoding is described by a relation between a buffer and a value, on every buffer and not
    only on encodings.  Encoding is described by the position of every byte it writes.  Neither
    description uses the functions of the codec that compute it.
 */
module AbiLayout {
  import opened Common
  import opened Bytes
  import opened AbiTypes
  import opened AbiCodec
  import opened AbiPack
  import opened AbiRoundTrip
  import opened AbiUnpack

  ghost predicate ZeroBytes(s: seq<byte>, lo: nat, hi: nat)
    requires lo <= hi <= |s|
  {
    forall i | lo <= i < hi :: s[i] == 0
  }

  // ---------- which types are dynamic ----------

  /** Following array elements and tuple fields along `path` leads to a string, bytes or a slice. */
  ghost predicate Reaches(t: Type, path: seq<nat>)
    decreases path
  {
    if path == [] then t.StringTy? || t.BytesTy? || t.SliceTy?
    else
      match t
      case ArrayTy(e, _) => Reaches(e, path[1..])
      case TupleTy(ts) => path[0] < |ts| && Reaches(ts[path[0]], path[1..])
      case _ => false
  }

  lemma {:induction false} ReachesDynamic(t: Type, path: seq<nat>)
    requires Reaches(t, path)
    ensures IsDynamic(t)
    decreases path
  {
    if path != [] {
      if t.ArrayTy? {
        ReachesDynamic(t.elem, path[1..]);
      } else {
        ReachesDynamic(t.elems[path[0]], path[1..]);
      }
    }
  }

  lemma {:induction false} DynamicReaches(t: Type) returns (path: seq<nat>)
    requires IsDynamic(t)
    ensures Reaches(t, path)
    decreases t
  {
    path := [];
    if t.ArrayTy? {
      var p := DynamicReaches(t.elem);
      path := [0] + p;
      assert path[1..] == p;
    } else if t.TupleTy? {
      var e :| e in t.elems && IsDynamic(e);
      var i :| 0 <= i < |t.elems| && t.elems[i] == e;
      var p := DynamicReaches(t.elems[i]);
      path := [i] + p;
      assert path[1..] == p;
    }
  }

  ghost predicate HoldsVariable(t: Type) {
    exists path :: Reaches(t, path)
  }

  /** A type is dynamic exactly if it holds something of variable length in place. */
  lemma DynamicExactly(t: Type)
    ensures IsDynamic(t) <==> HoldsVariable(t)
  {
    if IsDynamic(t) {
      var path := DynamicReaches(t);
    } else if HoldsVariable(t) {
      var path :| Reaches(t, path);
      ReachesDynamic(t, path);
    }
  }

  // ---------- what a buffer denotes ----------

  /** The number in a range of bytes. */
  ghost function NumberAt(output: seq<byte>, lo: nat, hi: nat): nat
    requires lo <= hi <= |output|
  {
    ToNat(output[lo..hi])
  }

  /** The word at `index` is the offset of a length word, and that length stays in the buffer and in
      63 bits. */
  ghost predicate PrefixAt(output: seq<byte>, index: nat)
    requires index + 32 <= |output|
  {
    var start := NumberAt(output, index, index + 32) + 32;
    start <= |output| && start < TWO63 && start + NumberAt(output, start - 32, start) <= |output|
    && start + NumberAt(output, start - 32, start) < TWO63
  }

  /** The payload begins after the length word. */
  ghost function StartOf(output: seq<byte>, index: nat): (r: nat)
    requires index + 32 <= |output| && PrefixAt(output, index)
    ensures 32 <= r <= |output|
  {
    NumberAt(output, index, index + 32) + 32
  }

  ghost function LengthOf(output: seq<byte>, index: nat): (r: nat)
    requires index + 32 <= |output| && PrefixAt(output, index)
    ensures StartOf(output, index) + r <= |output|
  {
    NumberAt(output, StartOf(output, index) - 32, StartOf(output, index))
  }

  /** The `n` elements of a list lie one type size apart, and `32 * n` bytes are there. */
  ghost predicate DenotesEach(e: Type, output: seq<byte>, n: nat, v: Value)
    decreases e, 1
  {
    && v.List? && |v.items| == n && 32 * n <= |output|
    && forall j | 0 <= j < n :: Denotes(e, j * TypeSize(e), output, v.items[j])
  }

  /** The bytes of `output` from `index` on stand for `v`. */
  ghost predicate Denotes(t: Type, index: nat, output: seq<byte>, v: Value)
    decreases t, 0
  {
    && index + 32 <= |output|
    && match t
       case IntTy(s) =>
         && v.Num? && SignedRange(v.n, Width(s))
         && v.n % Pow256(Width(s)) == NumberAt(output, index + 32 - Width(s), index + 32)
       case UintTy(s) => v.Num? && v.n == NumberAt(output, index + 32 - Width(s), index + 32)
       case BoolTy => v.Bool? && ZeroBytes(output, index, index + 31) && output[index + 31] == if v.b then 1 else 0
       case FixedBytesTy(k) => k <= 32 && v == Data(output[index..index + k])
       case AddressTy => v == Data(output[index + 12..index + 32])
       case FunctionTy => v == Data(output[index..index + 24]) && ZeroBytes(output, index + 24, index + 32)
       case StringTy => PrefixAt(output, index) && v == Data(Payload(output, index))
       case BytesTy => PrefixAt(output, index) && v == Data(Payload(output, index))
       case SliceTy(e) =>
         PrefixAt(output, index) && DenotesEach(e, output[StartOf(output, index)..], LengthOf(output, index), v)
       case ArrayTy(e, n) =>
         if IsDynamic(e) then
           var start := NumberAt(output, index + 24, index + 32);
           start <= |output| && DenotesEach(e, output[start..], n, v)
         else DenotesEach(e, output[index..], n, v)
       case TupleTy(ts) =>
         if IsDynamic(t) then
           var start := NumberAt(output, index, index + 32);
           start <= |output| && start < TWO63 && v.List? && |v.items| == |ts| &&
           forall j | 0 <= j < |ts| :: Denotes(ts[j], HeadSize(ts[..j]), output[start..], v.items[j])
         else
           v.List? && |v.items| == |ts| &&
           forall j | 0 <= j < |ts| :: Denotes(ts[j], HeadSize(ts[..j]), output[index..], v.items[j])
  }

  ghost function Payload(output: seq<byte>, index: nat): seq<byte>
    requires index + 32 <= |output| && PrefixAt(output, index)
  {
    output[StartOf(output, index)..StartOf(output, index) + LengthOf(output, index)]
  }

  // ---------- decoding finds exactly that ----------

  lemma ReadIntegerMeans(t: Type, word: seq<byte>, n: int)
    requires (t.IntTy? || t.UintTy?) && |word| == 32
    ensures var k := Width(t.size); var x := ToNat(word[32 - k..]);
      ReadInteger(t, word) == n <==> if t.IntTy? then SignedRange(n, k) && n % Pow256(k) == x else n == x
  {
    hide ToNat, Pow256, Width;
    var k := Width(t.size);
    var x, p := ToNat(word[32 - k..]), Pow256(k);
    ToNatBound(word[32 - k..]);
    if t.IntTy? { SignedMeans(x, p, n); }
  }

  lemma SignedMeans(x: nat, p: nat, n: int)
    requires x < p
    ensures (if 2 * x < p then x else x - p) == n <==> 0 <= 2 * n + p < 2 * p && n % p == x
  {
    if 0 <= n < p { DivModUnique(n, p, 0, n); }
    if n < 0 && n + p >= 0 { DivModUnique(n, p, -1, n + p); }
  }

  lemma BoolMeans(word: seq<byte>, v: Value)
    requires |word| == 32
    ensures ReadBool(word) == Ok(v) <==> v.Bool? && ZeroBytes(word, 0, 31) && word[31] == if v.b then 1 else 0
  {
  }

  lemma {:induction false} ZeroNumber(s: seq<byte>)
    ensures ToNat(s) == 0 <==> ZeroBytes(s, 0, |s|)
  {
    if s != [] {
      var n := |s| - 1;
      ZeroNumber(s[..n]);
      assert forall i | 0 <= i < n :: s[..n][i] == s[i];
    }
  }

  lemma ZeroShift(output: seq<byte>, index: nat, lo: nat, hi: nat)
    requires index + 32 <= |output| && lo <= hi <= 32
    ensures ZeroBytes(output[index..index + 32], lo, hi) <==> ZeroBytes(output, index + lo, index + hi)
  {
    var word := output[index..index + 32];
    if ZeroBytes(word, lo, hi) {
      forall i | index + lo <= i < index + hi ensures output[i] == 0 { assert output[i] == word[i - index]; }
    }
  }

  lemma FunctionMeans(word: seq<byte>, v: Value)
    requires |word| == 32
    ensures ReadFunction(word) == Ok(v) <==> v == Data(word[..24]) && ZeroBytes(word, 24, 32)
  {
    hide ToNat;
    ZeroNumber(word[24..]);
    assert forall i | 24 <= i < 32 :: word[i] == word[24..][i - 24];
  }

  /** The pointer is refused exactly if what it claims leaves the buffer or 63 bits. */
  lemma PrefixMeans(output: seq<byte>, index: nat)
    requires index + 32 <= |output|
    ensures LengthPrefixPointsTo(index, output) ==
      if PrefixAt(output, index) then Ok((StartOf(output, index), LengthOf(output, index))) else Err
  {
    hide ToNat;
  }

  lemma {:induction false} SeqDenotes(ts: seq<Type>, pos: nat, output: seq<byte>, vs: seq<Value>)
    requires forall i | 0 <= i < |ts| :: WellFormed(ts[i])
    ensures DecodeSeq(ts, pos, output) == Ok(vs) <==>
      |vs| == |ts| && forall j | 0 <= j < |ts| :: Denotes(ts[j], pos + HeadSize(ts[..j]), output, vs[j])
    decreases ts, 0
  {
    hide Decode, Denotes, TypeSize, HeadSize, WellFormed;
    if ts == [] {
    } else if vs != [] {
      DecodeDenotes(ts[0], pos, output, vs[0]);
      SeqDenotes(ts[1..], pos + TypeSize(ts[0]), output, vs[1..]);
      DecodeSplits(ts, pos, output, vs);
      SplitForall(ts, pos, output, vs);
    }
  }

  lemma HeadSizeNone()
    ensures HeadSize([]) == 0
  {
  }

  lemma HeadSizeFirst(ts: seq<Type>)
    requires ts != []
    ensures HeadSize(ts) == TypeSize(ts[0]) + HeadSize(ts[1..])
  {
  }

  lemma DecodeSplits(ts: seq<Type>, pos: nat, output: seq<byte>, vs: seq<Value>)
    requires ts != [] && vs != [] && forall i | 0 <= i < |ts| :: WellFormed(ts[i])
    ensures DecodeSeq(ts, pos, output) == Ok(vs) <==>
      Decode(ts[0], pos, output) == Ok(vs[0]) && DecodeSeq(ts[1..], pos + TypeSize(ts[0]), output) == Ok(vs[1..])
  {
    hide Decode, TypeSize, WellFormed;
    assert vs == [vs[0]] + vs[1..];
  }

  /** All components, as the first one and the others. */
  lemma SplitForall(ts: seq<Type>, pos: nat, output: seq<byte>, vs: seq<Value>)
    requires ts != [] && vs != []
    ensures
      (|vs| == |ts| && forall j | 0 <= j < |ts| :: Denotes(ts[j], pos + HeadSize(ts[..j]), output, vs[j])) <==>
      (&& Denotes(ts[0], pos, output, vs[0]) && |vs[1..]| == |ts[1..]|
       && forall j | 0 <= j < |ts[1..]| ::
            Denotes(ts[1..][j], pos + TypeSize(ts[0]) + HeadSize(ts[1..][..j]), output, vs[1..][j]))
  {
    hide Denotes, TypeSize, HeadSize;
    HeadSizeNone();
    assert ts[..0] == [];
    forall j | 0 <= j < |ts[1..]| ensures HeadSize(ts[..j + 1]) == TypeSize(ts[0]) + HeadSize(ts[1..][..j]) {
      HeadSizeFirst(ts[..j + 1]);
      assert ts[..j + 1][1..] == ts[1..][..j];
    }
    if |vs| == |ts| && forall j | 0 <= j < |ts| :: Denotes(ts[j], pos + HeadSize(ts[..j]), output, vs[j]) {
      forall j | 0 <= j < |ts[1..]|
        ensures Denotes(ts[1..][j], pos + TypeSize(ts[0]) + HeadSize(ts[1..][..j]), output, vs[1..][j])
      {
        assert Denotes(ts[j + 1], pos + HeadSize(ts[..j + 1]), output, vs[j + 1]);
      }
    }
    if Denotes(ts[0], pos, output, vs[0]) && |vs[1..]| == |ts[1..]|
       && forall j | 0 <= j < |ts[1..]| ::
            Denotes(ts[1..][j], pos + TypeSize(ts[0]) + HeadSize(ts[1..][..j]), output, vs[1..][j]) {
      forall j | 0 <= j < |ts| ensures Denotes(ts[j], pos + HeadSize(ts[..j]), output, vs[j]) {
        assert j > 0 ==> Denotes(ts[1..][j - 1], pos + TypeSize(ts[0]) + HeadSize(ts[1..][..j - 1]), output, vs[1..][j - 1]);
      }
    }
  }

  /** Where element `j` lies, from `pos` on. */
  ghost function Place(e: Type, pos: nat, j: nat): nat {
    pos + j * TypeSize(e)
  }

  lemma PlaceFirst(e: Type, pos: nat)
    ensures Place(e, pos, 0) == pos
  {
  }

  lemma PlaceNext(e: Type, pos: nat, j: nat)
    ensures Place(e, pos, j + 1) == Place(e, pos + TypeSize(e), j)
  {
    hide TypeSize;
    var size := TypeSize(e);
    assert (j + 1) * size == j * size + size;
  }

  ghost predicate DenotesFrom(e: Type, pos: nat, output: seq<byte>, n: nat, vs: seq<Value>) {
    |vs| == n && forall j: nat | j < n :: Denotes(e, Place(e, pos, j), output, vs[j])
  }

  lemma FromSplits(e: Type, pos: nat, output: seq<byte>, n: nat, vs: seq<Value>)
    requires n > 0 && vs != []
    ensures DenotesFrom(e, pos, output, n, vs) <==>
      Denotes(e, pos, output, vs[0]) && DenotesFrom(e, pos + TypeSize(e), output, n - 1, vs[1..])
  {
    hide Denotes, TypeSize, Place;
    PlaceFirst(e, pos);
    if DenotesFrom(e, pos, output, n, vs) {
      forall j: nat | j < n - 1 ensures Denotes(e, Place(e, pos + TypeSize(e), j), output, vs[1..][j]) {
        PlaceNext(e, pos, j);
        assert Denotes(e, Place(e, pos, j + 1), output, vs[j + 1]);
      }
    }
    if Denotes(e, pos, output, vs[0]) && DenotesFrom(e, pos + TypeSize(e), output, n - 1, vs[1..]) {
      forall j: nat | j < n ensures Denotes(e, Place(e, pos, j), output, vs[j]) {
        if j > 0 {
          PlaceNext(e, pos, j - 1);
          assert Denotes(e, Place(e, pos + TypeSize(e), j - 1), output, vs[1..][j - 1]);
        }
      }
    }
  }

  lemma {:induction false} FromDenotes(e: Type, pos: nat, output: seq<byte>, n: nat, vs: seq<Value>)
    requires WellFormed(e)
    ensures DecodeFrom(e, output, pos, n) == Ok(vs) <==> DenotesFrom(e, pos, output, n, vs)
    decreases e, 1, n
  {
    hide Decode, Denotes, TypeSize, WellFormed;
    if n > 0 && vs != [] {
      hide DenotesFrom;
      DecodeDenotes(e, pos, output, vs[0]);
      FromDenotes(e, pos + TypeSize(e), output, n - 1, vs[1..]);
      FromSplits(e, pos, output, n, vs);
      assert vs == [vs[0]] + vs[1..];
    }
  }

  lemma EachDenotes(e: Type, output: seq<byte>, n: nat, v: Value)
    requires WellFormed(e)
    ensures AsList(DecodeEach(e, output, n)) == Ok(v) <==> DenotesEach(e, output, n, v)
    decreases e, 2, 0
  {
    hide Denotes, TypeSize, WellFormed, DecodeFrom;
    if v.List? { FromDenotes(e, 0, output, n, v.items); }
  }

  /** The decoder returns a value exactly if the bytes denote it, whatever the bytes are; as it returns
      one value or an error, it fails exactly on buffers that denote nothing. */
  lemma {:induction false} DecodeDenotes(t: Type, index: nat, output: seq<byte>, v: Value)
    requires WellFormed(t)
    ensures Decode(t, index, output) == Ok(v) <==> Denotes(t, index, output, v)
    decreases t, 0, 1
  {
    hide ToNat, TypeSize, IsDynamic, DecodeEach, DecodeSeq, ReadInteger, ReadBool, ReadFunction, DenotesEach, SignedRange, Pow256,
         LengthPrefixPointsTo, ZeroBytes;
    if index + 32 <= |output| {
      var word := output[index..index + 32];
      match t
      case IntTy(s) =>
        ReadIntegerMeans(t, word, if v.Num? then v.n else 0);
        assert word[32 - Width(s)..] == output[index + 32 - Width(s)..index + 32];
      case UintTy(s) =>
        ReadIntegerMeans(t, word, if v.Num? then v.n else 0);
        assert word[32 - Width(s)..] == output[index + 32 - Width(s)..index + 32];
      case BoolTy =>
        BoolMeans(word, v);
        ZeroShift(output, index, 0, 31);
      case FunctionTy =>
        FunctionMeans(word, v);
        ZeroShift(output, index, 24, 32);
        assert word[..24] == output[index..index + 24];
      case StringTy => PrefixMeans(output, index);
      case BytesTy => PrefixMeans(output, index);
      case SliceTy(e) =>
        PrefixMeans(output, index);
        if PrefixAt(output, index) {
          EachDenotes(e, output[StartOf(output, index)..], LengthOf(output, index), v);
        }
      case ArrayTy(e, n) => ArrayDenotes(t, index, output, v);
      case TupleTy(ts) => TupleDenotes(t, index, output, v);
      case FixedBytesTy(k) => assert word[..k] == output[index..index + k];
      case AddressTy => assert word[12..] == output[index + 12..index + 32];
    }
  }

  lemma ArrayDenotes(t: Type, index: nat, output: seq<byte>, v: Value)
    requires WellFormed(t) && t.ArrayTy? && index + 32 <= |output|
    ensures Decode(t, index, output) == Ok(v) <==> Denotes(t, index, output, v)
    decreases t, 0, 0
  {
    hide ToNat, TypeSize, IsDynamic, DecodeEach, DenotesEach;
    var start := ToNat(output[index..index + 32][24..]);
    assert output[index..index + 32][24..] == output[index + 24..index + 32];
    if !IsDynamic(t.elem) {
      EachDenotes(t.elem, output[index..], t.size, v);
    } else if start <= |output| {
      EachDenotes(t.elem, output[start..], t.size, v);
    }
  }

  lemma TupleDenotes(t: Type, index: nat, output: seq<byte>, v: Value)
    requires WellFormed(t) && t.TupleTy? && index + 32 <= |output|
    ensures Decode(t, index, output) == Ok(v) <==> Denotes(t, index, output, v)
    decreases t, 0, 0
  {
    hide ToNat, TypeSize, HeadSize, IsDynamic, DecodeSeq, DecodeEach, DenotesEach, PrefixAt, SignedRange, ZeroBytes;
    var start := ToNat(output[index..index + 32]);
    if v.List? {
      if !IsDynamic(t) {
        SeqDenotes(t.elems, 0, output[index..], v.items);
      } else if start <= |output| && start < TWO63 {
        SeqDenotes(t.elems, 0, output[start..], v.items);
      }
    }
  }

  // ---------- when decoding succeeds ----------

  /** A bool is 31 zeros and then 0 or 1; every other word is refused. */
  lemma BoolDecodes(index: nat, output: seq<byte>)
    ensures Decode(BoolTy, index, output).Ok? <==>
      index + 32 <= |output| && output[index..index + 31] == Zeros(31) && output[index + 31] <= 1
    ensures Decode(BoolTy, index, output).Ok? ==> Decode(BoolTy, index, output) == Ok(Bool(output[index + 31] == 1))
  {
    hide Decode;
    if Decode(BoolTy, index, output).Ok? {
      DecodeDenotes(BoolTy, index, output, Decode(BoolTy, index, output).value);
      assert output[index..index + 31] == Zeros(31);
    }
    if index + 32 <= |output| && output[index..index + 31] == Zeros(31) && output[index + 31] <= 1 {
      assert ZeroBytes(output, index, index + 31) by {
        assert forall i | index <= i < index + 31 :: output[i] == output[index..index + 31][i - index];
      }
      DecodeDenotes(BoolTy, index, output, Bool(output[index + 31] == 1));
    }
  }

  /** A function is 24 bytes and then 8 zeros. */
  lemma FunctionDecodes(index: nat, output: seq<byte>)
    ensures Decode(FunctionTy, index, output).Ok? <==>
      index + 32 <= |output| && output[index + 24..index + 32] == Zeros(8)
    ensures Decode(FunctionTy, index, output).Ok? ==> Decode(FunctionTy, index, output) == Ok(Data(output[index..index + 24]))
  {
    hide Decode;
    if Decode(FunctionTy, index, output).Ok? {
      DecodeDenotes(FunctionTy, index, output, Decode(FunctionTy, index, output).value);
    }
    if index + 32 <= |output| && output[index + 24..index + 32] == Zeros(8) {
      assert ZeroBytes(output, index + 24, index + 32) by {
        assert forall i | index + 24 <= i < index + 32 :: output[i] == output[index + 24..index + 32][i - index - 24];
      }
      DecodeDenotes(FunctionTy, index, output, Data(output[index..index + 24]));
    }
  }

  /** Strings and bytes are refused exactly if the claimed offset or length leaves the buffer or 63
      bits, and otherwise are what is found there. */
  lemma BytesDecode(t: Type, index: nat, output: seq<byte>)
    requires t.StringTy? || t.BytesTy?
    ensures Decode(t, index, output) ==
      if index + 32 <= |output| && PrefixAt(output, index) then Ok(Data(Payload(output, index))) else Err
  {
    hide Decode, PrefixAt, Payload;
    if Decode(t, index, output).Ok? {
      DecodeDenotes(t, index, output, Decode(t, index, output).value);
    } else if index + 32 <= |output| && PrefixAt(output, index) {
      DecodeDenotes(t, index, output, Data(Payload(output, index)));
    }
  }

  /** A slice is refused if its offset or length leaves the buffer or 63 bits, and also if fewer than 32
      bytes are there for each element. */
  lemma SliceDecodes(e: Type, index: nat, output: seq<byte>)
    requires WellFormed(e) && Decode(SliceTy(e), index, output).Ok?
    ensures index + 32 <= |output| && PrefixAt(output, index)
    ensures StartOf(output, index) + 32 * LengthOf(output, index) <= |output|
    ensures var v := Decode(SliceTy(e), index, output).value; v.List? && |v.items| == LengthOf(output, index)
  {
    DecodeDenotes(SliceTy(e), index, output, Decode(SliceTy(e), index, output).value);
    hide Decode;
  }

  /** Unpacking arguments: one value for each that is not indexed, denoted at its place in the heads. */
  lemma UnpackedDenotes(args: seq<Argument>, data: seq<byte>, vs: seq<Value>)
    requires AllWellFormed(Types(args))
    ensures var ts := Types(NonIndexed(args));
      Unpacked(args, data) == Ok(vs) <==>
      |vs| == |ts| && forall j | 0 <= j < |ts| :: Denotes(ts[j], HeadSize(ts[..j]), data, vs[j])
  {
    hide Denotes, DecodeSeq, HeadSize, WellFormed, NonIndexed;
    NonIndexedWellFormed(args);
    SeqDenotes(Types(NonIndexed(args)), 0, data, vs);
  }

  // ---------- where every byte of an encoding goes ----------

  /** A value, by the positions of its bytes or of its block. */
  ghost predicate WrittenAs(t: Type, v: Value, r: seq<byte>)
    requires WellFormed(t) && HasType(t, v)
  {
    match t
    case IntTy(_) => |r| == 32 && ToNat(r) == v.n % Pow256(32)
    case UintTy(_) => |r| == 32 && ToNat(r) == v.n % Pow256(32)
    case BoolTy => |r| == 32 && ZeroBytes(r, 0, 31) && r[31] == if v.b then 1 else 0
    case StringTy => PaddedBytes(v.bytes, r)
    case BytesTy => PaddedBytes(v.bytes, r)
    case FixedBytesTy(k) => |r| == 32 && r[..k] == v.bytes && ZeroBytes(r, k, 32)
    case FunctionTy => |r| == 32 && r[..24] == v.bytes && ZeroBytes(r, 24, 32)
    case AddressTy => |r| == 32 && ZeroBytes(r, 0, 12) && r[12..] == v.bytes
    case SliceTy(e) =>
      |r| >= 32 && ToNat(r[..32]) == |v.items| % Pow256(32) && r[32..] == Block(Repeat(e, |v.items|), v.items)
    case ArrayTy(e, n) => r == Block(Repeat(e, n), v.items)
    case TupleTy(ts) => r == Block(ts, v.items)
  }

  /** The length, the bytes, and zeros up to a whole number of words. */
  ghost predicate PaddedBytes(b: seq<byte>, r: seq<byte>) {
    && |r| % 32 == 0 && 32 + |b| <= |r| < 64 + |b|
    && ToNat(r[..32]) == |b| % Pow256(32) && r[32..32 + |b|] == b && ZeroBytes(r, 32 + |b|, |r|)
  }

  lemma PackBytesPadded(b: seq<byte>)
    ensures PaddedBytes(b, PackBytes(b))
  {
    hide ToNat, Pow256;
    ToNatBigEndian(|b|, 32);
  }

  lemma BitWritten(b: bool)
    ensures var r := Word(if b then 1 else 0); |r| == 32 && ZeroBytes(r, 0, 31) && r[31] == if b then 1 else 0
  {
    BigEndianPadded(if b then 1 else 0, 32, 1);
  }

  /** Every value is written so. */
  lemma Written(t: Type, v: Value)
    requires WellFormed(t) && HasType(t, v)
    ensures WrittenAs(t, v, Encode(t, v))
  {
    hide ToNat, Pow256, BigEndian, Block, PackBytes, PaddedBytes;
    match t
    case IntTy(_) => ToNatBigEndian(v.n, 32);
    case UintTy(_) => ToNatBigEndian(v.n, 32);
    case BoolTy => BitWritten(v.b);
    case StringTy => PackBytesPadded(v.bytes);
    case BytesTy => PackBytesPadded(v.bytes);
    case SliceTy(_) => ToNatBigEndian(|v.items|, 32);
    case _ =>
  }

  /** The bytes that the dynamic ones among the first `i` components take. */
  ghost function TailLength(ts: seq<Type>, vs: seq<Value>, i: nat): nat
    requires Encodable(ts, vs) && i <= |ts|
  {
    if i == 0 then 0 else TailLength(ts, vs, i - 1) + if IsDynamic(ts[i - 1]) then |Encode(ts[i - 1], vs[i - 1])| else 0
  }

  /** A static component stands at its place among the heads; of a dynamic one there is the offset, and
      it stands there, after the heads and the dynamic components before it. */
  ghost predicate ComponentAt(ts: seq<Type>, vs: seq<Value>, r: seq<byte>, i: nat)
    requires Encodable(ts, vs) && i < |ts|
  {
    var enc, head, tail := Encode(ts[i], vs[i]), HeadSize(ts[..i]), HeadSize(ts) + TailLength(ts, vs, i);
    if IsDynamic(ts[i]) then PartAt(r, head, Word(tail)) && PartAt(r, tail, enc) else PartAt(r, head, enc)
  }

  ghost predicate PartAt(r: seq<byte>, pos: nat, part: seq<byte>) {
    pos + |part| <= |r| && r[pos..pos + |part|] == part
  }

  lemma {:induction false} HeadSizeLast(ts: seq<Type>, i: nat)
    requires i < |ts|
    ensures HeadSize(ts[..i + 1]) == HeadSize(ts[..i]) + TypeSize(ts[i])
  {
    hide TypeSize, HeadSize;
    HeadSizeFirst(ts[..i + 1]);
    HeadSizeNone();
    if i == 0 {
      assert ts[..1][1..] == [] && ts[..0] == [];
    } else {
      HeadSizeFirst(ts[..i]);
      HeadSizeLast(ts[1..], i - 1);
      assert ts[..i + 1][1..] == ts[1..][..i] && ts[..i][1..] == ts[1..][..i - 1];
    }
  }

  lemma SuffixEncodable(ts: seq<Type>, vs: seq<Value>, i: nat)
    requires Encodable(ts, vs) && i <= |ts|
    ensures Encodable(ts[i..], vs[i..])
  {
    hide HasType, WellFormed;
  }

  /** The heads and the tails from component `i` on. */
  lemma {:induction false} FromComponent(ts: seq<Type>, vs: seq<Value>, offset: nat, i: nat)
    requires Encodable(ts, vs) && i <= |ts|
    ensures Encodable(ts[i..], vs[i..])
    ensures var h := HeadSize(ts[..i]); var heads := Heads(ts, vs, offset);
      h <= |heads| && heads[h..] == Heads(ts[i..], vs[i..], offset + TailLength(ts, vs, i))
    ensures var k := TailLength(ts, vs, i); var tails := Tails(ts, vs);
      k <= |tails| && tails[k..] == Tails(ts[i..], vs[i..])
  {
    hide HasType, WellFormed, Encode, TypeSize, HeadSize, IsDynamic, Heads, Tails;
    SuffixEncodable(ts, vs, i);
    if i == 0 {
      HeadSizeNone();
      assert ts[..0] == [] && ts[0..] == ts && vs[0..] == vs;
    } else {
      FromComponent(ts, vs, offset, i - 1);
      ComponentHere(ts, vs, offset, i - 1);
    }
  }

  /** One component further. */
  lemma ComponentHere(ts: seq<Type>, vs: seq<Value>, offset: nat, i: nat)
    requires Encodable(ts, vs) && i < |ts| && Encodable(ts[i..], vs[i..]) && Encodable(ts[i + 1..], vs[i + 1..])
    requires var h := HeadSize(ts[..i]); var heads := Heads(ts, vs, offset);
      h <= |heads| && heads[h..] == Heads(ts[i..], vs[i..], offset + TailLength(ts, vs, i))
    requires var k := TailLength(ts, vs, i); var tails := Tails(ts, vs);
      k <= |tails| && tails[k..] == Tails(ts[i..], vs[i..])
    ensures var h := HeadSize(ts[..i + 1]); var heads := Heads(ts, vs, offset);
      h <= |heads| && heads[h..] == Heads(ts[i + 1..], vs[i + 1..], offset + TailLength(ts, vs, i + 1))
    ensures var k := TailLength(ts, vs, i + 1); var tails := Tails(ts, vs);
      k <= |tails| && tails[k..] == Tails(ts[i + 1..], vs[i + 1..])
    ensures var enc := Encode(ts[i], vs[i]);
      && PartAt(Heads(ts, vs, offset), HeadSize(ts[..i]), if IsDynamic(ts[i]) then Word(offset + TailLength(ts, vs, i)) else enc)
      && (IsDynamic(ts[i]) ==> PartAt(Tails(ts, vs), TailLength(ts, vs, i), enc))
  {
    hide HasType, WellFormed, Encode, TypeSize, HeadSize, IsDynamic, Heads, Tails;
    var ts', vs', at := ts[i..], vs[i..], offset + TailLength(ts, vs, i);
    HeadsTails(ts', vs', at);
    assert ts'[0] == ts[i] && vs'[0] == vs[i] && ts'[1..] == ts[i + 1..] && vs'[1..] == vs[i + 1..];
    HeadSizeLast(ts, i);
    DynamicSize(ts[i]);
    if !IsDynamic(ts[i]) { StaticSize(ts[i], vs[i]); }
    var part := if IsDynamic(ts[i]) then Word(at) else Encode(ts[i], vs[i]);
    PartFound(Heads(ts, vs, offset), HeadSize(ts[..i]), part, Heads(ts'[1..], vs'[1..], offset + TailLength(ts, vs, i + 1)));
    if IsDynamic(ts[i]) {
      PartFound(Tails(ts, vs), TailLength(ts, vs, i), Encode(ts[i], vs[i]), Tails(ts'[1..], vs'[1..]));
    }
  }

  lemma PartFound(r: seq<byte>, pos: nat, part: seq<byte>, rest: seq<byte>)
    requires pos <= |r| && r[pos..] == part + rest
    ensures PartAt(r, pos, part) && r[pos + |part|..] == rest
  {
    assert r[pos..][..|part|] == part && r[pos..][|part|..] == rest;
  }

  lemma ComponentPlaced(ts: seq<Type>, vs: seq<Value>, i: nat)
    requires Encodable(ts, vs) && i < |ts|
    ensures ComponentAt(ts, vs, Block(ts, vs), i)
  {
    hide HasType, WellFormed, Encode, TypeSize, HeadSize, IsDynamic, Heads, Tails, TailLength, PartAt;
    var size := HeadSize(ts);
    HeadsSize(ts, vs, size);
    FromComponent(ts, vs, size, i);
    SuffixEncodable(ts, vs, i + 1);
    ComponentHere(ts, vs, size, i);
    Moved(Heads(ts, vs, size), Tails(ts, vs));
  }

  /** A block is laid out by positions: this says where every byte of it comes from, as the heads and the
      dynamic components follow one another without a gap and fill it. */
  lemma BlockLaidOut(ts: seq<Type>, vs: seq<Value>)
    requires Encodable(ts, vs)
    ensures |Block(ts, vs)| == HeadSize(ts) + TailLength(ts, vs, |ts|)
    ensures forall i | 0 <= i < |ts| :: ComponentAt(ts, vs, Block(ts, vs), i)
  {
    hide HasType, WellFormed, Encode, TypeSize, HeadSize, IsDynamic, Heads, Tails, TailLength;
    var size := HeadSize(ts);
    HeadsSize(ts, vs, size);
    FromComponent(ts, vs, size, |ts|);
    NoTails(ts, vs);
    forall i | 0 <= i < |ts| ensures ComponentAt(ts, vs, Block(ts, vs), i) {
      ComponentPlaced(ts, vs, i);
    }
  }

  lemma NoTails(ts: seq<Type>, vs: seq<Value>)
    requires Encodable(ts, vs)
    ensures Encodable(ts[|ts|..], vs[|ts|..]) && Tails(ts[|ts|..], vs[|ts|..]) == []
  {
  }

  lemma Moved(a: seq<byte>, b: seq<byte>)
    ensures forall pos: nat, part: seq<byte> | PartAt(a, pos, part) :: PartAt(a + b, pos, part)
    ensures forall pos: nat, part: seq<byte> | PartAt(b, pos, part) :: PartAt(a + b, |a| + pos, part)
  {
    forall pos: nat, part: seq<byte> | PartAt(b, pos, part) ensures PartAt(a + b, |a| + pos, part) {
      assert (a + b)[|a| + pos..|a| + pos + |part|] == b[pos..pos + |part|];
    }
    forall pos: nat, part: seq<byte> | PartAt(a, pos, part) ensures PartAt(a + b, pos, part) {
      assert (a + b)[pos..pos + |part|] == a[pos..pos + |part|];
    }
  }
}

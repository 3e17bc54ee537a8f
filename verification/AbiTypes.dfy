/** Types and values of the contract ABI.

    Go's reflected values are modelled by `Value`: a tuple is positional, and one
    constructor `List` stands for slices, fixed arrays and tuples alike.  Which
    values a type admits is `HasType`; this is what Go's own typing together with
    `typeCheck` accepts.
 */
module AbiTypes {
  import opened Common
  import opened Bytes

  datatype Type =
    | IntTy(size: nat)
    | UintTy(size: nat)
    | BoolTy
    | StringTy
    | BytesTy
    | FixedBytesTy(size: nat)
    | AddressTy
    | FunctionTy
    | SliceTy(elem: Type)
    | ArrayTy(elem: Type, size: nat)
    | TupleTy(elems: seq<Type>)

  datatype Value =
    | Num(n: int)
    | Bool(b: bool)
    | Data(bytes: seq<byte>)
    | List(items: seq<Value>)

  datatype Result<+T> = Ok(value: T) | Err

  /** Go represents these widths by native integers and all others by `*big.Int`. */
  predicate Native(size: nat) {
    size == 8 || size == 16 || size == 32 || size == 64
  }

  /** The number of bytes that decide the value of an integer of the given width. */
  function Width(size: nat): (k: nat)
    ensures 1 <= k <= 32 && (if Native(size) then 8 * k == size else k == 32)
  {
    if size == 8 then 1 else if size == 16 then 2 else if size == 32 then 4 else if size == 64 then 8 else 32
  }

  predicate SignedRange(n: int, k: nat) {
    0 <= 2 * n + Pow256(k) < 2 * Pow256(k)
  }

  /** Fixed byte strings have 1 to 32 bytes: `NewType` builds no others. */
  predicate WellFormed(t: Type) {
    match t
    case FixedBytesTy(k) => 1 <= k <= 32
    case SliceTy(e) => WellFormed(e)
    case ArrayTy(e, _) => WellFormed(e)
    case TupleTy(ts) => forall e | e in ts :: WellFormed(e)
    case _ => true
  }

  predicate HasType(t: Type, v: Value)
    decreases t
  {
    match t
    case IntTy(s) => v.Num? && (Native(s) ==> SignedRange(v.n, Width(s)))
    case UintTy(s) => v.Num? && (Native(s) ==> 0 <= v.n < Pow256(Width(s)))
    case BoolTy => v.Bool?
    case StringTy => v.Data?
    case BytesTy => v.Data?
    case FixedBytesTy(k) => v.Data? && |v.bytes| == k
    case AddressTy => v.Data? && |v.bytes| == 20
    case FunctionTy => v.Data? && |v.bytes| == 24
    case SliceTy(e) => v.List? && |v.items| < TWO63 && forall x | x in v.items :: HasType(e, x)
    case ArrayTy(e, n) => v.List? && |v.items| == n && forall x | x in v.items :: HasType(e, x)
    case TupleTy(ts) => v.List? && |v.items| == |ts| && forall i | 0 <= i < |ts| :: HasType(ts[i], v.items[i])
  }

  predicate HasTypes(ts: seq<Type>, vs: seq<Value>) {
    |ts| == |vs| && forall i | 0 <= i < |ts| :: HasType(ts[i], vs[i])
  }

  function Repeat(e: Type, n: nat): (ts: seq<Type>)
    ensures |ts| == n && forall i | 0 <= i < n :: ts[i] == e
  {
    seq(n, _ => e)
  }

  predicate RequiresLengthPrefix(t: Type) {
    t.StringTy? || t.BytesTy? || t.SliceTy?
  }

  predicate IsDynamic(t: Type) {
    match t
    case TupleTy(ts) => exists e | e in ts :: IsDynamic(e)
    case ArrayTy(e, _) => IsDynamic(e)
    case _ => RequiresLengthPrefix(t)
  }

  /** `getTypeSize`: the bytes a value takes in the head of its enclosing block. */
  function TypeSize(t: Type): nat
    decreases t, 1
  {
    if t.ArrayTy? && !IsDynamic(t.elem) then
      if t.elem.ArrayTy? || t.elem.TupleTy? then t.size * TypeSize(t.elem) else t.size * 32
    else if t.TupleTy? && !IsDynamic(t) then HeadSize(t.elems)
    else 32
  }

  function HeadSize(ts: seq<Type>): nat
    decreases ts, 0
  {
    if ts == [] then 0 else TypeSize(ts[0]) + HeadSize(ts[1..])
  }

  lemma {:induction false} TypeSizeWords(t: Type)
    ensures TypeSize(t) % 32 == 0
    decreases t, 1
  {
    hide HeadSize, IsDynamic;
    if t.ArrayTy? && !IsDynamic(t.elem) && (t.elem.ArrayTy? || t.elem.TupleTy?) {
      TypeSizeWords(t.elem);
      var q := TypeSize(t.elem) / 32;
      assert t.size * TypeSize(t.elem) == 32 * (t.size * q);
    } else if t.TupleTy? && !IsDynamic(t) {
      HeadSizeWords(t.elems);
    }
  }

  lemma {:induction false} HeadSizeWords(ts: seq<Type>)
    ensures HeadSize(ts) % 32 == 0
    decreases ts, 0
  {
    hide TypeSize, IsDynamic;
    if ts != [] {
      TypeSizeWords(ts[0]);
      HeadSizeWords(ts[1..]);
    }
  }

  lemma {:induction false} HeadSizeRepeat(e: Type, n: nat)
    ensures HeadSize(Repeat(e, n)) == n * TypeSize(e)
  {
    if n > 0 {
      assert Repeat(e, n)[1..] == Repeat(e, n - 1);
      HeadSizeRepeat(e, n - 1);
    }
  }
}

/** The payload encoder of tensor.go, stated as functions over values.

    A Go value handed to InferTensorFromValue is a tree: slices and arrays
    are `List` nodes, numbers are leaves. The TensorProto under construction
    is snapshotted as a `Tensor` value; every function below maps the
    snapshot before a step to the snapshot after it, or to the panic the
    step raises. The loops of the source (over the children of a slice, over
    the leaves of a leaf-level slice) are left folds over a prefix, so that
    a loop invariant can say "the first i iterations produced this". */
module TensorSpec {
  import opened Results

  newtype Int32 = x: int | -0x8000_0000 <= x < 0x8000_0000
  newtype Int64 = x: int | -0x8000_0000_0000_0000 <= x < 0x8000_0000_0000_0000

  /** A node of the value tree. Floating-point leaves carry their IEEE-754
      bit pattern, which the model never interprets. `GoInt` is Go's `int`
      (64 bits wide on the platforms the tool targets). `Nil` is an untyped
      nil, which a JSON `null` decodes to. `Other` stands for every other
      dynamic type: strings, booleans, maps, unsigned integers. */
  datatype Value =
    | List(elems: seq<Value>)
    | F32(bits32: bv32)
    | F64(bits64: bv64)
    | GoInt(intValue: Int64)
    | GoInt32(int32Value: Int32)
    | GoInt64(int64Value: Int64)
    | Nil
    | Other

  /** An element of FloatVal. A float32 leaf is stored as it is; a float64
      leaf is stored as float32(x), which the model keeps symbolic as
      Narrowed(bits of x) instead of computing the rounding. */
  datatype Float32 = Single(bits: bv32) | Narrowed(wide: bv64)

  /** The zero value `make([]float32, n)` fills a fresh buffer with. */
  const ZeroFloat: Float32 := Single(0)

  /** The TensorProto dtype tags the encoder uses; DtInvalid is the zero
      value a fresh TensorProto starts with. */
  datatype DataType = DtInvalid | DtFloat | DtInt32

  /** A snapshot of the TensorProto: the sizes in TensorShape.Dim, the
      dtype and the two value buffers. */
  datatype Tensor = Tensor(dim: seq<int>, dtype: DataType, floatVal: seq<Float32>, intVal: seq<Int32>)

  /** The TensorProto InferTensorFromValue starts from. */
  const EmptyTensor: Tensor := Tensor([], DtInvalid, [], [])

  /** The panics that abort an encode: "Slice can not be empty", "value must
      be a slice", "Unknown type %T", Go's runtime index-out-of-range panic
      on a buffer write, and the runtime nil dereference of
      `reflect.TypeOf(nil).Kind()` when a nil is converted as a slice. */
  datatype Panic = EmptySlice | NotASlice | UnknownType | IndexOutOfRange | NilDereference

  /** The leaves the dtype peek classifies as floating point. */
  predicate IsFloatLeaf(v: Value) { v.F32? || v.F64? }

  /** The leaves the dtype peek classifies as integral (int64 included). */
  predicate IsIntLeaf(v: Value) { v.GoInt? || v.GoInt32? || v.GoInt64? }

  /** Go's conversion int32(x): keep the low 32 bits, two's complement. */
  function WrapToInt32(x: int): (r: Int32)
    ensures (r as int - x) % 0x1_0000_0000 == 0
    ensures -0x8000_0000 <= x < 0x8000_0000 ==> r as int == x
  {
    ((x + 0x8000_0000) % 0x1_0000_0000 - 0x8000_0000) as Int32
  }

  /** The buffer `make` allocates: n zero values. */
  function Zeros<T>(n: nat, zero: T): (r: seq<T>)
    ensures |r| == n && forall i :: 0 <= i < n ==> r[i] == zero
  {
    seq(n, _ => zero)
  }

  /** Lines 36-44: a dimension is appended only when none is recorded yet
      for this depth. */
  function ExtendShape(t: Tensor, size: int, level: nat): (r: Tensor)
  {
    if |t.dim| <= level then t.(dim := t.dim + [size]) else t
  }

  /** convertToTensor(tensor, value, level). */
  function ConvertToTensor(t: Tensor, value: Value, level: nat): Result<Tensor, Panic>
    decreases value, 1
  {
    if value.Nil? then Failure(NilDereference)
    else if !value.List? then Failure(NotASlice)
    else if |value.elems| == 0 then Failure(EmptySlice)
    else
      var t1 := ExtendShape(t, |value.elems|, level);
      if value.elems[0].List? then ConvertElems(t1, value, |value.elems|, level + 1)
      else CopyTensorData(t1, value.elems)
  }

  /** The first n iterations of the loop at lines 50-52: each child of the
      slice `value` is converted one level deeper, and the first panic ends
      the encode. */
  function ConvertElems(t: Tensor, value: Value, n: nat, level: nat): Result<Tensor, Panic>
    requires value.List? && n <= |value.elems|
    decreases value, 0, n
  {
    if n == 0 then Success(t)
    else
      match ConvertElems(t, value, n - 1, level)
      case Failure(e) => Failure(e)
      case Success(t') => ConvertToTensor(t', value.elems[n - 1], level)
  }

  /** Lines 64-80: peek at the first leaf, set the dtype, and grow the
      matching buffer by n zero values; the second component is `idx`, the
      buffer's old length. A first leaf of any other type leaves the tensor
      as it is and `idx` at its zero value. */
  function PrepareBuffer(t: Tensor, first: Value, n: nat): (Tensor, nat)
  {
    if IsFloatLeaf(first) then
      (t.(dtype := DtFloat, floatVal := t.floatVal + Zeros(n, ZeroFloat)), |t.floatVal|)
    else if IsIntLeaf(first) then
      (t.(dtype := DtInt32, intVal := t.intVal + Zeros(n, 0 as Int32)), |t.intVal|)
    else
      (t, 0)
  }

  /** copyTensorData(tensor, value, s) for the leaf-level slice s. */
  function CopyTensorData(t: Tensor, s: seq<Value>): Result<Tensor, Panic>
    requires |s| > 0
  {
    var (t1, idx) := PrepareBuffer(t, s[0], |s|);
    StoreLeaves(t1, s, idx, |s|)
  }

  /** The first n iterations of the loop at lines 83-98: leaf i is written
      at position idx + i of the buffer its own type selects. */
  function StoreLeaves(t: Tensor, s: seq<Value>, idx: nat, n: nat): Result<Tensor, Panic>
    requires n <= |s|
  {
    if n == 0 then Success(t)
    else
      match StoreLeaves(t, s, idx, n - 1)
      case Failure(e) => Failure(e)
      case Success(t') => StoreLeaf(t', s[n - 1], idx + n - 1)
  }

  /** One iteration of the type switch at lines 86-97. The index is checked
      against the buffer the leaf's type selects, which need not be the one
      the peek grew. */
  function StoreLeaf(t: Tensor, leaf: Value, pos: nat): (r: Result<Tensor, Panic>)
    ensures r.Success? ==> r.value.dim == t.dim && r.value.dtype == t.dtype
    ensures r.Success? ==> |r.value.floatVal| == |t.floatVal| && |r.value.intVal| == |t.intVal|
  {
    match leaf
    case F32(b) =>
      if pos < |t.floatVal| then Success(t.(floatVal := t.floatVal[pos := Single(b)]))
      else Failure(IndexOutOfRange)
    case F64(b) =>
      if pos < |t.floatVal| then Success(t.(floatVal := t.floatVal[pos := Narrowed(b)]))
      else Failure(IndexOutOfRange)
    case GoInt(x) =>
      if pos < |t.intVal| then Success(t.(intVal := t.intVal[pos := WrapToInt32(x as int)]))
      else Failure(IndexOutOfRange)
    case GoInt32(x) =>
      if pos < |t.intVal| then Success(t.(intVal := t.intVal[pos := x]))
      else Failure(IndexOutOfRange)
    case _ => Failure(UnknownType)
  }

  /** InferTensorFromValue(value): convert into a fresh TensorProto. */
  function InferTensorFromValue(value: Value): Result<Tensor, Panic>
  {
    ConvertToTensor(EmptyTensor, value, 0)
  }

  /** Once a child's conversion panics, the loop over the children has
      panicked for good: later iterations are never reached. */
  lemma {:induction false} ConvertElemsFailurePersists(t: Tensor, value: Value, i: nat, n: nat, level: nat)
    requires value.List? && i <= n <= |value.elems|
    requires ConvertElems(t, value, i, level).Failure?
    ensures ConvertElems(t, value, n, level) == ConvertElems(t, value, i, level)
    decreases n
  {
    if n > i {
      ConvertElemsFailurePersists(t, value, i, n - 1, level);
    }
  }

  /** Once a leaf's store panics, so has the whole copy loop. */
  lemma {:induction false} StoreLeavesFailurePersists(t: Tensor, s: seq<Value>, idx: nat, i: nat, n: nat)
    requires i <= n <= |s|
    requires StoreLeaves(t, s, idx, i).Failure?
    ensures StoreLeaves(t, s, idx, n) == StoreLeaves(t, s, idx, i)
    decreases n
  {
    if n > i {
      StoreLeavesFailurePersists(t, s, idx, i, n - 1);
    }
  }
}

/** What the encoder of tensor.go guarantees, proved about the functions of
    TensorSpec (and so, through the methods' postconditions, about the
    TensorProto object the encoder fills in). */
module TensorProperties {
  import opened Results
  import opened TensorSpec

  /** The two families of leaves the copy loop can store. */
  datatype Kind = FloatKind | IntKind

  /** Leaves of kind k that the copy loop stores without panicking; int64
      is not one of them (the loop's switch has no case for it). */
  predicate OfKind(v: Value, k: Kind)
  {
    match k
    case FloatKind => v.F32? || v.F64?
    case IntKind => v.GoInt? || v.GoInt32?
  }

  /** The dtype the peek chooses for leaves of kind k. */
  function DtypeOf(k: Kind): DataType
  {
    match k
    case FloatKind => DtFloat
    case IntKind => DtInt32
  }

  /** The FloatVal element a leaf becomes. */
  function FloatOf(v: Value): Float32
  {
    match v
    case F32(b) => Single(b)
    case F64(b) => Narrowed(b)
    case _ => ZeroFloat
  }

  /** The IntVal element a leaf becomes. */
  function IntOf(v: Value): Int32
  {
    match v
    case GoInt(x) => WrapToInt32(x as int)
    case GoInt32(x) => x
    case _ => 0
  }

  function FloatsOf(leaves: seq<Value>): (r: seq<Float32>)
    ensures |r| == |leaves| && forall i :: 0 <= i < |leaves| ==> r[i] == FloatOf(leaves[i])
  {
    seq(|leaves|, i requires 0 <= i < |leaves| => FloatOf(leaves[i]))
  }

  function IntsOf(leaves: seq<Value>): (r: seq<Int32>)
    ensures |r| == |leaves| && forall i :: 0 <= i < |leaves| ==> r[i] == IntOf(leaves[i])
  {
    seq(|leaves|, i requires 0 <= i < |leaves| => IntOf(leaves[i]))
  }

  /** The tensor t after leaves of kind k have been appended to the buffer
      of that kind, with the dtype set accordingly. */
  function Absorb(t: Tensor, k: Kind, leaves: seq<Value>): Tensor
  {
    match k
    case FloatKind => t.(dtype := DtFloat, floatVal := t.floatVal + FloatsOf(leaves))
    case IntKind => t.(dtype := DtInt32, intVal := t.intVal + IntsOf(leaves))
  }

  /** The leaves of a value tree in traversal order: row-major order when
      the tree is rectangular. */
  function Flatten(v: Value): seq<Value>
    decreases v, 1
  {
    if v.List? then FlattenElems(v, |v.elems|) else [v]
  }

  /** The leaves of the first n children of v. */
  function FlattenElems(v: Value, n: nat): seq<Value>
    requires v.List? && n <= |v.elems|
    decreases v, 0, n
  {
    if n == 0 then [] else FlattenElems(v, n - 1) + Flatten(v.elems[n - 1])
  }

  function Product(shape: seq<int>): int
  {
    if shape == [] then 1 else shape[0] * Product(shape[1..])
  }

  /** v is a dense tensor of the given shape whose leaves are all of kind
      k: every slice at depth d has shape[d] > 0 elements. */
  ghost predicate Dense(v: Value, shape: seq<int>, k: Kind)
    decreases v
  {
    v.List? && |shape| > 0 && shape[0] == |v.elems| > 0 &&
    (|shape| == 1 ==> forall i :: 0 <= i < |v.elems| ==> OfKind(v.elems[i], k)) &&
    (|shape| > 1 ==> forall i :: 0 <= i < |v.elems| ==> Dense(v.elems[i], shape[1..], k))
  }

  /** The depth of the nesting along the first element of every slice. */
  function FirstPathDepth(v: Value): nat
    decreases v
  {
    if v.List? && |v.elems| > 0 && v.elems[0].List? then 1 + FirstPathDepth(v.elems[0]) else 1
  }

  /** Leaves the copy loop has no case for. */
  predicate Unstorable(v: Value) { v.List? || v.GoInt64? || v.Nil? || v.Other? }

  /** v is rejected by the encoder whatever state it starts in: it is not
      a slice, or it is empty, or (at a slice level) some child is rejected,
      or (at the leaf level) some element is unstorable. */
  ghost predicate Rejected(v: Value)
    decreases v
  {
    match v
    case List(es) =>
      |es| == 0 ||
      (es[0].List? && exists i :: 0 <= i < |es| && Rejected(es[i])) ||
      (!es[0].List? && exists i :: 0 <= i < |es| && Unstorable(es[i]))
    case _ => true
  }

  /** Some slice anywhere in v is empty. */
  ghost predicate HasEmptySlice(v: Value)
    decreases v
  {
    match v
    case List(es) => |es| == 0 || exists i :: 0 <= i < |es| && HasEmptySlice(es[i])
    case _ => false
  }

  // ---------------------------------------------------------------------
  // Leaf-level slices: the dtype peek, the buffer growth, the stores.

  /** The state of a homogeneous copy after its first n stores: the buffer
      of kind k holds its old contents, the first n leaves, then zeros. */
  function Filled(t: Tensor, k: Kind, s: seq<Value>, n: nat): Tensor
    requires n <= |s|
  {
    match k
    case FloatKind =>
      t.(dtype := DtFloat, floatVal := t.floatVal + FloatsOf(s[..n]) + Zeros(|s| - n, ZeroFloat))
    case IntKind =>
      t.(dtype := DtInt32, intVal := t.intVal + IntsOf(s[..n]) + Zeros(|s| - n, 0 as Int32))
  }

  lemma {:induction false} StoreHomogeneousPrefix(t: Tensor, k: Kind, s: seq<Value>, n: nat)
    requires n <= |s|
    requires forall i :: 0 <= i < |s| ==> OfKind(s[i], k)
    ensures StoreLeaves(Filled(t, k, s, 0), s, if k == FloatKind then |t.floatVal| else |t.intVal|, n)
            == Success(Filled(t, k, s, n))
  {
    if n > 0 {
      StoreHomogeneousPrefix(t, k, s, n - 1);
      var before := Filled(t, k, s, n - 1);
      var after := Filled(t, k, s, n);
      assert s[..n] == s[..n - 1] + [s[n - 1]];
      match k
      case FloatKind =>
        var pos := |t.floatVal| + n - 1;
        assert StoreLeaf(before, s[n - 1], pos) == Success(before.(floatVal := before.floatVal[pos := FloatOf(s[n - 1])]));
        assert before.floatVal[pos := FloatOf(s[n - 1])] == after.floatVal;
      case IntKind =>
        var pos := |t.intVal| + n - 1;
        assert StoreLeaf(before, s[n - 1], pos) == Success(before.(intVal := before.intVal[pos := IntOf(s[n - 1])]));
        assert before.intVal[pos := IntOf(s[n - 1])] == after.intVal;
    }
  }

  /** A leaf-level slice whose leaves all have kind k sets the dtype of k
      and appends exactly its leaves, in order, to the buffer of k; nothing
      else changes. */
  lemma CopyHomogeneous(t: Tensor, s: seq<Value>, k: Kind)
    requires |s| > 0
    requires forall i :: 0 <= i < |s| ==> OfKind(s[i], k)
    ensures CopyTensorData(t, s) == Success(Absorb(t, k, s))
  {
    assert s[..0] == [] && s[..|s|] == s;
    match k {
      case FloatKind =>
        assert Filled(t, k, s, 0).floatVal == t.floatVal + Zeros(|s|, ZeroFloat);
        assert Filled(t, k, s, |s|).floatVal == t.floatVal + FloatsOf(s);
      case IntKind =>
        assert Filled(t, k, s, 0).intVal == t.intVal + Zeros(|s|, 0 as Int32);
        assert Filled(t, k, s, |s|).intVal == t.intVal + IntsOf(s);
    }
    assert PrepareBuffer(t, s[0], |s|) == (Filled(t, k, s, 0), if k == FloatKind then |t.floatVal| else |t.intVal|);
    StoreHomogeneousPrefix(t, k, s, |s|);
  }

  /** A leaf-level slice of leaves of kind k, converted at depth level:
      its length is recorded when no dimension exists yet for that depth,
      and its leaves are appended to the buffer of k. */
  lemma LeafSliceConverts(t: Tensor, row: Value, level: nat, k: Kind)
    requires row.List? && |row.elems| > 0
    requires forall i :: 0 <= i < |row.elems| ==> OfKind(row.elems[i], k)
    ensures |t.dim| <= level ==>
      ConvertToTensor(t, row, level) == Success(Absorb(t.(dim := t.dim + [|row.elems|]), k, row.elems))
    ensures |t.dim| > level ==> ConvertToTensor(t, row, level) == Success(Absorb(t, k, row.elems))
  {
    CopyHomogeneous(ExtendShape(t, |row.elems|, level), row.elems, k);
  }

  /** The stores of the copy loop never change the shape or the dtype, nor
      the length of either buffer; a successful run stored its first leaf,
      so that leaf is a float32, float64, int or int32. */
  lemma {:induction false} StoreLeavesKeeps(t: Tensor, s: seq<Value>, idx: nat, n: nat)
    requires n <= |s|
    requires StoreLeaves(t, s, idx, n).Success?
    ensures var r := StoreLeaves(t, s, idx, n).value;
      r.dim == t.dim && r.dtype == t.dtype && |r.floatVal| == |t.floatVal| && |r.intVal| == |t.intVal|
    ensures n > 0 ==> IsFloatLeaf(s[0]) || s[0].GoInt? || s[0].GoInt32?
  {
    if n > 0 {
      StoreLeavesKeeps(t, s, idx, n - 1);
    }
  }

  /** tensor.go:65-80: after a successful copy of a leaf-level slice the
      dtype is DT_FLOAT when its first leaf is float32/float64 and DT_INT32
      when it is int/int32; the shape is untouched. */
  lemma CopyDtype(t: Tensor, s: seq<Value>)
    requires |s| > 0
    requires CopyTensorData(t, s).Success?
    ensures CopyTensorData(t, s).value.dim == t.dim
    ensures IsFloatLeaf(s[0]) ==> CopyTensorData(t, s).value.dtype == DtFloat
    ensures !IsFloatLeaf(s[0]) ==> (s[0].GoInt? || s[0].GoInt32?) && CopyTensorData(t, s).value.dtype == DtInt32
  {
    var (t1, idx) := PrepareBuffer(t, s[0], |s|);
    StoreLeavesKeeps(t1, s, idx, |s|);
  }

  /** The float stores of the first n iterations: every float leaf i sits
      at idx + i, and nothing below idx was written. */
  lemma {:induction false} StoreLeavesFloatLayout(t: Tensor, s: seq<Value>, idx: nat, n: nat)
    requires n <= |s| && idx <= |t.floatVal|
    requires StoreLeaves(t, s, idx, n).Success?
    ensures var r := StoreLeaves(t, s, idx, n).value;
      |r.floatVal| == |t.floatVal| && r.floatVal[..idx] == t.floatVal[..idx] &&
      forall i :: 0 <= i < n && IsFloatLeaf(s[i]) ==> idx + i < |r.floatVal| && r.floatVal[idx + i] == FloatOf(s[i])
  {
    if n > 0 {
      StoreLeavesFloatLayout(t, s, idx, n - 1);
      StoreLeavesKeeps(t, s, idx, n - 1);
    }
  }

  /** The int stores of the first n iterations, likewise. */
  lemma {:induction false} StoreLeavesIntLayout(t: Tensor, s: seq<Value>, idx: nat, n: nat)
    requires n <= |s| && idx <= |t.intVal|
    requires StoreLeaves(t, s, idx, n).Success?
    ensures var r := StoreLeaves(t, s, idx, n).value;
      |r.intVal| == |t.intVal| && r.intVal[..idx] == t.intVal[..idx] &&
      forall i :: 0 <= i < n && (s[i].GoInt? || s[i].GoInt32?) ==> idx + i < |r.intVal| && r.intVal[idx + i] == IntOf(s[i])
  {
    if n > 0 {
      StoreLeavesIntLayout(t, s, idx, n - 1);
      StoreLeavesKeeps(t, s, idx, n - 1);
    }
  }

  /** tensor.go:68-79 and 83-94: copying a leaf-level slice s whose first
      leaf is a float grows FloatVal by exactly |s|, keeps every value
      stored before, and puts float leaf i at position oldLen + i; IntVal
      keeps its length. */
  lemma CopyAppendsFloats(t: Tensor, s: seq<Value>)
    requires |s| > 0 && IsFloatLeaf(s[0])
    requires CopyTensorData(t, s).Success?
    ensures var r := CopyTensorData(t, s).value;
      |r.floatVal| == |t.floatVal| + |s| && r.floatVal[..|t.floatVal|] == t.floatVal &&
      |r.intVal| == |t.intVal| &&
      forall i :: 0 <= i < |s| && IsFloatLeaf(s[i]) ==> r.floatVal[|t.floatVal| + i] == FloatOf(s[i])
  {
    var (t1, idx) := PrepareBuffer(t, s[0], |s|);
    StoreLeavesFloatLayout(t1, s, idx, |s|);
    StoreLeavesKeeps(t1, s, idx, |s|);
    assert t1.floatVal[..idx] == t.floatVal;
  }

  /** The same for a slice whose first leaf is an int or int32. */
  lemma CopyAppendsInts(t: Tensor, s: seq<Value>)
    requires |s| > 0 && (s[0].GoInt? || s[0].GoInt32?)
    requires CopyTensorData(t, s).Success?
    ensures var r := CopyTensorData(t, s).value;
      |r.intVal| == |t.intVal| + |s| && r.intVal[..|t.intVal|] == t.intVal &&
      |r.floatVal| == |t.floatVal| &&
      forall i :: 0 <= i < |s| && (s[i].GoInt? || s[i].GoInt32?) ==> r.intVal[|t.intVal| + i] == IntOf(s[i])
  {
    var (t1, idx) := PrepareBuffer(t, s[0], |s|);
    StoreLeavesIntLayout(t1, s, idx, |s|);
    StoreLeavesKeeps(t1, s, idx, |s|);
    assert t1.intVal[..idx] == t.intVal;
  }

  /** tensor.go:73 and 86-96: the peek accepts int64 and sets DT_INT32, but
      the copy loop has no case for it, so a leaf slice starting with an
      int64 always panics with "Unknown type". */
  lemma Int64PeekedThenRejected(t: Tensor, s: seq<Value>)
    requires |s| > 0 && s[0].GoInt64?
    ensures PrepareBuffer(t, s[0], |s|).0.dtype == DtInt32
    ensures CopyTensorData(t, s) == Failure(UnknownType)
  {
    var (t1, idx) := PrepareBuffer(t, s[0], |s|);
    StoreLeavesFailurePersists(t1, s, idx, 1, |s|);
  }

  // ---------------------------------------------------------------------
  // The shape.

  /** tensor.go:36-52: converting never changes a recorded dimension, it
      only appends; the first slice converted at a depth with nothing
      recorded fixes that depth's size; recorded sizes stay positive; and
      the shape is at least as deep as the nesting along the first elements. */
  lemma {:induction false} ShapeOnlyGrows(t: Tensor, v: Value, level: nat)
    requires ConvertToTensor(t, v, level).Success?
    ensures v.List? && |v.elems| > 0
    ensures var r := ConvertToTensor(t, v, level).value;
      t.dim <= r.dim &&
      (|t.dim| == level ==> |r.dim| > level && r.dim[level] == |v.elems|) &&
      ((forall d :: 0 <= d < |t.dim| ==> t.dim[d] > 0) ==> forall d :: 0 <= d < |r.dim| ==> r.dim[d] > 0) &&
      (level <= |t.dim| ==> |r.dim| >= level + FirstPathDepth(v))
    decreases v, 1
  {
    var es := v.elems;
    var t1 := ExtendShape(t, |es|, level);
    if es[0].List? {
      ShapeOnlyGrowsElems(t1, v, |es|, level + 1);
    } else {
      CopyDtype(t1, es);
    }
  }

  lemma {:induction false} ShapeOnlyGrowsElems(t: Tensor, v: Value, n: nat, level: nat)
    requires v.List? && n <= |v.elems|
    requires ConvertElems(t, v, n, level).Success?
    ensures var r := ConvertElems(t, v, n, level).value;
      t.dim <= r.dim &&
      ((forall d :: 0 <= d < |t.dim| ==> t.dim[d] > 0) ==> forall d :: 0 <= d < |r.dim| ==> r.dim[d] > 0) &&
      (level <= |t.dim| && n > 0 ==> |r.dim| >= level + FirstPathDepth(v.elems[0]))
    decreases v, 0, n
  {
    if n > 0 {
      ShapeOnlyGrowsElems(t, v, n - 1, level);
      var t' := ConvertElems(t, v, n - 1, level).value;
      ShapeOnlyGrows(t', v.elems[n - 1], level);
    }
  }

  // ---------------------------------------------------------------------
  // Dense input: shape, order and size.

  lemma AbsorbTwice(t: Tensor, k: Kind, a: seq<Value>, b: seq<Value>, d: seq<int>)
    ensures Absorb(Absorb(t, k, a).(dim := d), k, b) == Absorb(t, k, a + b).(dim := d)
  {
    match k
    case FloatKind => assert FloatsOf(a + b) == FloatsOf(a) + FloatsOf(b);
    case IntKind => assert IntsOf(a + b) == IntsOf(a) + IntsOf(b);
  }

  lemma {:induction false} FlattenLeafSlice(v: Value, n: nat)
    requires v.List? && n <= |v.elems|
    requires forall i :: 0 <= i < |v.elems| ==> !v.elems[i].List?
    ensures FlattenElems(v, n) == v.elems[..n]
  {
    if n > 0 {
      FlattenLeafSlice(v, n - 1);
      assert v.elems[..n] == v.elems[..n - 1] + [v.elems[n - 1]];
    }
  }

  /** The heart of the encoder's contract for dense input: starting at
      depth `level` with the dimensions recorded from `level` on agreeing
      with a prefix of the shape, a dense tensor of kind k records the rest
      of its shape and appends its leaves in traversal order. */
  lemma {:induction false} DenseConverts(t: Tensor, v: Value, shape: seq<int>, k: Kind, level: nat)
    requires Dense(v, shape, k)
    requires level <= |t.dim| && t.dim[level..] <= shape
    ensures ConvertToTensor(t, v, level) == Success(Absorb(t, k, Flatten(v)).(dim := t.dim[..level] + shape))
    decreases v, 1
  {
    var es := v.elems;
    var t1 := ExtendShape(t, |es|, level);
    assert t1.dim[..level + 1] == t.dim[..level] + [shape[0]];
    assert t1.dim[level + 1..] <= shape[1..];
    if |shape| == 1 {
      CopyHomogeneous(t1, es, k);
      FlattenLeafSlice(v, |es|);
      assert es[..|es|] == es;
      assert t1.dim == t.dim[..level] + shape;
    } else {
      assert Dense(es[0], shape[1..], k);
      DenseElems(t1, v, shape, k, level, |es|, t.dim[..level]);
    }
  }

  lemma {:induction false} DenseElems(t1: Tensor, v: Value, shape: seq<int>, k: Kind, level: nat, n: nat, prefix: seq<int>)
    requires Dense(v, shape, k) && |shape| > 1
    requires 1 <= n <= |v.elems|
    requires |prefix| == level && level + 1 <= |t1.dim|
    requires t1.dim[..level + 1] == prefix + [shape[0]] && t1.dim[level + 1..] <= shape[1..]
    ensures ConvertElems(t1, v, n, level + 1) == Success(Absorb(t1, k, FlattenElems(v, n)).(dim := prefix + shape))
    decreases v, 0, n
  {
    var e := v.elems[n - 1];
    assert Dense(e, shape[1..], k);
    assert prefix + [shape[0]] + shape[1..] == prefix + shape;
    if n == 1 {
      DenseConverts(t1, e, shape[1..], k, level + 1);
      assert FlattenElems(v, 1) == Flatten(e);
      assert Absorb(t1, k, Flatten(e)).dim == t1.dim;
    } else {
      DenseElems(t1, v, shape, k, level, n - 1, prefix);
      var tp := Absorb(t1, k, FlattenElems(v, n - 1)).(dim := prefix + shape);
      assert tp.dim[..level + 1] == prefix + [shape[0]];
      assert tp.dim[level + 1..] == shape[1..];
      DenseConverts(tp, e, shape[1..], k, level + 1);
      AbsorbTwice(t1, k, FlattenElems(v, n - 1), Flatten(e), prefix + shape);
    }
  }

  /** A dense tensor of kind k has Product(shape) leaves. */
  lemma {:induction false} DenseLeafCount(v: Value, shape: seq<int>, k: Kind)
    requires Dense(v, shape, k)
    ensures |Flatten(v)| == Product(shape)
    decreases v, 1
  {
    DenseLeafCountElems(v, shape, k, |v.elems|);
    assert Product(shape) == shape[0] * Product(shape[1..]);
    if |shape| == 1 {
      assert shape[1..] == [];
    }
  }

  lemma {:induction false} DenseLeafCountElems(v: Value, shape: seq<int>, k: Kind, n: nat)
    requires Dense(v, shape, k) && n <= |v.elems|
    ensures |FlattenElems(v, n)| == n * Product(shape[1..])
    decreases v, 0, n
  {
    if n > 0 {
      DenseLeafCountElems(v, shape, k, n - 1);
      var e := v.elems[n - 1];
      if |shape| == 1 {
        assert shape[1..] == [];
        assert Flatten(e) == [e];
      } else {
        assert Dense(e, shape[1..], k);
        DenseLeafCount(e, shape[1..], k);
      }
      assert (n - 1) * Product(shape[1..]) + Product(shape[1..]) == n * Product(shape[1..]);
    }
  }

  /** InferTensorFromValue on a dense tensor of kind k: the shape is the
      tensor's shape, the dtype is k's, the buffer of k holds the leaves in
      row-major order and its length is the product of the shape; the other
      buffer stays empty. */
  lemma InferDense(v: Value, shape: seq<int>, k: Kind)
    requires Dense(v, shape, k)
    ensures InferTensorFromValue(v) == Success(Absorb(EmptyTensor, k, Flatten(v)).(dim := shape))
    ensures k == FloatKind ==> InferTensorFromValue(v) == Success(Tensor(shape, DtFloat, FloatsOf(Flatten(v)), []))
    ensures k == IntKind ==> InferTensorFromValue(v) == Success(Tensor(shape, DtInt32, [], IntsOf(Flatten(v))))
    ensures |Flatten(v)| == Product(shape)
  {
    assert EmptyTensor.dim[0..] == [] <= shape;
    DenseConverts(EmptyTensor, v, shape, k, 0);
    assert EmptyTensor.dim[..0] + shape == shape;
    assert [] + FloatsOf(Flatten(v)) == FloatsOf(Flatten(v));
    assert [] + IntsOf(Flatten(v)) == IntsOf(Flatten(v));
    DenseLeafCount(v, shape, k);
  }

  /** tensor.go:36-44 and 83-94: a flat slice of n leaves of kind k gives
      shape [n] and the buffer of k equal to the leaves in order. */
  lemma FlatSlice(s: seq<Value>, k: Kind)
    requires |s| > 0
    requires forall i :: 0 <= i < |s| ==> OfKind(s[i], k)
    ensures k == FloatKind ==> InferTensorFromValue(List(s)) == Success(Tensor([|s|], DtFloat, FloatsOf(s), []))
    ensures k == IntKind ==> InferTensorFromValue(List(s)) == Success(Tensor([|s|], DtInt32, [], IntsOf(s)))
  {
    assert Dense(List(s), [|s|], k);
    InferDense(List(s), [|s|], k);
    FlattenLeafSlice(List(s), |s|);
    assert s[..|s|] == s;
  }

  /** The position of row i, column j in a row-major layout of c columns. */
  function RowMajor(i: nat, j: nat, c: nat): nat
  {
    i * c + j
  }

  /** Row i, column j lies before row m when i < m, and on row m at
      offset j of it. */
  lemma RowMajorBound(i: nat, j: nat, c: nat, m: nat)
    requires j < c
    ensures i < m ==> RowMajor(i, j, c) < m * c
    ensures RowMajor(m, j, c) == m * c + j
  {
    if i < m {
      assert i * c + j < i * c + c == (i + 1) * c;
      assert (i + 1) * c <= m * c;
    }
  }

  lemma RowsLength(n: nat, c: nat)
    requires n > 0
    ensures (n - 1) * c + c == n * c
  {
  }

  /** The leaves of n rows of c leaves each, in row-major order. */
  lemma {:induction false} FlattenRowMajor(v: Value, c: nat, n: nat)
    requires v.List? && n <= |v.elems|
    requires forall i :: 0 <= i < |v.elems| ==>
      v.elems[i].List? && |v.elems[i].elems| == c && (forall j :: 0 <= j < c ==> !v.elems[i].elems[j].List?)
    ensures |FlattenElems(v, n)| == n * c
    ensures forall i, j :: 0 <= i < n && 0 <= j < c ==>
      RowMajor(i, j, c) < n * c && FlattenElems(v, n)[RowMajor(i, j, c)] == v.elems[i].elems[j]
  {
    if n > 0 {
      FlattenRowMajor(v, c, n - 1);
      var row := v.elems[n - 1];
      FlattenLeafSlice(row, c);
      assert row.elems[..c] == row.elems;
      assert Flatten(row) == row.elems;
      var before := FlattenElems(v, n - 1);
      var after := FlattenElems(v, n);
      assert after == before + row.elems;
      RowsLength(n, c);
      forall i, j | 0 <= i < n && 0 <= j < c
        ensures RowMajor(i, j, c) < n * c && after[RowMajor(i, j, c)] == v.elems[i].elems[j]
      {
        RowMajorBound(i, j, c, n - 1);
        RowMajorBound(i, j, c, n);
        if i < n - 1 {
          assert after[RowMajor(i, j, c)] == before[RowMajor(i, j, c)];
        }
      }
    }
  }

  lemma MatrixIsDense(v: Value, r: nat, c: nat, k: Kind)
    requires v.List? && |v.elems| == r > 0 && c > 0
    requires forall i :: 0 <= i < r ==>
      v.elems[i].List? && |v.elems[i].elems| == c && (forall j :: 0 <= j < c ==> OfKind(v.elems[i].elems[j], k))
    ensures Dense(v, [r, c], k)
  {
    assert [r, c][1..] == [c];
    assert [c][1..] == [];
    forall i | 0 <= i < r ensures Dense(v.elems[i], [c], k) {
    }
  }

  /** tensor.go:49-52: an r-by-c nested slice of leaves of kind k gives
      shape [r, c] and appends its leaves to the buffer of k in row-major
      order: element (i, j) is leaf i * c + j of the r * c appended. */
  lemma Matrix(v: Value, r: nat, c: nat, k: Kind)
    requires v.List? && |v.elems| == r > 0 && c > 0
    requires forall i :: 0 <= i < r ==>
      v.elems[i].List? && |v.elems[i].elems| == c && (forall j :: 0 <= j < c ==> OfKind(v.elems[i].elems[j], k))
    ensures InferTensorFromValue(v) == Success(Absorb(EmptyTensor, k, Flatten(v)).(dim := [r, c]))
    ensures |Flatten(v)| == r * c
    ensures forall i, j :: 0 <= i < r && 0 <= j < c ==>
      RowMajor(i, j, c) < r * c && Flatten(v)[RowMajor(i, j, c)] == v.elems[i].elems[j]
  {
    MatrixIsDense(v, r, c, k);
    InferDense(v, [r, c], k);
    forall i, j | 0 <= i < r && 0 <= j < c ensures !v.elems[i].elems[j].List? {
      assert OfKind(v.elems[i].elems[j], k);
    }
    FlattenRowMajor(v, c, r);
  }

  // ---------------------------------------------------------------------
  // Failures.

  /** tensor.go:31-33, 56-58 and 95-96: a rejected tree panics whatever
      tensor the conversion starts from. */
  lemma {:induction false} RejectedFails(t: Tensor, v: Value, level: nat)
    requires Rejected(v)
    ensures ConvertToTensor(t, v, level).Failure?
    decreases v, 1
  {
    if v.List? && |v.elems| > 0 {
      var es := v.elems;
      var t1 := ExtendShape(t, |es|, level);
      if es[0].List? {
        var i :| 0 <= i < |es| && Rejected(es[i]);
        if ConvertElems(t1, v, i, level + 1).Success? {
          RejectedFails(ConvertElems(t1, v, i, level + 1).value, es[i], level + 1);
        }
        ConvertElemsFailurePersists(t1, v, if ConvertElems(t1, v, i, level + 1).Success? then i + 1 else i, |es|, level + 1);
      } else {
        var i :| 0 <= i < |es| && Unstorable(es[i]);
        var (t2, idx) := PrepareBuffer(t1, es[0], |es|);
        StoreLeavesFailurePersists(t2, es, idx, if StoreLeaves(t2, es, idx, i).Success? then i + 1 else i, |es|);
      }
    }
  }

  /** The converse: every panic other than the index-out-of-range of a
      mixed-type leaf slice comes from a rejected tree. */
  lemma {:induction false} FailureIsRejected(t: Tensor, v: Value, level: nat)
    requires ConvertToTensor(t, v, level).Failure?
    requires ConvertToTensor(t, v, level).error != IndexOutOfRange
    ensures Rejected(v)
    decreases v, 1
  {
    if v.List? && |v.elems| > 0 {
      var es := v.elems;
      var t1 := ExtendShape(t, |es|, level);
      if es[0].List? {
        var i := FailingChild(t1, v, |es|, level + 1);
        assert Rejected(es[i]);
      } else {
        var (t2, idx) := PrepareBuffer(t1, es[0], |es|);
        var i := FailingLeaf(t2, es, idx, |es|);
        assert Unstorable(es[i]);
      }
    }
  }

  /** The child whose conversion raised the loop's panic; it is rejected
      when that panic is not an index-out-of-range. */
  lemma {:induction false} FailingChild(t: Tensor, v: Value, n: nat, level: nat) returns (i: nat)
    requires v.List? && n <= |v.elems|
    requires ConvertElems(t, v, n, level).Failure?
    ensures i < n
    ensures ConvertElems(t, v, n, level).error != IndexOutOfRange ==> Rejected(v.elems[i])
    decreases v, 0, n
  {
    if ConvertElems(t, v, n - 1, level).Failure? {
      i := FailingChild(t, v, n - 1, level);
    } else {
      i := n - 1;
      if ConvertElems(t, v, n, level).error != IndexOutOfRange {
        FailureIsRejected(ConvertElems(t, v, n - 1, level).value, v.elems[i], level);
      }
    }
  }

  /** The leaf whose store raised the copy loop's panic; it is unstorable
      when that panic is not an index-out-of-range. */
  lemma {:induction false} FailingLeaf(t: Tensor, s: seq<Value>, idx: nat, n: nat) returns (i: nat)
    requires n <= |s|
    requires StoreLeaves(t, s, idx, n).Failure?
    ensures i < n
    ensures StoreLeaves(t, s, idx, n).error != IndexOutOfRange ==> Unstorable(s[i])
  {
    if StoreLeaves(t, s, idx, n - 1).Failure? {
      i := FailingLeaf(t, s, idx, n - 1);
    } else {
      i := n - 1;
    }
  }

  lemma {:induction false} EmptySliceIsRejected(v: Value)
    requires HasEmptySlice(v)
    ensures Rejected(v)
    decreases v
  {
    var es := v.elems;
    if |es| > 0 {
      var i :| 0 <= i < |es| && HasEmptySlice(es[i]);
      if es[0].List? {
        EmptySliceIsRejected(es[i]);
      } else {
        assert Unstorable(es[i]);
      }
    }
  }

  /** tensor.go:31-33: an empty slice at any depth makes the encode fail,
      wherever it sits and whatever surrounds it. */
  lemma EmptySliceAnywhereFails(v: Value)
    requires HasEmptySlice(v)
    ensures InferTensorFromValue(v).Failure?
  {
    EmptySliceIsRejected(v);
    RejectedFails(EmptyTensor, v, 0);
  }
}

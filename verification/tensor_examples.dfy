/** Concrete encodes: the cases of tensor_test.go, and inputs that show
    where the encoder's behaviour departs from a dense-tensor contract.
    Float leaves are written as IEEE-754 bit patterns (0x3F80_0000 is
    1.0 as a float32). */
module TensorExamples {
  import opened Results
  import opened TensorSpec
  import opened TensorProperties

  const One: bv32 := 0x3F80_0000
  const Two: bv32 := 0x4000_0000
  const Three: bv32 := 0x4040_0000
  const Four: bv32 := 0x4080_0000
  const Five: bv32 := 0x40A0_0000
  const Six: bv32 := 0x40C0_0000

  /** tensor_test.go:39-43: []float32{1.0, 2.0} gives shape [2] and
      FloatVal [1.0, 2.0]. */
  lemma FloatSliceCase()
    ensures InferTensorFromValue(List([F32(One), F32(Two)]))
      == Success(Tensor([2], DtFloat, [Single(One), Single(Two)], []))
  {
    FlatSlice([F32(One), F32(Two)], FloatKind);
    assert FloatsOf([F32(One), F32(Two)]) == [Single(One), Single(Two)];
  }

  /** tensor_test.go:44-52: a 3-by-2 [][]float32 gives shape [3, 2] and
      FloatVal holding the rows one after the other. */
  lemma FloatMatrixCase()
    ensures InferTensorFromValue(List([List([F32(One), F32(Two)]), List([F32(Three), F32(Four)]), List([F32(Five), F32(Six)])]))
      == Success(Tensor([3, 2], DtFloat, [Single(One), Single(Two), Single(Three), Single(Four), Single(Five), Single(Six)], []))
  {
    var v := List([List([F32(One), F32(Two)]), List([F32(Three), F32(Four)]), List([F32(Five), F32(Six)])]);
    var t1 := Tensor([3], DtInvalid, [], []);
    var t2 := Tensor([3, 2], DtFloat, [Single(One), Single(Two)], []);
    var t3 := Tensor([3, 2], DtFloat, [Single(One), Single(Two), Single(Three), Single(Four)], []);
    var t4 := Tensor([3, 2], DtFloat, [Single(One), Single(Two), Single(Three), Single(Four), Single(Five), Single(Six)], []);
    assert ExtendShape(EmptyTensor, 3, 0).dim == [3];
    assert ExtendShape(EmptyTensor, 3, 0) == t1;
    assert |v.elems| == 3 && v.elems[0].List?;
    assert ConvertToTensor(EmptyTensor, v, 0) == ConvertElems(t1, v, 3, 1);
    assert ConvertElems(t1, v, 0, 1) == Success(t1);
    LeafSliceConverts(t1, v.elems[0], 1, FloatKind);
    assert v.elems[0].elems == [F32(One), F32(Two)];
    assert FloatsOf([F32(One), F32(Two)]) == [Single(One), Single(Two)];
    assert t1.dim + [2] == [3, 2];
    assert Absorb(t1.(dim := t1.dim + [2]), FloatKind, v.elems[0].elems) == t2;
    assert ConvertElems(t1, v, 1, 1) == Success(t2);
    LeafSliceConverts(t2, v.elems[1], 1, FloatKind);
    assert v.elems[1].elems == [F32(Three), F32(Four)];
    assert FloatsOf([F32(Three), F32(Four)]) == [Single(Three), Single(Four)];
    assert Absorb(t2, FloatKind, v.elems[1].elems) == t3;
    assert ConvertElems(t1, v, 2, 1) == Success(t3);
    LeafSliceConverts(t3, v.elems[2], 1, FloatKind);
    assert v.elems[2].elems == [F32(Five), F32(Six)];
    assert FloatsOf([F32(Five), F32(Six)]) == [Single(Five), Single(Six)];
    assert Absorb(t3, FloatKind, v.elems[2].elems) == t4;
  }

  /** tensor_test.go:59-64: [3]int{1, 2, 3} gives shape [3], dtype DT_INT32
      and IntVal [1, 2, 3]. */
  lemma IntArrayCase()
    ensures InferTensorFromValue(List([GoInt(1), GoInt(2), GoInt(3)]))
      == Success(Tensor([3], DtInt32, [], [1, 2, 3]))
  {
    FlatSlice([GoInt(1), GoInt(2), GoInt(3)], IntKind);
    assert IntsOf([GoInt(1), GoInt(2), GoInt(3)]) == [1, 2, 3];
  }

  /** A JSON document decodes numbers as float64, so every leaf goes
      through the float32 narrowing. */
  lemma JsonNumbersAreNarrowed()
    ensures InferTensorFromValue(List([F64(0x3FF0_0000_0000_0000), F64(0x4000_0000_0000_0000)]))
      == Success(Tensor([2], DtFloat, [Narrowed(0x3FF0_0000_0000_0000), Narrowed(0x4000_0000_0000_0000)], []))
  {
    FlatSlice([F64(0x3FF0_0000_0000_0000), F64(0x4000_0000_0000_0000)], FloatKind);
    assert FloatsOf([F64(0x3FF0_0000_0000_0000), F64(0x4000_0000_0000_0000)])
      == [Narrowed(0x3FF0_0000_0000_0000), Narrowed(0x4000_0000_0000_0000)];
  }

  /** Rows of different lengths are not checked against the recorded axis:
      [[1, 2], [3]] gives shape [2, 2] but only three values. */
  lemma RaggedRowsAccepted()
    ensures InferTensorFromValue(List([List([GoInt(1), GoInt(2)]), List([GoInt(3)])]))
      == Success(Tensor([2, 2], DtInt32, [], [1, 2, 3]))
  {
    var v := List([List([GoInt(1), GoInt(2)]), List([GoInt(3)])]);
    var t1 := Tensor([2], DtInvalid, [], []);
    var t2 := Tensor([2, 2], DtInt32, [], [1, 2]);
    var t3 := Tensor([2, 2], DtInt32, [], [1, 2, 3]);
    TopLevel(v, t1);
    LeafSliceConverts(t1, v.elems[0], 1, IntKind);
    assert v.elems[0].elems == [GoInt(1), GoInt(2)];
    assert IntsOf([GoInt(1), GoInt(2)]) == [1, 2];
    assert t1.dim + [2] == [2, 2];
    assert Absorb(t1.(dim := t1.dim + [2]), IntKind, v.elems[0].elems) == t2;
    assert ConvertElems(t1, v, 1, 1) == Success(t2);
    LeafSliceConverts(t2, v.elems[1], 1, IntKind);
    assert v.elems[1].elems == [GoInt(3)];
    assert IntsOf([GoInt(3)]) == [3];
    assert Absorb(t2, IntKind, v.elems[1].elems) == t3;
  }

  /** A later sibling nested deeper than the first one records an extra
      axis: [[1], [[2]]] gives shape [2, 1, 1], one axis more than the
      nesting along the first elements. */
  lemma DeeperSiblingAddsAxis()
    ensures FirstPathDepth(List([List([GoInt(1)]), List([List([GoInt(2)])])])) == 2
    ensures InferTensorFromValue(List([List([GoInt(1)]), List([List([GoInt(2)])])]))
      == Success(Tensor([2, 1, 1], DtInt32, [], [1, 2]))
  {
    var v := List([List([GoInt(1)]), List([List([GoInt(2)])])]);
    var t1 := Tensor([2], DtInvalid, [], []);
    var t2 := Tensor([2, 1], DtInt32, [], [1]);
    var t3 := Tensor([2, 1, 1], DtInt32, [], [1, 2]);
    TopLevel(v, t1);
    FirstRowOfOne(v, t1, t2);
    var inner := v.elems[1];
    assert inner.elems == [List([GoInt(2)])];
    assert ExtendShape(t2, 1, 1) == t2;
    assert ConvertToTensor(t2, inner, 1) == ConvertElems(t2, inner, 1, 2);
    assert ConvertElems(t2, inner, 0, 2) == Success(t2);
    LeafSliceConverts(t2, inner.elems[0], 2, IntKind);
    assert inner.elems[0].elems == [GoInt(2)];
    assert IntsOf([GoInt(2)]) == [2];
    assert t2.dim + [1] == [2, 1, 1];
    assert Absorb(t2.(dim := t2.dim + [1]), IntKind, inner.elems[0].elems) == t3;
    assert ConvertElems(t2, inner, 1, 2) == Success(t3);
    assert FirstPathDepth(v.elems[0]) == 1;
  }

  /** A leaf slice whose first leaf is an int but which holds a float32
      later stores that float into FloatVal at the int row's offset: here
      it overwrites the 2.0 of the first row, and the dtype ends up as the
      last row's. */
  lemma MixedRowOverwritesOtherBuffer()
    ensures InferTensorFromValue(List([List([F32(One), F32(Two)]), List([GoInt(3), F32(Four)])]))
      == Success(Tensor([2, 2], DtInt32, [Single(One), Single(Four)], [3, 0]))
  {
    var v := List([List([F32(One), F32(Two)]), List([GoInt(3), F32(Four)])]);
    var t1 := Tensor([2], DtInvalid, [], []);
    var t2 := Tensor([2, 2], DtFloat, [Single(One), Single(Two)], []);
    TopLevel(v, t1);
    LeafSliceConverts(t1, v.elems[0], 1, FloatKind);
    assert v.elems[0].elems == [F32(One), F32(Two)];
    assert FloatsOf([F32(One), F32(Two)]) == [Single(One), Single(Two)];
    assert t1.dim + [2] == [2, 2];
    assert Absorb(t1.(dim := t1.dim + [2]), FloatKind, v.elems[0].elems) == t2;
    assert ConvertElems(t1, v, 1, 1) == Success(t2);
    var row := v.elems[1].elems;
    assert row == [GoInt(3), F32(Four)];
    var p := Tensor([2, 2], DtInt32, [Single(One), Single(Two)], [0, 0]);
    var q := p.(intVal := [3, 0]);
    var r := Tensor([2, 2], DtInt32, [Single(One), Single(Four)], [3, 0]);
    assert Zeros(2, 0 as Int32) == [0, 0];
    assert t2.intVal + Zeros(2, 0 as Int32) == [0, 0];
    var pb := PrepareBuffer(t2, row[0], 2);
    assert pb.0 == p && pb.1 == 0;
    assert WrapToInt32(3) == 3;
    assert p.intVal[0 := 3] == [3, 0];
    assert StoreLeaf(p, row[0], 0) == Success(q);
    assert StoreLeaves(p, row, 0, 0) == Success(p);
    assert StoreLeaves(p, row, 0, 1) == Success(q);
    assert q.floatVal[1 := Single(Four)] == [Single(One), Single(Four)];
    assert StoreLeaf(q, row[1], 1) == Success(r);
    assert StoreLeaves(p, row, 0, 2) == Success(r);
    assert CopyTensorData(t2, row) == Success(r);
    assert ExtendShape(t2, 2, 1) == t2;
    assert ConvertToTensor(t2, v.elems[1], 1) == Success(r);
  }

  /** The same mixture with nothing yet in FloatVal panics on the store. */
  lemma MixedRowOutOfRange()
    ensures InferTensorFromValue(List([GoInt(1), F32(Two)])) == Failure(IndexOutOfRange)
  {
    var s := [GoInt(1), F32(Two)];
    var t0 := Tensor([2], DtInvalid, [], []);
    var p := Tensor([2], DtInt32, [], [0, 0]);
    assert ExtendShape(EmptyTensor, 2, 0).dim == [2];
    assert ExtendShape(EmptyTensor, 2, 0) == t0;
    assert Zeros(2, 0 as Int32) == [0, 0];
    assert t0.intVal + Zeros(2, 0 as Int32) == [0, 0];
    var pb := PrepareBuffer(t0, s[0], 2);
    assert pb.0 == p && pb.1 == 0;
    assert WrapToInt32(1) == 1;
    assert p.intVal[0 := 1] == [1, 0];
    assert StoreLeaf(p, s[0], 0) == Success(p.(intVal := [1, 0]));
    assert StoreLeaves(p, s, 0, 0) == Success(p);
    assert StoreLeaves(p, s, 0, 1) == Success(p.(intVal := [1, 0]));
    assert StoreLeaves(p, s, 0, 2) == Failure(IndexOutOfRange);
    assert CopyTensorData(t0, s) == Failure(IndexOutOfRange);
  }

  /** The dtype peek accepts int64 but the copy loop does not. */
  lemma Int64Rejected()
    ensures InferTensorFromValue(List([GoInt64(1), GoInt64(2)])) == Failure(UnknownType)
  {
    var t1 := Tensor([2], DtInvalid, [], []);
    assert ExtendShape(EmptyTensor, 2, 0).dim == [2];
    assert ExtendShape(EmptyTensor, 2, 0) == t1;
    Int64PeekedThenRejected(t1, [GoInt64(1), GoInt64(2)]);
  }

  /** A later sibling that is a leaf when the first element was a slice. */
  lemma LeafSiblingRejected()
    ensures InferTensorFromValue(List([List([GoInt(1)]), GoInt(2)])) == Failure(NotASlice)
  {
    var v := List([List([GoInt(1)]), GoInt(2)]);
    var t1 := Tensor([2], DtInvalid, [], []);
    var t2 := Tensor([2, 1], DtInt32, [], [1]);
    TopLevel(v, t1);
    FirstRowOfOne(v, t1, t2);
    assert ConvertToTensor(t2, v.elems[1], 1) == Failure(NotASlice);
  }

  /** An empty slice below the top level. */
  lemma NestedEmptyRejected()
    ensures InferTensorFromValue(List([List([GoInt(1)]), List([])])) == Failure(EmptySlice)
  {
    var v := List([List([GoInt(1)]), List([])]);
    var t1 := Tensor([2], DtInvalid, [], []);
    var t2 := Tensor([2, 1], DtInt32, [], [1]);
    TopLevel(v, t1);
    FirstRowOfOne(v, t1, t2);
    assert ConvertToTensor(t2, v.elems[1], 1) == Failure(EmptySlice);
  }

  /** A JSON `null` in place of a row: converting the nil as a slice
      dereferences the nil reflect.Type (tensor.go:26-28). */
  lemma NilRowRejected()
    ensures InferTensorFromValue(List([List([GoInt(1)]), Nil])) == Failure(NilDereference)
  {
    var v := List([List([GoInt(1)]), Nil]);
    var t1 := Tensor([2], DtInvalid, [], []);
    var t2 := Tensor([2, 1], DtInt32, [], [1]);
    TopLevel(v, t1);
    FirstRowOfOne(v, t1, t2);
    assert ConvertToTensor(t2, v.elems[1], 1) == Failure(NilDereference);
  }

  /** A nil leaf passes the element peek (its reflect.Value is invalid,
      not a slice) and reaches the default case of the copy loop. */
  lemma NilLeafRejected()
    ensures InferTensorFromValue(List([Nil, GoInt(1)])) == Failure(UnknownType)
  {
    var s := [Nil, GoInt(1)];
    var t1 := Tensor([2], DtInvalid, [], []);
    assert ExtendShape(EmptyTensor, 2, 0).dim == [2];
    assert ExtendShape(EmptyTensor, 2, 0) == t1;
    assert PrepareBuffer(t1, s[0], 2) == (t1, 0);
    assert StoreLeaves(t1, s, 0, 1) == Failure(UnknownType);
    StoreLeavesFailurePersists(t1, s, 0, 1, 2);
  }

  /** The first step of every two-row example: the top level records the
      number of rows and hands the rows to the loop. */
  lemma TopLevel(v: Value, t1: Tensor)
    requires v.List? && |v.elems| > 0 && v.elems[0].List?
    requires t1 == Tensor([|v.elems|], DtInvalid, [], [])
    ensures ConvertToTensor(EmptyTensor, v, 0) == ConvertElems(t1, v, |v.elems|, 1)
    ensures ConvertElems(t1, v, 0, 1) == Success(t1)
  {
    assert ExtendShape(EmptyTensor, |v.elems|, 0).dim == [|v.elems|];
  }

  /** A first row [1] of a two-row value records the row axis 1. */
  lemma FirstRowOfOne(v: Value, t1: Tensor, t2: Tensor)
    requires v.List? && |v.elems| == 2 && v.elems[0] == List([GoInt(1)])
    requires t1 == Tensor([2], DtInvalid, [], [])
    requires t2 == Tensor([2, 1], DtInt32, [], [1])
    ensures ConvertElems(t1, v, 1, 1) == Success(t2)
    ensures ConvertElems(t1, v, 2, 1) == ConvertToTensor(t2, v.elems[1], 1)
  {
    assert ConvertElems(t1, v, 0, 1) == Success(t1);
    LeafSliceConverts(t1, v.elems[0], 1, IntKind);
    assert v.elems[0].elems == [GoInt(1)];
    assert IntsOf([GoInt(1)]) == [1];
    assert t1.dim + [1] == [2, 1];
    assert Absorb(t1.(dim := t1.dim + [1]), IntKind, v.elems[0].elems) == t2;
  }

  /** A value that is not a slice at all; a nil one fails already on
      its reflect.Type. */
  lemma ScalarRejected()
    ensures InferTensorFromValue(F64(0)) == Failure(NotASlice)
    ensures InferTensorFromValue(Nil) == Failure(NilDereference)
  {
  }
}

/** The TensorProto of tensor.go as a mutable object: convertToTensor and
    copyTensorData update it in place, appending to the shape, overwriting
    the dtype, reallocating a value buffer and writing its elements one by
    one. Each method is proved to leave the object in the state the
    corresponding function of TensorSpec computes, or to report the panic
    that function reports. */
module TensorEncoder {
  import opened Results
  import opened TensorSpec

  /** `make([]T, |a| + extra)` followed by `copy(tmp, a)` (tensor.go:70-71,
      tensor.go:77-78): a fresh buffer holding a's elements and then zeros. */
  method Grow<T>(a: array<T>, extra: nat, zero: T) returns (b: array<T>)
    ensures fresh(b)
    ensures b[..] == a[..] + Zeros(extra, zero)
  {
    b := new T[a.Length + extra](_ => zero);
    var k := 0;
    while k < a.Length
      invariant 0 <= k <= a.Length
      invariant b[..k] == a[..k]
      invariant forall j :: a.Length <= j < b.Length ==> b[j] == zero
    {
      b[k] := a[k];
      k := k + 1;
    }
  }

  class TensorProto {
    /** TensorShape.Dim, one size per axis. */
    var dim: seq<int>
    var dtype: DataType
    var floatVal: array<Float32>
    var intVal: array<Int32>

    /** The value this object currently holds. */
    function Model(): Tensor
      reads this, floatVal, intVal
    {
      Tensor(dim, dtype, floatVal[..], intVal[..])
    }

    /** This object agrees with outcome r: it holds r's tensor and no panic
        was raised, or it raised r's panic. */
    predicate Reflects(r: Result<Tensor, Panic>, panic: Option<Panic>)
      reads this, floatVal, intVal
    {
      match r
      case Success(t) => panic == None && Model() == t
      case Failure(e) => panic == Some(e)
    }

    /** The zero TensorProto with an empty shape (tensor.go:14-18). */
    constructor ()
      ensures Model() == EmptyTensor
      ensures fresh(floatVal) && fresh(intVal)
    {
      dim := [];
      dtype := DtInvalid;
      floatVal := new Float32[0];
      intVal := new Int32[0];
    }

    /** convertToTensor (tensor.go:25-59). */
    method ConvertToTensor(value: Value, level: nat) returns (panic: Option<Panic>)
      modifies this, floatVal, intVal
      decreases value
      ensures floatVal == old(floatVal) || fresh(floatVal)
      ensures intVal == old(intVal) || fresh(intVal)
      ensures Reflects(TensorSpec.ConvertToTensor(old(Model()), value, level), panic)
    {
      if value.Nil? {
        return Some(NilDereference);
      }
      if !value.List? {
        return Some(NotASlice);
      }
      var s := value.elems;
      if |s| == 0 {
        return Some(EmptySlice);
      }
      if |dim| <= level {
        dim := dim + [|s|];
      }
      if s[0].List? {
        ghost var start := Model();
        var i := 0;
        while i < |s|
          invariant 0 <= i <= |s|
          invariant floatVal == old(floatVal) || fresh(floatVal)
          invariant intVal == old(intVal) || fresh(intVal)
          invariant ConvertElems(start, value, i, level + 1) == Success(Model())
        {
          panic := ConvertToTensor(s[i], level + 1);
          if panic.Some? {
            ConvertElemsFailurePersists(start, value, i + 1, |s|, level + 1);
            return;
          }
          i := i + 1;
        }
        panic := None;
      } else {
        panic := CopyTensorData(s);
      }
    }

    /** copyTensorData (tensor.go:61-99): peek, grow, then store every leaf. */
    method CopyTensorData(s: seq<Value>) returns (panic: Option<Panic>)
      requires |s| > 0
      modifies this, floatVal, intVal
      ensures floatVal == old(floatVal) || fresh(floatVal)
      ensures intVal == old(intVal) || fresh(intVal)
      ensures Reflects(TensorSpec.CopyTensorData(old(Model()), s), panic)
    {
      var idx := PrepareBuffer(s[0], |s|);
      ghost var start := Model();
      for i := 0 to |s|
        invariant floatVal == old(floatVal) || fresh(floatVal)
        invariant intVal == old(intVal) || fresh(intVal)
        invariant StoreLeaves(start, s, idx, i) == Success(Model())
      {
        panic := StoreLeaf(s[i], idx + i);
        if panic.Some? {
          StoreLeavesFailurePersists(start, s, idx, i + 1, |s|);
          return;
        }
      }
      panic := None;
    }

    /** The dtype peek and buffer reallocation (tensor.go:62-80). */
    method PrepareBuffer(first: Value, n: nat) returns (idx: nat)
      modifies this
      ensures floatVal == old(floatVal) || fresh(floatVal)
      ensures intVal == old(intVal) || fresh(intVal)
      ensures (Model(), idx) == TensorSpec.PrepareBuffer(old(Model()), first, n)
    {
      idx := 0;
      if IsFloatLeaf(first) {
        dtype := DtFloat;
        idx := floatVal.Length;
        floatVal := Grow(floatVal, n, ZeroFloat);
      } else if IsIntLeaf(first) {
        dtype := DtInt32;
        idx := intVal.Length;
        intVal := Grow(intVal, n, 0 as Int32);
      }
    }

    /** One pass of the type switch (tensor.go:84-97): write leaf at pos of
        the buffer its type selects, with Go's bounds check. */
    method StoreLeaf(leaf: Value, pos: nat) returns (panic: Option<Panic>)
      modifies floatVal, intVal
      ensures Reflects(TensorSpec.StoreLeaf(old(Model()), leaf, pos), panic)
    {
      panic := None;
      match leaf
      case F32(b) =>
        if pos < floatVal.Length { floatVal[pos] := Single(b); } else { panic := Some(IndexOutOfRange); }
      case F64(b) =>
        if pos < floatVal.Length { floatVal[pos] := Narrowed(b); } else { panic := Some(IndexOutOfRange); }
      case GoInt(x) =>
        if pos < intVal.Length { intVal[pos] := WrapToInt32(x as int); } else { panic := Some(IndexOutOfRange); }
      case GoInt32(x) =>
        if pos < intVal.Length { intVal[pos] := x; } else { panic := Some(IndexOutOfRange); }
      case _ =>
        panic := Some(UnknownType);
    }
  }

  /** InferTensorFromValue (tensor.go:13-23): a fresh TensorProto filled
      from value, or the panic that aborted the encode. */
  method InferTensorFromValue(value: Value) returns (tensor: TensorProto, panic: Option<Panic>)
    ensures fresh(tensor)
    ensures tensor.Reflects(TensorSpec.InferTensorFromValue(value), panic)
  {
    tensor := new TensorProto();
    panic := tensor.ConvertToTensor(value, 0);
  }
}

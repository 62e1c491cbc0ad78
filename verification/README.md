# tfbench core, modelled in Dafny

tfbench is a load generator for TensorFlow Serving. It has two sequential
pieces, and this project models both and proves properties of them.

**The tensor payload encoder** (`tensor.go`). `InferTensorFromValue` walks a
nested Go value, made of slices or arrays of numbers, and fills a
`TensorProto`:

- The first slice seen at each depth fixes that axis of `TensorShape.Dim`.
- The first leaf of every leaf-level slice chooses the dtype and which
  buffer grows, `FloatVal` or `IntVal`.
- Every leaf is then written into the buffer its own type selects.
- Empty slices, non-slice values and leaf types without a case panic.

In the model, the Go value is the datatype `TensorSpec.Value`. An untyped
`nil`, which a JSON `null` decodes to, is its own `Nil` leaf. Each Go panic
is a `Failure` of `TensorSpec.Panic`. This includes two runtime panics: index
out of range on a buffer write, and the nil dereference of
`reflect.TypeOf(nil).Kind()` when a `nil` is converted as a slice. The
encoder is modelled twice:

- `TensorSpec` states it as functions from a `Tensor` snapshot to the next
  snapshot or a panic. The loops are left folds over a prefix.
- `TensorEncoder.TensorProto` is a class with `dim`, `dtype` and two `array`
  buffers. Its methods do what `tensor.go` does: they append to the shape,
  overwrite the dtype, reallocate and copy the buffers, and store leaves one
  index at a time. Each method is proved to leave the object in the state the
  spec function computes, or to report that function's panic.
- `TensorProperties` proves what the encoder does:
  - shape inference;
  - the dtype;
  - the layout of the buffers;
  - dense and rectangular input;
  - the failure cases.
- `TensorExamples` works out the cases of `tensor_test.go` and the inputs
  where the code departs from a dense-tensor contract.

**Benchmark partitioning and the result collector** (`benchmark.go`, `Run`).

- Partitioning: `Runs` is split across `Clients`, and the first
  `Runs % Clients` clients get one run more (`Partition`).
- The collector goroutine receives the responses in arrival order. It fills
  `Responses[i]`, sets `Runs`, counts `Errors`, sends progress percentages at
  a clamped tick interval, and finishes with a guaranteed 100.
- `Collector` states the collector as functions over the arrival sequence.
- `BenchmarkRun.BenchmarkSummary` is the class whose `Drain` method runs that
  loop in place, and `BenchmarkRun.Run` puts the pieces together.
- The Progress channel is the sequence of values sent on it. Done is a flag.

Go semantics that are written out explicitly:

- Go's truncating `/` and `%` (`GoQuo`, `GoRem`). The divisor `Clients` can
  be negative.
- `int32(int)` wrap-around (`WrapToInt32`).
- The zero-filled buffers `make` returns.
- The `make` panic for a negative `Runs`.
- The division-by-zero panic for `Clients == 0`.

The code departs in several places from what a dense-tensor encoder or a
monotone progress stream would guarantee. The model follows the code, and
these lemmas state the differences:

- The code does not send strictly increasing values in (0, 100]. It sends
  `100*(i+1)/Runs`, truncated. For `Runs = 150` the first value sent is 0
  and values repeat (`Collector.ProgressOf150Runs`). What holds is that the
  values are non-decreasing, lie in [0, 100] and end in a single 100
  (`Collector.SentSoFar`, `Collector.FinalProgress`).
- The shape is not always exactly as deep as the first-element path.
  `convertToTensor` appends a dimension whenever none is recorded at the
  current depth, so a later sibling nested deeper adds an axis:
  `[[1], [[2]]]` gives shape `[2, 1, 1]`
  (`TensorExamples.DeeperSiblingAddsAxis`). In general the shape is at
  least as deep as the first-element path
  (`TensorProperties.ShapeOnlyGrows`).
- Ragged input is not rejected. `[[1, 2], [3]]` gives shape `[2, 2]` with
  three values (`TensorExamples.RaggedRowsAccepted`).
- A leaf slice that mixes ints and floats writes the minority leaves into the
  other buffer at the row's offset. This overwrites earlier values
  (`TensorExamples.MixedRowOverwritesOtherBuffer`) or panics with index out
  of range (`TensorExamples.MixedRowOutOfRange`).

## Model

| member | source | states |
|---|---|---|
| TensorSpec.WrapToInt32 | tensor.go:91-92 | `int32(x)` keeps x modulo 2^32, and keeps x itself when x fits in 32 bits |
| TensorSpec.StoreLeaf | tensor.go:84-97 | a successful store changes neither the shape, the dtype nor the length of either buffer |
| TensorSpec.ConvertElemsFailurePersists | tensor.go:50-52 | once a child's conversion panics, the whole loop over the children has that panic |
| TensorSpec.StoreLeavesFailurePersists | tensor.go:83-98 | once a leaf's store panics, the whole copy loop has that panic |
| TensorEncoder.Grow | tensor.go:68-79 | `make` plus `copy` gives a fresh buffer holding the old elements followed by `extra` zeros |
| TensorEncoder.TensorProto.constructor | tensor.go:14-18 | a fresh TensorProto has an empty shape, no dtype and empty buffers |
| TensorEncoder.TensorProto.ConvertToTensor | tensor.go:25-59 | the in-place recursion leaves the object in exactly the state `TensorSpec.ConvertToTensor` computes from the old state, or raises that function's panic |
| TensorEncoder.TensorProto.CopyTensorData | tensor.go:61-99 | the peek, the reallocation and the store loop end in the state `TensorSpec.CopyTensorData` computes, or in its panic |
| TensorEncoder.TensorProto.PrepareBuffer | tensor.go:62-80 | sets the dtype from the first leaf, grows the matching buffer by n zeros and returns its old length as idx |
| TensorEncoder.TensorProto.StoreLeaf | tensor.go:84-97 | writes one leaf into the buffer its type selects, or panics for an unknown type or an index past the end |
| TensorEncoder.InferTensorFromValue | tensor.go:13-23 | a fresh TensorProto holding `TensorSpec.InferTensorFromValue(value)`, or that function's panic |
| TensorProperties.StoreHomogeneousPrefix | tensor.go:83-98 | after n iterations over leaves of one kind, the grown buffer holds the old contents, the first n leaves, then zeros |
| TensorProperties.CopyHomogeneous | tensor.go:61-99 | a leaf slice of one kind sets that kind's dtype and appends its leaves, in order, to that kind's buffer |
| TensorProperties.LeafSliceConverts | tensor.go:25-55 | converting a leaf slice records its length when its depth has no dimension yet, keeps the shape otherwise, and appends the leaves |
| TensorProperties.StoreLeavesKeeps | tensor.go:83-98 | the store loop changes neither the shape, the dtype nor the buffer lengths, and a successful loop began with a float, int or int32 leaf |
| TensorProperties.CopyDtype | tensor.go:64-80 | after a successful copy the dtype is DT_FLOAT when the first leaf is float32/float64 and DT_INT32 when it is int/int32 |
| TensorProperties.StoreLeavesFloatLayout | tensor.go:83-90 | float leaf i is at idx + i, the buffer below idx is untouched, and the length is kept |
| TensorProperties.StoreLeavesIntLayout | tensor.go:91-94 | int leaf i is at idx + i, the buffer below idx is untouched, and the length is kept |
| TensorProperties.CopyAppendsFloats | tensor.go:66-72 | FloatVal grows by exactly len(s), its old values are kept, float leaf i lands at oldLen + i, and IntVal keeps its length |
| TensorProperties.CopyAppendsInts | tensor.go:73-79 | IntVal grows by exactly len(s), its old values are kept, int leaf i lands at oldLen + i, and FloatVal keeps its length |
| TensorProperties.Int64PeekedThenRejected | tensor.go:73-96 | the peek sets DT_INT32 for an int64 first leaf, but the copy always panics with "Unknown type" |
| TensorProperties.ShapeOnlyGrows | tensor.go:36-52 | recorded dimensions are never changed; the first slice at an unrecorded depth fixes its size; sizes stay positive; the shape is at least as deep as the first-element path |
| TensorProperties.ShapeOnlyGrowsElems | tensor.go:50-52 | the loop over the children only appends to the shape and keeps sizes positive |
| TensorProperties.DenseConverts | tensor.go:25-59 | a dense tensor of one leaf kind converts to its shape, with its leaves appended in traversal order |
| TensorProperties.DenseElems | tensor.go:49-52 | the children of a dense slice together append the leaves of the first n children and record the shape |
| TensorProperties.InferDense | tensor.go:13-59 | a dense input encodes to exactly its shape, the dtype of its kind, and the buffer of its leaves in order, whose length is the product of the shape |
| TensorProperties.FlatSlice | tensor.go:36-94 | a flat slice of n leaves of one kind gives shape [n] and a buffer equal to the leaves in order |
| TensorProperties.Matrix | tensor.go:49-52 | an r-by-c nested slice gives shape [r, c] and a buffer of r*c values with row i, column j at i*c + j |
| TensorProperties.RejectedFails | tensor.go:28-58 | a tree with an empty slice, a non-slice where a slice is expected, or an unstorable leaf panics from any starting state |
| TensorProperties.FailureIsRejected | tensor.go:25-98 | conversely, every panic other than index out of range comes from such a tree |
| TensorProperties.FailingChild | tensor.go:50-52 | a failing loop over the children names a child before n that is itself rejected, when the panic is not index out of range |
| TensorProperties.FailingLeaf | tensor.go:86-97 | a failing store loop names a leaf before n that has no case in the type switch, when the panic is not index out of range |
| TensorProperties.EmptySliceAnywhereFails | tensor.go:31-33 | an empty slice at any depth makes the encode fail |
| TensorExamples.FloatSliceCase | tensor_test.go:39-43 | []float32{1, 2} gives shape [2] and FloatVal [1, 2] |
| TensorExamples.FloatMatrixCase | tensor_test.go:44-52 | a 3-by-2 [][]float32 gives shape [3, 2] and its rows concatenated |
| TensorExamples.IntArrayCase | tensor_test.go:59-64 | [3]int{1, 2, 3} gives shape [3], DT_INT32 and IntVal [1, 2, 3] |
| TensorExamples.JsonNumbersAreNarrowed | tensor.go:89-90 | float64 leaves are stored narrowed to float32 |
| TensorExamples.RaggedRowsAccepted | tensor.go:36-52 | [[1, 2], [3]] is accepted with shape [2, 2] and only three values |
| TensorExamples.DeeperSiblingAddsAxis | tensor.go:36-44 | [[1], [[2]]] gives shape [2, 1, 1], one axis more than its first-element depth of 2 |
| TensorExamples.MixedRowOverwritesOtherBuffer | tensor.go:64-97 | a float in an int-first row overwrites FloatVal at the row's offset, and the dtype is the last row's |
| TensorExamples.MixedRowOutOfRange | tensor.go:83-94 | [1, float32 2] panics with index out of range, because FloatVal was never grown |
| TensorExamples.Int64Rejected | tensor.go:73-96 | a slice of int64 panics with "Unknown type" |
| TensorExamples.LeafSiblingRejected | tensor.go:56-58 | a leaf sibling after a slice first element panics with "value must be a slice" |
| TensorExamples.NestedEmptyRejected | tensor.go:31-33 | an empty slice below the top level panics with "Slice can not be empty" |
| TensorExamples.ScalarRejected | tensor.go:26-58 | a float64 value panics with "value must be a slice", and a nil one with the nil dereference |
| TensorExamples.NilRowRejected | tensor.go:26-28 | a nil in place of a row makes `reflect.TypeOf(nil).Kind()` dereference nil |
| TensorExamples.NilLeafRejected | tensor.go:46-96 | a nil first leaf passes the element peek, matches no case of the dtype peek, and panics with "Unknown type" in the copy loop |
| BenchmarkTypes.GoQuo | benchmark.go:67 | Go's quotient equals Euclidean division for non-negative operands, is negative only when the signs differ, and is non-negative when both operands are negative |
| BenchmarkTypes.GoRem | benchmark.go:68 | Go's remainder has the sign of the dividend and a magnitude below the divisor's |
| BenchmarkTypes.GoDivision | benchmark.go:67-68 | runsPerClient * Clients + extra recomposes Runs for every non-zero Clients |
| Partition.SharesUpTo | benchmark.go:71-78 | client i of the first n gets Runs/Clients plus one when i < Runs%Clients |
| Partition.AssignRuns | benchmark.go:66-83 | the loop computes `Partition.Shares`: a division-by-zero panic for 0 clients, no share for negative Clients, one share per client otherwise |
| Partition.SharesUpToSum | benchmark.go:66-78 | the first n shares sum to n*(Runs/Clients) + min(n, Runs%Clients) |
| Partition.SharesSumToRuns | benchmark.go:66-78 | with Clients >= 1 there are Clients shares and they sum to exactly Runs |
| Partition.SharesBalanced | benchmark.go:74-78 | every share is Runs/Clients or one more, the shares never increase, and no two differ by more than one |
| Partition.LargerSharesCount | benchmark.go:68-78 | exactly min(n, Runs%Clients) of the first n clients get the larger share |
| Partition.UnevenSplit | benchmark.go:66-78 | 1001 runs over 4 clients gives [251, 250, 250, 250] |
| Partition.EvenSplit | benchmark.go:66-78 | 1000 runs over 4 clients gives [250, 250, 250, 250] |
| Partition.FewerRunsThanClients | benchmark.go:66-78 | 3 runs over 5 clients gives [1, 1, 1, 0, 0] |
| Collector.Ticks | benchmark.go:87-92 | the tick interval is Runs/100 clamped to 1 .. 100 |
| Collector.Start | benchmark.go:58-63 | the summary starts with Runs empty slots, zero counters, nothing sent and Done not signalled |
| Collector.Receive | benchmark.go:96-107 | one received response keeps the number of response slots and does not signal Done (its effect on the slots and counters is stated by the Drained lemmas below) |
| Collector.Drained | benchmark.go:95-108 | the first k iterations of the loop keep the number of response slots and do not signal Done |
| Collector.DrainedResponses | benchmark.go:95-98 | after k arrivals slot j holds the j-th response for j < k and is empty after that, and Runs == k |
| Collector.DrainedErrors | benchmark.go:100-102 | Errors equals the number of failed responses among the first k |
| Collector.AllFailed | benchmark.go:100-102 | when every response fails, the failure count is the number of responses |
| Collector.DrainedProgress | benchmark.go:104-107 | after k arrivals exactly k/ticks values have been sent, the j-th being 100*((j+1)*ticks)/Runs, and `progress` holds the last one (0 before the first) |
| Collector.TickValues | benchmark.go:105 | tick values are non-decreasing, lie in 0 .. 100, and reach 100 only at the last response |
| Collector.SentSoFar | benchmark.go:94-108 | the values sent so far are non-decreasing and in 0 .. 100, and all are below 100 while responses are missing |
| Collector.FinalProgress | benchmark.go:104-112 | a finished run's progress values end in 100 and every earlier value is below 100, so 100 is sent exactly once |
| Collector.CollectFinishes | benchmark.go:95-116 | after Runs arrivals every slot holds its response in arrival order, Runs and Errors are final, and Done is signalled |
| Collector.CollectBlocked | benchmark.go:95-96 | with fewer than Runs arrivals, Done is not signalled, Runs is the number received, and no 100 has been sent |
| Collector.AllFailingGateway | benchmark.go:95-102 | a gateway that fails every call ends with Errors == Runs |
| Collector.ProgressOf150Runs | benchmark.go:87-107 | 150 runs send 150 values: the first is 0, 2 is sent twice, and the last is 100 |
| Collector.ProgressOf1000Runs | benchmark.go:87-107 | 1000 runs send 1, 2, .., 100, one value per 10 responses |
| Collector.NoRuns | benchmark.go:95-112 | zero runs send a single 100 and signal Done |
| BenchmarkRun.BenchmarkSummary.constructor | benchmark.go:58-63 | the summary Run allocates is `Collector.Start(total)` |
| BenchmarkRun.BenchmarkSummary.Drain | benchmark.go:86-118 | the in-place drain loop leaves the summary in the state `Collector.Collect` computes from the old state and the arrivals |
| BenchmarkRun.Run | benchmark.go:57-121 | a negative Runs panics in `make`, 0 clients panics in the division, and otherwise the shares are `Partition.Shares` and the summary is the collected one |

## Left out

- `runClient` (benchmark.go:123-168) is not modelled. It is goroutine
  fan-out, a `sync.WaitGroup`, a buffered channel used as a semaphore, the
  gRPC dial and its panic, and the call itself. Its responses are the
  `arrivals` input. `RequestIndex` and `WorkerIndex` are carried as
  uninterpreted fields.
- The channel plumbing is not modelled: sends on Progress and Done, the
  closing of both channels, and the ordering between goroutines. Progress
  is the sequence of values sent, and Done is a flag.
- The timestamps (`StartedTime`, `EndedTime`, `Duration`) and
  `CalculateRPS` are not modelled. They depend on wall-clock and monotonic
  time and use float64 division.
- The float64 to float32 conversion at tensor.go:90 is kept symbolic as
  `Narrowed(bits)`. No floating-point value is interpreted.
- The `float32(progress)` conversion at benchmark.go:106 is not modelled.
  Progress values are ints, which the conversion represents exactly for
  0 .. 100.
- Go's 64-bit overflow of `100 * (i + 1)` at benchmark.go:105 is not
  modelled. Integers are unbounded here, which agrees with Go for any
  `Runs` below 2^63 / 100.
- Dimension sizes are not converted with `int64(s.Len())`. Slice lengths
  always fit.
- BenchmarkRun.BenchmarkSummary.Drain: when fewer than `Runs` responses
  ever arrive, the source goroutine blocks forever at the receive. The
  method instead returns in the state the blocked goroutine leaves behind.
- BenchmarkRun.Run: the source runs the collector concurrently and returns
  at once. The model returns the summary as the collector leaves it. It
  also does not tie the arrivals to the shares: arrivals are any sequence.
  `Partition.SharesSumToRuns` shows the workers would send exactly `Runs`
  responses.
- `MaxTimeout` (benchmark.go:18) is not modelled. It is never used.
- `NewBenchmarkRequest` is not modelled. It is a struct literal.
- predict.go is not modelled. It reads a file, unmarshals JSON, calls the
  gRPC `Predict`, and `BuildRequest` is a struct wrapper.
- main.go is not modelled. It parses flags, validates input, draws the
  progress bar and prints the report.
- The JSON decoding that produces the value tree is not modelled. JSON
  numbers arrive as float64 leaves (`F64`).
- Leaf types other than float32, float64, int, int32 and int64, besides
  `nil`, are one `Other` leaf; examples are strings, bool, maps and
  unsigned integers.

/** The records of benchmark.go that the partitioning and the collector
    touch, with the timestamps, durations and the gRPC request removed. */
module BenchmarkTypes {

  /** BenchmarkRequest (benchmark.go:12-19) without PredictRequest and the
      unused MaxTimeout. */
  datatype BenchmarkRequest = BenchmarkRequest(server: string, runs: int, clients: int, concurrency: int)

  /** BenchmarkResponse (benchmark.go:21-29) without its three timing
      fields. */
  datatype BenchmarkResponse = BenchmarkResponse(errorMessage: string, success: bool, workerIndex: int, requestIndex: int)

  /** The runtime panics Run can raise before it returns: `make` with a
      negative length (benchmark.go:62) and an integer division by zero
      Clients (benchmark.go:67). */
  datatype RunPanic = MakeSliceLenOutOfRange | IntegerDivideByZero

  function Abs(x: int): int { if x < 0 then -x else x }

  /** Go's `a / b` on int: the quotient truncated toward zero. */
  function GoQuo(a: int, b: int): (q: int)
    requires b != 0
    ensures a >= 0 && b > 0 ==> q == a / b
    ensures a >= 0 && b < 0 ==> q == -(a / -b)
    ensures q < 0 ==> (a < 0) != (b < 0)
    ensures a < 0 && b < 0 ==> q >= 0
  {
    if a >= 0 && b > 0 then
      DivNonNegative(a, b);
      a / b
    else if a >= 0 then -(a / -b)
    else if b > 0 then -((-a) / b)
    else
      DivNonNegative(-a, -b);
      (-a) / (-b)
  }

  /** A non-negative dividend over a positive divisor has a non-negative
      quotient. */
  lemma DivNonNegative(x: int, y: int)
    requires x >= 0 && y > 0
    ensures x / y >= 0
  {
    assert x == y * (x / y) + x % y;
  }

  /** Go's `a % b` on int: the remainder takes the sign of a. */
  function GoRem(a: int, b: int): (r: int)
    requires b != 0
    ensures a >= 0 && b > 0 ==> r == a % b
    ensures a >= 0 ==> 0 <= r < Abs(b)
    ensures a < 0 ==> -Abs(b) < r <= 0
  {
    if a >= 0 && b > 0 then a % b
    else if a >= 0 then a % -b
    else if b > 0 then -((-a) % b)
    else -((-a) % (-b))
  }

  /** Go's quotient and remainder recompose the dividend. */
  lemma GoDivision(a: int, b: int)
    requires b != 0
    ensures a == b * GoQuo(a, b) + GoRem(a, b)
  {
    if a >= 0 && b < 0 {
      assert a == (-b) * (a / -b) + a % -b;
    } else if a < 0 && b > 0 {
      assert -a == b * ((-a) / b) + (-a) % b;
    } else if a < 0 {
      assert -a == (-b) * ((-a) / (-b)) + (-a) % (-b);
    }
  }
}

/** BenchmarkRequest.Run (benchmark.go:57-121) with its goroutines removed:
    the workers are represented by their shares, the response channel by
    the responses in the order the drain goroutine receives them, and the
    drain goroutine by a method that updates the BenchmarkSummary in
    place. */
module BenchmarkRun {
  import opened Results
  import opened BenchmarkTypes
  import opened Partition
  import opened Collector

  /** BenchmarkSummary (benchmark.go:31-40) without its timestamps and
      Request pointer. The Progress channel is the sequence of values sent
      on it so far; Done is whether `true` has been sent on Done. */
  class BenchmarkSummary {
    var responses: array<Option<BenchmarkResponse>>
    var runs: int
    var errors: int
    var progress: seq<int>
    var done: bool

    /** The fields of this summary as a value. */
    function Model(): Summary
      reads this, responses
    {
      Summary(responses[..], runs, errors, progress, done)
    }

    /** The literal at benchmark.go:58-63: `make([]*BenchmarkResponse, total)`
        and zero counters. */
    constructor (total: nat)
      ensures fresh(responses)
      ensures Model() == Start(total)
    {
      responses := new Option<BenchmarkResponse>[total](_ => None);
      runs := 0;
      errors := 0;
      progress := [];
      done := false;
    }

    /** The drain goroutine (benchmark.go:86-118) receiving `arrivals`.
        When fewer than totalRuns responses arrive the goroutine would wait
        forever at the receive; the method returns at that point with the
        summary as the waiting goroutine leaves it. */
    method Drain(totalRuns: nat, arrivals: seq<BenchmarkResponse>)
      requires responses.Length == totalRuns
      modifies this, responses
      ensures responses == old(responses)
      ensures Model() == Collect(old(Model()), totalRuns, arrivals)
    {
      var ticks := totalRuns / 100;
      if ticks > 100 {
        ticks := 100;
      } else if ticks <= 0 {
        ticks := 1;
      }
      ghost var start := Model();
      var current := 0;
      var i := 0;
      while i < totalRuns
        invariant 0 <= i <= totalRuns && i <= |arrivals|
        invariant responses == old(responses)
        invariant DrainState(Model(), current) == Drained(start, totalRuns, arrivals, i)
      {
        if i >= |arrivals| {
          return;
        }
        var r := arrivals[i];
        responses[i] := Some(r);
        runs := i + 1;
        if !r.success {
          errors := errors + 1;
        }
        if (i + 1) % ticks == 0 {
          current := 100 * (i + 1) / totalRuns;
          progress := progress + [current];
        }
        i := i + 1;
      }
      if current < 100 {
        progress := progress + [100];
      }
      done := true;
    }
  }

  /** Run: allocate the summary (a negative Runs makes `make` panic), split
      the runs across the clients (Clients == 0 divides by zero), and
      drain the responses. */
  method Run(request: BenchmarkRequest, arrivals: seq<BenchmarkResponse>)
    returns (summary: BenchmarkSummary?, shares: seq<nat>, panic: Option<RunPanic>)
    ensures request.runs < 0 ==> summary == null && panic == Some(MakeSliceLenOutOfRange)
    ensures request.runs >= 0 && request.clients == 0 ==> summary == null && panic == Some(IntegerDivideByZero)
    ensures request.runs >= 0 && request.clients != 0 ==>
      panic == None && Shares(request.runs, request.clients) == Success(shares) &&
      summary != null && fresh(summary) &&
      summary.Model() == Collect(Start(request.runs), request.runs, arrivals)
  {
    shares := [];
    if request.runs < 0 {
      return null, shares, Some(MakeSliceLenOutOfRange);
    }
    var s := new BenchmarkSummary(request.runs);
    var split := AssignRuns(request.runs, request.clients);
    if split.Failure? {
      return null, shares, Some(split.error);
    }
    shares := split.value;
    s.Drain(request.runs, arrivals);
    return s, shares, None;
  }
}

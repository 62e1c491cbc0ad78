/** The goroutine that drains the response channel (benchmark.go:86-118),
    as functions over the responses in the order they arrive. The Progress
    channel is the sequence of values sent on it; the Done channel is a
    flag that is set once the goroutine gets past its loop. */
module Collector {
  import opened Results
  import opened BenchmarkTypes
  import opened Arith

  /** The tick interval (benchmark.go:87-92): Runs/100, clamped to 1 ..
      100. Runs is never negative here: `make` at benchmark.go:62 has
      panicked before for a negative Runs. */
  function Ticks(runs: nat): (ticks: nat)
    ensures 1 <= ticks <= 100
    ensures runs < 200 ==> ticks == 1
    ensures runs >= 10000 ==> ticks == 100
    ensures 100 <= runs < 10100 ==> ticks * 100 <= runs < ticks * 100 + 100
  {
    var t := runs / 100;
    if t > 100 then 100 else if t <= 0 then 1 else t
  }

  /** The fields of BenchmarkSummary that the goroutine writes:
      Responses, Runs, Errors, what it sent on Progress, and whether it
      signalled Done. */
  datatype Summary = Summary(responses: seq<Option<BenchmarkResponse>>, runs: int, errors: int, sent: seq<int>, done: bool)

  /** The goroutine between two iterations: the summary and its local
      `progress` variable. */
  datatype DrainState = DrainState(summary: Summary, progress: int)

  /** The summary as Run allocates it: Runs empty response slots (nil
      pointers) and zero counters. */
  function Start(total: nat): (s: Summary)
    ensures |s.responses| == total && forall j :: 0 <= j < total ==> s.responses[j] == None
    ensures s.runs == 0 && s.errors == 0 && s.sent == [] && !s.done
  {
    Summary(seq(total, _ => None), 0, 0, [], false)
  }

  /** One iteration of the loop (benchmark.go:96-107): response r arrives
      as the i-th one. All operands of `%` and `/` are positive, so Go's
      operators agree with Dafny's. */
  function Receive(d: DrainState, total: nat, ticks: nat, i: nat, r: BenchmarkResponse): (e: DrainState)
    requires i < total == |d.summary.responses| && ticks > 0
    ensures |e.summary.responses| == total && e.summary.done == d.summary.done
  {
    var s := d.summary;
    var s1 := s.(responses := s.responses[i := Some(r)], runs := i + 1,
                 errors := if r.success then s.errors else s.errors + 1);
    if (i + 1) % ticks == 0 then
      var p := 100 * (i + 1) / total;
      DrainState(s1.(sent := s1.sent + [p]), p)
    else
      DrainState(s1, d.progress)
  }

  /** The first k iterations, starting from summary s with `progress := 0`
      (benchmark.go:94). */
  function Drained(s: Summary, total: nat, arrivals: seq<BenchmarkResponse>, k: nat): (d: DrainState)
    requires |s.responses| == total && k <= total && k <= |arrivals|
    ensures |d.summary.responses| == total && d.summary.done == s.done
  {
    if k == 0 then DrainState(s, 0)
    else Receive(Drained(s, total, arrivals, k - 1), total, Ticks(total), k - 1, arrivals[k - 1])
  }

  /** The final 100 (benchmark.go:110-112) and the Done signal. */
  function Finish(d: DrainState): Summary
  {
    var s := if d.progress < 100 then d.summary.(sent := d.summary.sent + [100]) else d.summary;
    s.(done := true)
  }

  /** Everything the goroutine does: it reads Runs responses and finishes,
      or, when fewer than Runs ever arrive, stays blocked on the channel
      receive at benchmark.go:96 after the last one. */
  function Collect(s: Summary, total: nat, arrivals: seq<BenchmarkResponse>): Summary
    requires |s.responses| == total
  {
    if |arrivals| < total then Drained(s, total, arrivals, |arrivals|).summary
    else Finish(Drained(s, total, arrivals, total))
  }

  /** The number of failed responses in rs. */
  function Failures(rs: seq<BenchmarkResponse>): nat
  {
    if |rs| == 0 then 0 else Failures(rs[..|rs| - 1]) + (if rs[|rs| - 1].success then 0 else 1)
  }

  /** The progress value sent at the j-th tick: after (j+1)*ticks
      responses, as a truncated percentage of total. */
  function TickValue(total: nat, ticks: nat, j: nat): int
    requires total > 0
  {
    100 * ((j + 1) * ticks) / total
  }

  /** After k arrivals, slot j holds the j-th response for every j < k and
      is still empty after that, and Runs == k. */
  lemma {:induction false} DrainedResponses(total: nat, arrivals: seq<BenchmarkResponse>, k: nat)
    requires k <= total && k <= |arrivals|
    ensures Drained(Start(total), total, arrivals, k).summary.runs == k
    ensures forall j :: 0 <= j < total ==>
      Drained(Start(total), total, arrivals, k).summary.responses[j] == (if j < k then Some(arrivals[j]) else None)
  {
    if k > 0 {
      DrainedResponses(total, arrivals, k - 1);
    }
  }

  /** Errors counts exactly the failed responses received so far. */
  lemma {:induction false} DrainedErrors(total: nat, arrivals: seq<BenchmarkResponse>, k: nat)
    requires k <= total && k <= |arrivals|
    ensures Drained(Start(total), total, arrivals, k).summary.errors == Failures(arrivals[..k])
  {
    if k > 0 {
      DrainedErrors(total, arrivals, k - 1);
      assert arrivals[..k][..k - 1] == arrivals[..k - 1];
    }
  }

  /** If every response fails, so does the count. */
  lemma {:induction false} AllFailed(rs: seq<BenchmarkResponse>)
    requires forall j :: 0 <= j < |rs| ==> !rs[j].success
    ensures Failures(rs) == |rs|
  {
    if |rs| > 0 {
      AllFailed(rs[..|rs| - 1]);
    }
  }

  /** After k arrivals one value has been sent per completed tick, that is
      k / ticks of them, the j-th being TickValue(j); `progress` holds the
      last one, or 0 before the first tick. */
  lemma {:induction false} DrainedProgress(total: nat, arrivals: seq<BenchmarkResponse>, k: nat)
    requires k <= total && k <= |arrivals|
    ensures var d := Drained(Start(total), total, arrivals, k);
      |d.summary.sent| == k / Ticks(total) &&
      (forall j :: 0 <= j < |d.summary.sent| ==> d.summary.sent[j] == TickValue(total, Ticks(total), j)) &&
      d.progress == (if k / Ticks(total) == 0 then 0 else TickValue(total, Ticks(total), k / Ticks(total) - 1))
  {
    if k > 0 {
      var t := Ticks(total);
      DrainedProgress(total, arrivals, k - 1);
      DivStep(k, t);
    }
  }

  /** The tick values are non-decreasing percentages, and only a tick that
      falls on the last response reaches 100. */
  lemma TickValues(total: nat, ticks: nat, j1: nat, j2: nat)
    requires total > 0 && ticks > 0 && j1 <= j2 && (j2 + 1) * ticks <= total
    ensures 0 <= TickValue(total, ticks, j1) <= TickValue(total, ticks, j2) <= 100
    ensures TickValue(total, ticks, j2) == 100 <==> (j2 + 1) * ticks == total
  {
    MulMono(j1 + 1, j2 + 1, ticks);
    MulMono(0, j1 + 1, ticks);
    PercentBounds((j1 + 1) * ticks, total);
    PercentBounds((j2 + 1) * ticks, total);
    DivMono(100 * ((j1 + 1) * ticks), 100 * ((j2 + 1) * ticks), total);
  }

  /** Every tick sent after k <= total arrivals comes at or before the
      k-th response. */
  lemma TickWithin(total: nat, ticks: nat, k: nat, j: nat)
    requires ticks > 0 && j < k / ticks && k <= total
    ensures (j + 1) * ticks <= k
  {
    MulMono(j + 1, k / ticks, ticks);
    MulDivLe(k, ticks);
  }

  /** After k arrivals the values sent so far are non-decreasing
      percentages in 0 .. 100, and none is 100 while responses are still
      missing. */
  lemma SentSoFar(total: nat, arrivals: seq<BenchmarkResponse>, k: nat)
    requires k <= total && k <= |arrivals|
    ensures var sent := Drained(Start(total), total, arrivals, k).summary.sent;
      (forall j :: 0 <= j < |sent| ==> 0 <= sent[j] <= 100) &&
      (forall j1, j2 :: 0 <= j1 <= j2 < |sent| ==> sent[j1] <= sent[j2]) &&
      (k < total ==> forall j :: 0 <= j < |sent| ==> sent[j] < 100)
  {
    var t := Ticks(total);
    var sent := Drained(Start(total), total, arrivals, k).summary.sent;
    DrainedProgress(total, arrivals, k);
    forall j1, j2 | 0 <= j1 <= j2 < |sent|
      ensures 0 <= sent[j1] <= sent[j2] <= 100
      ensures k < total ==> sent[j2] < 100
    {
      TickWithin(total, t, k, j2);
      TickValues(total, t, j1, j2);
    }
  }

  /** A tick before the last one among n ticks that all fall within total
      responses is below 100. */
  lemma EarlierTickBelow(total: nat, ticks: nat, n: nat, j: nat)
    requires total > 0 && ticks > 0 && n * ticks <= total && j + 1 < n
    ensures 0 <= TickValue(total, ticks, j) < 100
  {
    MulMono(j + 1, n - 1, ticks);
    assert (n - 1) * ticks == n * ticks - ticks;
    TickValues(total, ticks, j, j);
  }

  /** The values sent by a goroutine that gets past its loop end in
      exactly one 100, after a non-decreasing run of smaller percentages. */
  lemma FinalProgress(total: nat, arrivals: seq<BenchmarkResponse>)
    requires |arrivals| >= total
    ensures var sent := Collect(Start(total), total, arrivals).sent;
      |sent| > 0 && sent[|sent| - 1] == 100 &&
      (forall j :: 0 <= j < |sent| - 1 ==> 0 <= sent[j] < 100) &&
      (forall j1, j2 :: 0 <= j1 <= j2 < |sent| ==> sent[j1] <= sent[j2])
  {
    var t := Ticks(total);
    var d := Drained(Start(total), total, arrivals, total);
    var sent := d.summary.sent;
    var n := |sent|;
    DrainedProgress(total, arrivals, total);
    SentSoFar(total, arrivals, total);
    if n > 0 {
      TickWithin(total, t, total, n - 1);
      forall j | 0 <= j < n - 1
        ensures 0 <= sent[j] < 100
      {
        EarlierTickBelow(total, t, n, j);
      }
      if d.progress < 100 {
        forall j | 0 <= j < n
          ensures sent[j] < 100
        {
          TickValues(total, t, j, n - 1);
        }
      }
    }
  }

  /** Once Runs responses have arrived the goroutine finishes: every slot
      holds its response in arrival order, Runs and Errors are final, and
      Done is signalled. */
  lemma CollectFinishes(total: nat, arrivals: seq<BenchmarkResponse>)
    requires |arrivals| >= total
    ensures var s := Collect(Start(total), total, arrivals);
      s.done && s.runs == total && s.errors == Failures(arrivals[..total]) &&
      |s.responses| == total && (forall j :: 0 <= j < total ==> s.responses[j] == Some(arrivals[j]))
  {
    DrainedResponses(total, arrivals, total);
    DrainedErrors(total, arrivals, total);
  }

  /** While fewer than Runs responses have arrived the goroutine is still
      waiting: Done is not signalled and no 100 has been sent. */
  lemma CollectBlocked(total: nat, arrivals: seq<BenchmarkResponse>)
    requires |arrivals| < total
    ensures var s := Collect(Start(total), total, arrivals);
      !s.done && s.runs == |arrivals| && s.errors == Failures(arrivals) &&
      (forall j :: 0 <= j < |s.sent| ==> 0 <= s.sent[j] < 100)
  {
    var k := |arrivals|;
    DrainedResponses(total, arrivals, k);
    DrainedErrors(total, arrivals, k);
    assert arrivals[..k] == arrivals;
    SentSoFar(total, arrivals, k);
  }

  /** A gateway that fails every request: Errors equals Runs. */
  lemma AllFailingGateway(total: nat, arrivals: seq<BenchmarkResponse>)
    requires |arrivals| >= total
    requires forall j :: 0 <= j < |arrivals| ==> !arrivals[j].success
    ensures Collect(Start(total), total, arrivals).errors == Collect(Start(total), total, arrivals).runs == total
  {
    CollectFinishes(total, arrivals);
    AllFailed(arrivals[..total]);
  }

  /** 150 runs tick after every response; the first value sent is 0 and
      values repeat (2 is sent after the 3rd and the 4th response). */
  lemma ProgressOf150Runs(arrivals: seq<BenchmarkResponse>)
    requires |arrivals| == 150
    ensures var sent := Collect(Start(150), 150, arrivals).sent;
      |sent| == 150 && sent[0] == 0 && sent[2] == 2 && sent[3] == 2 && sent[149] == 100
  {
    assert Ticks(150) == 1;
    DrainedProgress(150, arrivals, 150);
    assert TickValue(150, 1, 149) == 100;
  }

  /** 1000 runs tick every 10 responses and send 1, 2, .., 100. */
  lemma ProgressOf1000Runs(arrivals: seq<BenchmarkResponse>)
    requires |arrivals| == 1000
    ensures var sent := Collect(Start(1000), 1000, arrivals).sent;
      |sent| == 100 && forall j :: 0 <= j < 100 ==> sent[j] == j + 1
  {
    assert Ticks(1000) == 10;
    DrainedProgress(1000, arrivals, 1000);
    forall j | 0 <= j < 100
      ensures TickValue(1000, 10, j) == j + 1
    {
      DivUnique(100 * ((j + 1) * 10), 1000, j + 1, 0);
    }
    assert TickValue(1000, 10, 99) == 100;
  }

  /** No response: the loop does not run and the goroutine sends the
      final 100 alone. */
  lemma NoRuns(arrivals: seq<BenchmarkResponse>)
    ensures Collect(Start(0), 0, arrivals).sent == [100]
    ensures Collect(Start(0), 0, arrivals).done
  {
  }
}

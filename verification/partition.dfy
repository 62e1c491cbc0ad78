/** The split of Runs across Clients at the top of Run (benchmark.go:66-83):
    every client gets Runs/Clients requests and the first Runs%Clients
    clients one more. The goroutine each share is handed to is not part of
    this model; the shares are collected into a sequence instead. */
module Partition {
  import opened Results
  import opened BenchmarkTypes

  /** The share of client i (benchmark.go:74-78), for Runs >= 0 and
      Clients >= 1, where Go's `/` and `%` agree with Dafny's. */
  function ClientShare(runs: nat, clients: nat, i: nat): nat
    requires clients > 0
  {
    if i < runs % clients then runs / clients + 1 else runs / clients
  }

  /** The shares of clients 0 .. n-1, in loop order. */
  function SharesUpTo(runs: nat, clients: nat, n: nat): (s: seq<nat>)
    requires clients > 0
    ensures |s| == n
    ensures forall i :: 0 <= i < n ==> s[i] == ClientShare(runs, clients, i)
  {
    if n == 0 then [] else SharesUpTo(runs, clients, n - 1) + [ClientShare(runs, clients, n - 1)]
  }

  /** What the loop at benchmark.go:71-83 hands out: a division by zero for
      Clients == 0, no share at all for negative Clients (the loop does not
      run), and one share per client otherwise. */
  function Shares(runs: nat, clients: int): Result<seq<nat>, RunPanic>
  {
    if clients == 0 then Failure(IntegerDivideByZero)
    else if clients < 0 then Success([])
    else Success(SharesUpTo(runs, clients, clients))
  }

  /** benchmark.go:66-83, with the share of client i recorded at index i
      where the source starts `runClient(i, runs)`. */
  method AssignRuns(totalRuns: nat, clients: int) returns (r: Result<seq<nat>, RunPanic>)
    ensures r == Shares(totalRuns, clients)
  {
    if clients == 0 {
      return Failure(IntegerDivideByZero);
    }
    var runsPerClient := GoQuo(totalRuns, clients);
    var extra := GoRem(totalRuns, clients);
    var shares: seq<nat> := [];
    var i := 0;
    while i < clients
      invariant 0 <= i
      invariant clients > 0 ==> i <= clients && shares == SharesUpTo(totalRuns, clients, i)
      invariant clients < 0 ==> i == 0 && shares == []
    {
      var runs: nat;
      if i < extra {
        runs := runsPerClient + 1;
      } else {
        runs := runsPerClient;
      }
      shares := shares + [runs];
      i := i + 1;
    }
    return Success(shares);
  }

  /** The sum of a sequence of shares. */
  function Sum(s: seq<nat>): nat
  {
    if |s| == 0 then 0 else Sum(s[..|s| - 1]) + s[|s| - 1]
  }

  function Min(a: int, b: int): int { if a < b then a else b }

  /** The first n clients together get n times the base share plus one
      for each of them that is among the first Runs%Clients. */
  lemma {:induction false} SharesUpToSum(runs: nat, clients: nat, n: nat)
    requires clients > 0
    ensures Sum(SharesUpTo(runs, clients, n)) == n * (runs / clients) + Min(n, runs % clients)
  {
    if n > 0 {
      var s := SharesUpTo(runs, clients, n);
      assert s[..n - 1] == SharesUpTo(runs, clients, n - 1);
      SharesUpToSum(runs, clients, n - 1);
      assert n * (runs / clients) == (n - 1) * (runs / clients) + runs / clients;
    }
  }

  /** With at least one client, the shares add up to exactly Runs: every
      request is assigned to some client and none twice. */
  lemma SharesSumToRuns(runs: nat, clients: int)
    requires clients >= 1
    ensures Shares(runs, clients).Success?
    ensures |Shares(runs, clients).value| == clients
    ensures Sum(Shares(runs, clients).value) == runs
  {
    SharesUpToSum(runs, clients, clients);
    assert runs == clients * (runs / clients) + runs % clients;
  }

  /** Every share is the base share Runs/Clients or one more, the larger
      shares come first, and so no two shares differ by more than one. */
  lemma SharesBalanced(runs: nat, clients: int)
    requires clients >= 1
    ensures Shares(runs, clients).Success?
    ensures forall i :: 0 <= i < |Shares(runs, clients).value| ==>
      runs / clients <= Shares(runs, clients).value[i] <= runs / clients + 1
    ensures forall i, j :: 0 <= i <= j < |Shares(runs, clients).value| ==>
      Shares(runs, clients).value[j] <= Shares(runs, clients).value[i] <= Shares(runs, clients).value[j] + 1
  {
  }

  /** Exactly Runs%Clients clients get the larger share. */
  lemma {:induction false} LargerSharesCount(runs: nat, clients: nat, n: nat)
    requires clients > 0
    ensures CountLarger(SharesUpTo(runs, clients, n), runs / clients) == Min(n, runs % clients)
  {
    if n > 0 {
      var s := SharesUpTo(runs, clients, n);
      assert s[..n - 1] == SharesUpTo(runs, clients, n - 1);
      LargerSharesCount(runs, clients, n - 1);
    }
  }

  /** The number of shares above base. */
  function CountLarger(s: seq<nat>, base: nat): nat
  {
    if |s| == 0 then 0 else CountLarger(s[..|s| - 1], base) + (if s[|s| - 1] > base then 1 else 0)
  }

  /** 1001 runs over 4 clients: one client takes the extra request. */
  lemma UnevenSplit()
    ensures Shares(1001, 4) == Success([251, 250, 250, 250])
  {
    assert SharesUpTo(1001, 4, 4) == [251, 250, 250, 250];
  }

  /** 1000 runs over 4 clients: an even split. */
  lemma EvenSplit()
    ensures Shares(1000, 4) == Success([250, 250, 250, 250])
  {
    assert SharesUpTo(1000, 4, 4) == [250, 250, 250, 250];
  }

  /** Fewer runs than clients: the last clients get nothing to do. */
  lemma FewerRunsThanClients()
    ensures Shares(3, 5) == Success([1, 1, 1, 0, 0])
  {
    assert SharesUpTo(3, 5, 5) == [1, 1, 1, 0, 0];
  }
}

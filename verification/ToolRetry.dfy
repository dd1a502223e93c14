/**
 The retry loop around one tool callable. One absolute deadline spans all attempts; each attempt is
 cut at the smaller of the tool timeout and the time left. Times are microseconds. The callable, the
 random waits and the drift of the estimated clock (heartbeats move its offset) are arbitrary.
 */
module ToolRetry {
  import opened Basics

  const BACKOFF_MULTIPLIER: nat := 100_000
  const BACKOFF_MAX: nat := 1_000_000

  /** What the callable would do if nothing stopped it: finish after a while, with a value or an exception. */
  datatype Behaviour = Behaviour(duration: nat, succeeds: bool)

  /** One invocation, in microseconds since the loop began. */
  datatype Invocation = Invocation(attempt: nat, begin: nat, end: nat, succeeded: bool)

  /** Attempts are numbered from 1. `drift(k)` is how far the estimated clock has moved against the monotone one by
      attempt `k`. */
  datatype World = World(body: nat -> Behaviour, wait: nat -> nat, drift: nat -> int)

  function Pow2(n: nat): nat { if n == 0 then 1 else 2 * Pow2(n - 1) }

  /** The ceiling of the random wait after attempt `k`. */
  function BackoffCap(k: nat): (cap: nat)
    ensures cap <= BACKOFF_MAX
  {
    if k == 0 then 0 else Min(BACKOFF_MAX, BACKOFF_MULTIPLIER * Pow2(k - 1)) as nat
  }

  /** The ceilings of the waits after the first, second, third, ... attempt: they double from a tenth of a second up to one. */
  lemma BackoffCaps(k: nat)
    ensures BackoffCap(1) == 100_000 && BackoffCap(2) == 200_000 && BackoffCap(3) == 400_000 && BackoffCap(4) == 800_000
    ensures k >= 5 ==> BackoffCap(k) == 1_000_000
  {
    assert Pow2(0) == 1 && Pow2(1) == 2 && Pow2(2) == 4 && Pow2(3) == 8;
    if k >= 5 { PowGrows(k - 1); }
  }

  lemma {:induction false} PowGrows(n: nat)
    requires n >= 4
    ensures Pow2(n) >= 16
  {
    if n == 4 {
      assert Pow2(2) == 4 && Pow2(3) == 8;
    } else {
      PowGrows(n - 1);
    }
  }

  function Budget(deadline: int, start: int): nat { Max(0, deadline - start) }

  /** An invocation that began with time left and was over by the deadline, both on the estimated clock, and within
      the tool timeout. */
  predicate InTime(w: World, deadline: int, start: int, timeout: nat, i: Invocation) {
    && start + i.begin + w.drift(i.attempt) < deadline
    && i.begin <= i.end <= i.begin + timeout
    && start + i.end + w.drift(i.attempt) <= deadline
  }

  /** The value of an invocation is the value of the callable, which was not cut short. */
  predicate Genuine(w: World, i: Invocation) {
    i.succeeded ==> w.body(i.attempt).succeeds && i.end - i.begin == w.body(i.attempt).duration
  }

  /** Time spent waiting after attempts 1 to `n`. */
  function Waited(w: World, n: nat): nat { if n == 0 then 0 else Waited(w, n - 1) + w.wait(n) }

  /** Time spent in the callable. */
  function Busy(calls: seq<Invocation>): int {
    if calls == [] then 0
    else Busy(calls[..|calls| - 1]) + calls[|calls| - 1].end - calls[|calls| - 1].begin
  }

  /** The invocations of at most `attempts` attempts: in order, in time, genuine, and all but the last failed. */
  ghost predicate Invocations(w: World, deadline: int, start: int, timeout: nat, calls: seq<Invocation>, attempts: nat) {
    && |calls| <= attempts
    && (forall i :: 0 <= i < |calls| ==> 1 <= calls[i].attempt <= attempts)
    && (forall i :: 0 <= i < |calls| ==> InTime(w, deadline, start, timeout, calls[i]) && Genuine(w, calls[i]))
    && (forall i, j :: 0 <= i < j < |calls| ==>
          calls[i].attempt < calls[j].attempt && calls[i].end <= calls[j].begin && !calls[i].succeeded)
  }

  ghost predicate AllFailed(calls: seq<Invocation>, elapsed: nat) {
    forall i :: 0 <= i < |calls| ==> !calls[i].succeeded && calls[i].end <= elapsed
  }

  lemma Extend(w: World, deadline: int, start: int, timeout: nat, calls: seq<Invocation>, attempts: nat, elapsed: nat,
               call: Invocation)
    requires Invocations(w, deadline, start, timeout, calls, attempts) && AllFailed(calls, elapsed)
    requires call.attempt == attempts + 1 && call.begin == elapsed
    requires InTime(w, deadline, start, timeout, call) && Genuine(w, call)
    ensures Invocations(w, deadline, start, timeout, calls + [call], attempts + 1)
    ensures !call.succeeded ==> AllFailed(calls + [call], call.end)
  {
    hide InTime, Genuine;
    assert InTime(w, deadline, start, timeout, call) && Genuine(w, call);
    assert call.end >= elapsed by { Later(w, deadline, start, timeout, call); }
  }

  lemma NoInvocations(w: World, deadline: int, start: int, timeout: nat)
    ensures Invocations(w, deadline, start, timeout, [], 0) && Busy([]) == 0 && Waited(w, 0) == 0
  {}

  lemma Widen(w: World, deadline: int, start: int, timeout: nat, calls: seq<Invocation>, attempts: nat)
    requires Invocations(w, deadline, start, timeout, calls, attempts)
    ensures Invocations(w, deadline, start, timeout, calls, attempts + 1)
  {}

  lemma Later(w: World, deadline: int, start: int, timeout: nat, call: Invocation)
    requires InTime(w, deadline, start, timeout, call)
    ensures call.end >= call.begin
  {}

  // The loop as a function of the world --------------------------------------------------------

  datatype Outcome = Outcome(calls: seq<Invocation>, succeeded: bool, attempts: nat, elapsed: nat)

  /** The invocation of attempt `k`: what the callable does, unless `Min(timeout, remaining)` is over first. */
  function CallAt(w: World, k: nat, elapsed: nat, timeout: nat, remaining: nat): Invocation {
    var limit, b := Min(timeout, remaining) as nat, w.body(k);
    if b.duration < limit then Invocation(k, elapsed, elapsed + b.duration, b.succeeds)
    else Invocation(k, elapsed, elapsed + limit, false)
  }

  /** The rest of the loop after `attempts` attempts that took `elapsed`, the last wait included. */
  function Loop(w: World, retries: nat, timeout: nat, deadline: int, start: int,
                calls: seq<Invocation>, attempts: nat, elapsed: nat): Outcome
    requires attempts <= retries
    decreases retries - attempts
  {
    var k := attempts + 1;
    var remaining := deadline - (start + elapsed + w.drift(k));
    var made := if remaining > 0 then calls + [CallAt(w, k, elapsed, timeout, remaining)] else calls;
    var now := if remaining > 0 then made[|calls|].end else elapsed;
    if remaining > 0 && made[|calls|].succeeded then Outcome(made, true, k, now)
    else if k >= retries + 1 || now >= Budget(deadline, start) then Outcome(made, false, k, now)
    else Loop(w, retries, timeout, deadline, start, made, k, now + w.wait(k))
  }

  /** One attempt with `remaining` time left, cut at the tool timeout or the deadline (`asyncio.wait_for`). */
  method RunAttempt(w: World, attempt: nat, elapsed: nat, timeout: nat, remaining: nat) returns (call: Invocation)
    ensures call == CallAt(w, attempt, elapsed, timeout, remaining)
    ensures call.attempt == attempt && call.begin == elapsed
    ensures elapsed <= call.end <= elapsed + Min(timeout, remaining)
    ensures Genuine(w, call)
    ensures call.succeeded <==> w.body(attempt).succeeds && w.body(attempt).duration < Min(timeout, remaining)
  {
    var limit := if timeout < remaining then timeout else remaining;
    var b := w.body(attempt);
    if b.duration < limit {
      call := Invocation(attempt, elapsed, elapsed + b.duration, b.succeeds);
    } else {
      call := Invocation(attempt, elapsed, elapsed + limit, false);
    }
  }

  /** One turn of the loop. */
  lemma LoopTurn(w: World, retries: nat, timeout: nat, deadline: int, start: int,
                 calls: seq<Invocation>, attempts: nat, elapsed: nat)
    requires attempts <= retries
    ensures var k := attempts + 1;
            var remaining := deadline - (start + elapsed + w.drift(k));
            var made := if remaining > 0 then calls + [CallAt(w, k, elapsed, timeout, remaining)] else calls;
            var now := if remaining > 0 then CallAt(w, k, elapsed, timeout, remaining).end else elapsed;
            var won := remaining > 0 && CallAt(w, k, elapsed, timeout, remaining).succeeded;
            Loop(w, retries, timeout, deadline, start, calls, attempts, elapsed) ==
            if won || k >= retries + 1 || now >= Budget(deadline, start) then Outcome(made, won, k, now)
            else Loop(w, retries, timeout, deadline, start, made, k, now + w.wait(k))
  {
    hide CallAt, Budget;
  }

  ghost predicate WaitsCapped(w: World) { forall k :: w.wait(k) <= BackoffCap(k) }

  ghost predicate FallsBackAtMost(w: World, backward: nat) { forall k :: w.drift(k) + backward >= 0 }

  /** `_invoke_registered_tool_with_retry`. */
  method InvokeWithRetry(w: World, retries: nat, timeout: nat, deadline: int, start: int, ghost backward: nat)
    returns (calls: seq<Invocation>, succeeded: bool, attempts: nat, elapsed: nat)
    requires WaitsCapped(w)
    ensures Outcome(calls, succeeded, attempts, elapsed) == Loop(w, retries, timeout, deadline, start, [], 0, 0)
    ensures 1 <= attempts <= retries + 1 && Invocations(w, deadline, start, timeout, calls, attempts)
    ensures succeeded <==> calls != [] && calls[|calls| - 1].succeeded
    ensures succeeded ==> calls[|calls| - 1].end == elapsed && calls[|calls| - 1].attempt == attempts
    // The callable runs at once when there is time left, and never when there is none.
    ensures w.drift(1) == 0 ==> if start < deadline then calls != [] && calls[0].begin == 0 else calls == []
    ensures elapsed == Busy(calls) + Waited(w, attempts - 1)
    // It gives up only when the attempts or the time are used up.
    ensures !succeeded ==> attempts == retries + 1 || elapsed >= Budget(deadline, start)
    // The total stays below the budget plus one backoff, unless the estimated clock itself fell back further.
    ensures FallsBackAtMost(w, backward) ==>
              elapsed <= Budget(deadline, start) + backward || elapsed < Budget(deadline, start) + BACKOFF_MAX
  {
    hide BackoffCap, Genuine, Min, Invocations, Busy, Waited, CallAt, Loop;
    var budget := if deadline - start > 0 then deadline - start else 0;
    calls, succeeded, attempts, elapsed := [], false, 0, 0;
    NoInvocations(w, deadline, start, timeout);
    while true
      invariant attempts <= retries
      invariant Loop(w, retries, timeout, deadline, start, [], 0, 0)
             == Loop(w, retries, timeout, deadline, start, calls, attempts, elapsed)
      invariant Invocations(w, deadline, start, timeout, calls, attempts) && AllFailed(calls, elapsed)
      invariant attempts == 0 ==> elapsed == 0 && calls == []
      invariant attempts > 0 ==> budget > 0 && elapsed < budget + BACKOFF_MAX
      invariant elapsed == Busy(calls) + Waited(w, attempts)
      invariant w.drift(1) == 0 && attempts > 0 ==> calls != [] && calls[0].begin == 0
      decreases retries - attempts
    {
      Widen(w, deadline, start, timeout, calls, attempts);
      LoopTurn(w, retries, timeout, deadline, start, calls, attempts, elapsed);
      attempts := attempts + 1;
      var remaining := deadline - (start + elapsed + w.drift(attempts));
      if remaining > 0 {
        var call := RunAttempt(w, attempts, elapsed, timeout, remaining);
        MinBounds(timeout, remaining);
        Extend(w, deadline, start, timeout, calls, attempts - 1, elapsed, call);
        BusyAppend(calls, call);
        calls := calls + [call];
        elapsed := call.end;
        if call.succeeded {
          return calls, true, attempts, elapsed;
        }
      }
      if attempts >= retries + 1 || elapsed >= budget {
        return calls, false, attempts, elapsed;
      }
      CapBound(attempts);
      WaitedNext(w, attempts);
      elapsed := elapsed + w.wait(attempts);
    }
  }

  lemma BusyAppend(calls: seq<Invocation>, call: Invocation)
    ensures Busy(calls + [call]) == Busy(calls) + call.end - call.begin
  {
    assert (calls + [call])[..|calls|] == calls;
  }

  lemma WaitedNext(w: World, n: nat)
    requires n > 0
    ensures Waited(w, n) == Waited(w, n - 1) + w.wait(n)
  {}

  lemma MinBounds(a: int, b: int)
    ensures Min(a, b) <= a && Min(a, b) <= b
  {}

  lemma CapBound(k: nat)
    ensures BackoffCap(k) <= BACKOFF_MAX
  {}

  // The total time -----------------------------------------------------------------------------

  /** The total of every run stays below the budget plus one backoff, whatever the callable, the waits within their
      ceilings and the clock estimate do, as long as the estimate falls back by at most `backward`. */
  ghost predicate AlwaysInBudget(backward: nat) {
    forall w: World, retries: nat, timeout: nat, deadline: int, start: int ::
      WaitsCapped(w) && FallsBackAtMost(w, backward) ==>
        Loop(w, retries, timeout, deadline, start, [], 0, 0).elapsed < Budget(deadline, start) + BACKOFF_MAX
  }

  lemma CallEnds(w: World, k: nat, elapsed: nat, timeout: nat, remaining: nat)
    ensures elapsed <= CallAt(w, k, elapsed, timeout, remaining).end <= elapsed + remaining
  {}

  lemma {:induction false} TotalBound(w: World, retries: nat, timeout: nat, deadline: int, start: int,
                                      calls: seq<Invocation>, attempts: nat, elapsed: nat, backward: nat)
    requires attempts <= retries && WaitsCapped(w) && FallsBackAtMost(w, backward)
    requires elapsed < Budget(deadline, start) + BACKOFF_MAX
    ensures var total := Loop(w, retries, timeout, deadline, start, calls, attempts, elapsed).elapsed;
            total <= Budget(deadline, start) + backward || total < Budget(deadline, start) + BACKOFF_MAX
    decreases retries - attempts
  {
    hide CallAt, Loop;
    var k := attempts + 1;
    var remaining := deadline - (start + elapsed + w.drift(k));
    LoopTurn(w, retries, timeout, deadline, start, calls, attempts, elapsed);
    var made, now := calls, elapsed;
    if remaining > 0 {
      CallEnds(w, k, elapsed, timeout, remaining);
      made := calls + [CallAt(w, k, elapsed, timeout, remaining)];
      now := CallAt(w, k, elapsed, timeout, remaining).end;
      assert w.drift(k) + backward >= 0;
    }
    if k < retries + 1 && now < Budget(deadline, start) {
      assert w.wait(k) <= BackoffCap(k) <= BACKOFF_MAX;
      TotalBound(w, retries, timeout, deadline, start, made, k, now + w.wait(k), backward);
    }
  }

  /** Two microseconds of budget: the first attempt fails after one, then the estimate falls back and the second attempt
      never finishes. */
  function Relapse(backward: nat): World {
    var fallen: int := backward;
    World((k: nat) => if k == 1 then Behaviour(1, false) else Behaviour(backward + 1, false),
          (k: nat) => 0,
          (k: nat) => if k == 1 then 0 else -fallen)
  }

  /** That run ends the whole fall-back after its deadline. */
  lemma RelapseRun(backward: nat)
    ensures WaitsCapped(Relapse(backward)) && FallsBackAtMost(Relapse(backward), backward)
    ensures Budget(2, 0) == 2 && Loop(Relapse(backward), 1, backward + 1, 2, 0, [], 0, 0).elapsed == 2 + backward
  {
    var w := Relapse(backward);
    var timeout := backward + 1;
    LoopTurn(w, 1, timeout, 2, 0, [], 0, 0);
    var first := CallAt(w, 1, 0, timeout, 2);
    assert first == Invocation(1, 0, 1, false);
    LoopTurn(w, 1, timeout, 2, 0, [] + [first], 1, 1);
    assert CallAt(w, 2, 1, timeout, 1 + backward).end == 2 + backward;
  }

  /** The time bound is exact: it holds in every world exactly while the clock estimate never falls back by a whole maximal
      backoff. */
  lemma InBudgetExactly(backward: nat)
    ensures AlwaysInBudget(backward) <==> backward < BACKOFF_MAX
  {
    if backward < BACKOFF_MAX {
      forall w: World, retries: nat, timeout: nat, deadline: int, start: int
        | WaitsCapped(w) && FallsBackAtMost(w, backward)
        ensures Loop(w, retries, timeout, deadline, start, [], 0, 0).elapsed < Budget(deadline, start) + BACKOFF_MAX
      {
        TotalBound(w, retries, timeout, deadline, start, [], 0, 0, backward);
      }
    } else {
      hide Loop, Relapse;
      RelapseRun(backward);
      assert Loop(Relapse(backward), 1, backward + 1, 2, 0, [], 0, 0).elapsed >= Budget(2, 0) + BACKOFF_MAX;
    }
  }
}

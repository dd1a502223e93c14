/**
 The consecutive-failure circuit breaker with one bounded recovery probe. Admission and completion
 are atomic (the source holds a lock), so every interleaving of concurrent attempts is a sequence of
 the two steps. Time is real and given to each step.
 */
module CircuitBreaker {

  datatype Phase = Closed | Open | HalfOpen

  /** What an attempt was marked with while it ran. */
  datatype Mark = Unmarked | Failed | Neutral

  /** How the protected body was left. */
  datatype Exit = Returned | Raised | Cancelled | Aborted

  datatype Verdict = Success | Failure | Ignored

  datatype Breaker = Breaker(threshold: nat, timeout: real, phase: Phase, generation: nat, failures: nat,
                             openUntil: real, probeUntil: real)

  datatype Admission = Admitted(generation: nat) | Rejected(retryAfter: real)

  function ReserveProbe(b: Breaker, now: real): Breaker {
    b.(phase := HalfOpen, generation := b.generation + 1, probeUntil := now + b.timeout)
  }

  /** Until when a breaker that is not closed turns tasks away. */
  function Gate(b: Breaker): real { if b.phase == Open then b.openUntil else b.probeUntil }

  function Admit(b: Breaker, now: real): (Breaker, Admission) {
    if b.phase == Closed then (b, Admitted(b.generation))
    else if now < Gate(b) then (b, Rejected(Gate(b) - now))
    else (ReserveProbe(b, now), Admitted(b.generation + 1))
  }

  function Complete(b: Breaker, generation: nat, verdict: Verdict, now: real): Breaker {
    var tripped := b.(phase := Open, generation := b.generation + 1, probeUntil := 0.0);
    if generation != b.generation then b
    else match verdict
      case Ignored => if b.phase == HalfOpen then tripped.(openUntil := now) else b
      case Failure =>
        if b.phase == HalfOpen then tripped.(openUntil := now + b.timeout)
        else if b.failures + 1 >= b.threshold then tripped.(openUntil := now + b.timeout, failures := b.failures + 1)
        else b.(failures := b.failures + 1)
      case Success =>
        if b.phase == HalfOpen
        then b.(phase := Closed, generation := b.generation + 1, failures := 0, openUntil := 0.0, probeUntil := 0.0)
        else b.(failures := 0)
  }

  /** A cancelled attempt is neutral whatever its mark; an abort is neutral unless a failure was marked; an exception
      counts as a failure unless the attempt was marked neutral. */
  function VerdictOf(mark: Mark, exit: Exit): Verdict {
    if exit == Cancelled || mark == Neutral then Ignored
    else if mark == Failed || exit == Raised then Failure
    else if exit == Aborted then Ignored
    else Success
  }

  /** What counts, by how the body was left: a success only when it returned unmarked, a failure when it was marked failed or
      raised unmarked, and nothing after a cancellation or a neutral mark. */
  lemma VerdictExactly(mark: Mark, exit: Exit)
    ensures VerdictOf(mark, exit) == Success <==> exit == Returned && mark == Unmarked
    ensures VerdictOf(mark, exit) == Failure <==>
            exit != Cancelled && (mark == Failed || (exit == Raised && mark == Unmarked))
  {}

  class Attempt {
    const generation: nat
    var outcome: Mark

    constructor (generation: nat)
      ensures this.generation == generation && outcome == Unmarked
    {
      this.generation := generation;
      outcome := Unmarked;
    }

    method Fail()
      modifies this
      ensures outcome == if old(outcome) == Unmarked then Failed else old(outcome)
    {
      if outcome == Unmarked { outcome := Failed; }
    }

    method Ignore()
      modifies this
      ensures outcome == if old(outcome) == Unmarked then Neutral else old(outcome)
    {
      if outcome == Unmarked { outcome := Neutral; }
    }

    method IgnoreCancellation()
      modifies this
      ensures outcome == Neutral
    {
      outcome := Neutral;
    }
  }

  class CircuitBreaker {
    const failureThreshold: nat
    const recoveryTimeout: real
    var phase: Phase
    var generation: nat
    var consecutiveFailures: nat
    var openUntil: real
    var probeUntil: real

    ghost function State(): Breaker
      reads this
    {
      Breaker(failureThreshold, recoveryTimeout, phase, generation, consecutiveFailures, openUntil, probeUntil)
    }

    constructor (failures: nat, recoveryTimeout: real)
      requires failures >= 1 && recoveryTimeout > 0.0
      ensures State() == Initial(failures, recoveryTimeout)
    {
      failureThreshold, this.recoveryTimeout := failures, recoveryTimeout;
      phase, generation, consecutiveFailures, openUntil, probeUntil := Closed, 0, 0, 0.0, 0.0;
    }

    method AdmitTask(now: real) returns (attempt: Attempt?, retryAfter: real)
      modifies this
      ensures State() == Admit(old(State()), now).0
      ensures match Admit(old(State()), now).1
              case Admitted(g) => attempt != null && fresh(attempt) && attempt.generation == g && attempt.outcome == Unmarked
              case Rejected(r) => attempt == null && retryAfter == r
    {
      attempt, retryAfter := null, 0.0;
      if phase == Closed {
        attempt := new Attempt(generation);
        return;
      }
      if phase == Open {
        if now < openUntil { return null, openUntil - now; }
      } else if now < probeUntil {
        return null, probeUntil - now;
      }
      phase := HalfOpen;
      generation := generation + 1;
      probeUntil := now + recoveryTimeout;
      attempt := new Attempt(generation);
    }

    method TripOpen(until: real)
      modifies this
      ensures State() == old(State()).(phase := Open, generation := old(generation) + 1, openUntil := until, probeUntil := 0.0)
    {
      phase := Open;
      openUntil := until;
      probeUntil := 0.0;
      generation := generation + 1;
    }

    method CompleteTask(attempt: Attempt, raised: bool, now: real)
      modifies this
      ensures State() == Complete(old(State()), attempt.generation,
                                  VerdictOf(attempt.outcome, if raised then Raised else Returned), now)
    {
      if attempt.generation != generation { return; }
      if attempt.outcome == Neutral {
        if phase == HalfOpen { TripOpen(now); }
        return;
      }
      var failed := attempt.outcome == Failed || raised;
      if phase == HalfOpen {
        if failed {
          TripOpen(now + recoveryTimeout);
        } else {
          phase, consecutiveFailures, openUntil, probeUntil := Closed, 0, 0.0, 0.0;
          generation := generation + 1;
        }
        return;
      }
      if failed {
        consecutiveFailures := consecutiveFailures + 1;
        if consecutiveFailures >= failureThreshold { TripOpen(now + recoveryTimeout); }
      } else {
        consecutiveFailures := 0;
      }
    }

    /** The exit of the `protect` context. */
    method Leave(attempt: Attempt, exit: Exit, now: real)
      modifies this, attempt
      ensures State() == Complete(old(State()), attempt.generation, VerdictOf(old(attempt.outcome), exit), now)
    {
      match exit
      case Cancelled =>
        attempt.IgnoreCancellation();
        CompleteTask(attempt, false, now);
      case Raised =>
        CompleteTask(attempt, true, now);
      case Aborted =>
        attempt.Ignore();
        CompleteTask(attempt, false, now);
      case Returned =>
        CompleteTask(attempt, false, now);
    }
  }

  function Initial(failures: nat, recoveryTimeout: real): Breaker {
    Breaker(failures, recoveryTimeout, Closed, 0, 0, 0.0, 0.0)
  }

  // ---------------------------------------------------------------------------------------------
  // Concurrent attempts
  // ---------------------------------------------------------------------------------------------

  /** One issued attempt. */
  datatype Ticket = Ticket(generation: nat, done: bool)

  /** A completion that counted: of the generation current at that moment, and not neutral. */
  datatype Counted = Counted(generation: nat, failed: bool)

  /** The breaker, every attempt it ever issued, every completion that counted, and the last clock reading. */
  datatype System = System(b: Breaker, tickets: seq<Ticket>, history: seq<Counted>, clock: real)

  datatype Step = Ask(now: real) | Finish(ticket: nat, verdict: Verdict, now: real)

  predicate Enabled(s: System, step: Step) {
    step.now >= s.clock && (step.Finish? ==> step.ticket < |s.tickets| && !s.tickets[step.ticket].done)
  }

  function Next(s: System, step: Step): System
    requires Enabled(s, step)
  {
    match step
    case Ask(now) =>
      var (b, answer) := Admit(s.b, now);
      System(b, if answer.Admitted? then s.tickets + [Ticket(answer.generation, false)] else s.tickets, s.history, now)
    case Finish(i, verdict, now) =>
      var g := s.tickets[i].generation;
      System(Complete(s.b, g, verdict, now),
             s.tickets[i := Ticket(g, true)],
             if g == s.b.generation && verdict != Ignored then s.history + [Counted(g, verdict == Failure)] else s.history,
             now)
  }

  /** Length of the run of failures of generation `g` that ends the history. */
  function FailureRun(history: seq<Counted>, g: nat): nat {
    if history == [] || history[|history| - 1] != Counted(g, true) then 0
    else 1 + FailureRun(history[..|history| - 1], g)
  }

  /** The probe in flight: issued for the current generation, not completed, and the only attempt of that generation. */
  ghost predicate Probe(s: System, i: nat) {
    && i < |s.tickets| && s.tickets[i] == Ticket(s.b.generation, false)
    && forall j :: 0 <= j < |s.tickets| && s.tickets[j].generation == s.b.generation ==> j == i
  }

  /** What holds in every reachable state of every interleaving. */
  ghost predicate Inv(s: System) {
    && s.b.threshold >= 1 && s.b.timeout > 0.0
    && (forall i :: 0 <= i < |s.tickets| ==> s.tickets[i].generation <= s.b.generation)
    && (forall i :: 0 <= i < |s.history| ==> s.history[i].generation <= s.b.generation)
    && (s.b.phase == Closed ==> s.b.failures == FailureRun(s.history, s.b.generation) < s.b.threshold)
    && (s.b.phase != Closed ==> s.b.failures == s.b.threshold && Gate(s.b) <= s.clock + s.b.timeout)
    && (s.b.phase == Open ==> forall i :: 0 <= i < |s.tickets| ==> s.tickets[i].generation < s.b.generation)
    && (s.b.phase == HalfOpen ==> exists i :: Probe(s, i))
  }

  lemma InitialInv(failures: nat, timeout: real, clock: real)
    requires failures >= 1 && timeout > 0.0
    ensures Inv(System(Initial(failures, timeout), [], [], clock))
  {}

  lemma FreshGeneration(history: seq<Counted>, g: nat)
    requires forall i :: 0 <= i < |history| ==> history[i].generation < g
    ensures FailureRun(history, g) == 0
  {}

  lemma AskKeepsInv(s: System, now: real)
    requires Inv(s) && now >= s.clock
    ensures Inv(Next(s, Ask(now))) && Next(s, Ask(now)).b.generation >= s.b.generation
  {
    hide FailureRun;
    var t := Next(s, Ask(now));
    if s.b.phase != Closed && now >= Gate(s.b) {
      assert Probe(t, |s.tickets|);
    } else if s.b.phase == HalfOpen {
      var i :| Probe(s, i);
      assert Probe(t, i);
    }
  }

  lemma LateKeepsInv(s: System, k: nat, verdict: Verdict, now: real)
    requires Inv(s) && Enabled(s, Finish(k, verdict, now)) && s.tickets[k].generation != s.b.generation
    ensures Inv(Next(s, Finish(k, verdict, now)))
    ensures Next(s, Finish(k, verdict, now)).b == s.b
  {
    hide FailureRun;
    if s.b.phase == HalfOpen {
      var i :| Probe(s, i);
      assert Probe(Next(s, Finish(k, verdict, now)), i);
    }
  }

  lemma CurrentKeepsInv(s: System, k: nat, verdict: Verdict, now: real)
    requires Inv(s) && Enabled(s, Finish(k, verdict, now)) && s.tickets[k].generation == s.b.generation
    ensures Inv(Next(s, Finish(k, verdict, now)))
    ensures Next(s, Finish(k, verdict, now)).b.generation >= s.b.generation
  {
    var t := Next(s, Finish(k, verdict, now));
    assert t.history == s.history || t.history[..|s.history|] == s.history;
    if t.b.generation > s.b.generation {
      FreshGeneration(t.history, t.b.generation);
    }
  }

  lemma StepKeepsInv(s: System, step: Step)
    requires Inv(s) && Enabled(s, step)
    ensures Inv(Next(s, step))
    ensures Next(s, step).b.generation >= s.b.generation
  {
    match step
    case Ask(now) => AskKeepsInv(s, now);
    case Finish(k, verdict, now) =>
      if s.tickets[k].generation == s.b.generation {
        CurrentKeepsInv(s, k, verdict, now);
      } else {
        LateKeepsInv(s, k, verdict, now);
      }
    hide Next, Inv;
  }

  /** A run of steps, each possible when it is taken. */
  predicate Runs(s: System, steps: seq<Step>)
    decreases |steps|
  {
    steps == [] || (Enabled(s, steps[0]) && Runs(Next(s, steps[0]), steps[1..]))
  }

  function After(s: System, steps: seq<Step>): System
    requires Runs(s, steps)
    decreases |steps|
  {
    if steps == [] then s else After(Next(s, steps[0]), steps[1..])
  }

  /** Breaker generations: in every reachable state the generation has not gone down, no issued attempt carries the
      current generation while the breaker is open, and while it is half-open exactly one does and it has not
      completed. The failure counter is the length of the trailing run of failures, below the threshold, while closed,
      and the threshold otherwise. */
  lemma {:induction false} Reachable(s: System, steps: seq<Step>)
    requires Inv(s) && Runs(s, steps)
    ensures Inv(After(s, steps)) && After(s, steps).b.generation >= s.b.generation
    decreases |steps|
  {
    if steps != [] {
      StepKeepsInv(s, steps[0]);
      Reachable(Next(s, steps[0]), steps[1..]);
    }
  }

  /** A late completion changes nothing: while open no completion does, and while half-open only the probe's. */
  lemma LateCompletion(s: System, i: nat, verdict: Verdict, now: real)
    requires Inv(s) && Enabled(s, Finish(i, verdict, now)) && s.b.phase != Closed && !Probe(s, i)
    ensures Next(s, Finish(i, verdict, now)).b == s.b
    ensures Next(s, Finish(i, verdict, now)).history == s.history
  {
    if s.b.phase == HalfOpen {
      var k :| Probe(s, k);
    }
  }

  /** Opening is exact: a closed breaker opens on a completion exactly when the trailing run of failures, that
      completion included, has reached the threshold. */
  lemma OpensExactly(s: System, i: nat, verdict: Verdict, now: real)
    requires Inv(s) && Enabled(s, Finish(i, verdict, now)) && s.b.phase == Closed
    ensures var t := Next(s, Finish(i, verdict, now));
            && FailureRun(t.history, s.b.generation) <= s.b.threshold
            && (t.b.phase == Open <==> FailureRun(t.history, s.b.generation) == s.b.threshold)
            && (t.b.phase != Open ==> t.b.phase == Closed && t.b.generation == s.b.generation)
            && (t.b.phase == Open ==> t.b.openUntil == now + s.b.timeout)
  {
    var t := Next(s, Finish(i, verdict, now));
    assert t.history == s.history || t.history[..|s.history|] == s.history;
  }

  /** Closing is exact: a breaker that is not closed becomes closed exactly by the completion of the probe in flight as a
      success. Then no failure is counted, and a task is admitted at once with the new generation. */
  lemma ClosesExactly(s: System, step: Step)
    requires Inv(s) && Enabled(s, step) && s.b.phase != Closed
    ensures var t := Next(s, step);
            && (t.b.phase == Closed <==>
                  step.Finish? && step.verdict == Success && s.b.phase == HalfOpen && Probe(s, step.ticket))
            && (t.b.phase == Closed ==>
                  && t.b.failures == 0 && t.b.generation == s.b.generation + 1
                  && forall now :: Admit(t.b, now) == (t.b, Admitted(t.b.generation)))
  {
    if s.b.phase == HalfOpen {
      var i :| Probe(s, i);
      if step.Finish? && step.ticket != i { assert s.tickets[step.ticket].generation != s.b.generation; }
    }
  }

  /** A probe that fails keeps tasks out for the recovery timeout from that moment; one left neutral keeps none out. */
  lemma ProbeOutcome(s: System, i: nat, verdict: Verdict, now: real)
    requires Inv(s) && Enabled(s, Finish(i, verdict, now)) && s.b.phase == HalfOpen && Probe(s, i)
    ensures var b := Next(s, Finish(i, verdict, now)).b;
            match verdict
            case Success => b.phase == Closed
            case Failure => b.phase == Open && forall later :: Admit(b, later).1.Rejected? <==> later < now + s.b.timeout
            case Ignored => b.phase == Open && forall later :: later >= now ==> Admit(b, later).1.Admitted?
  {
    assert s.tickets[i].generation == s.b.generation;
  }

  /** Admission is exact: a closed breaker admits every task with the current generation and changes nothing; any other
      admits one exactly when its gate has passed, and then as the only probe of a new generation, behind which the gate
      is shut for the recovery timeout. */
  lemma AdmitsExactly(s: System, now: real)
    requires Inv(s) && now >= s.clock
    ensures var t, answer := Next(s, Ask(now)), Admit(s.b, now).1;
            && (answer.Admitted? <==> s.b.phase == Closed || now >= Gate(s.b))
            && (answer.Admitted? ==> t.tickets == s.tickets + [Ticket(t.b.generation, false)])
            && (answer.Rejected? ==> t.tickets == s.tickets && t.b == s.b && answer.retryAfter == Gate(s.b) - now)
            && (s.b.phase == Closed ==> t.b == s.b)
            && (answer.Admitted? && s.b.phase != Closed ==>
                  && t.b.phase == HalfOpen && t.b.generation == s.b.generation + 1 && Probe(t, |s.tickets|)
                  && forall later :: Admit(t.b, later).1.Rejected? <==> later < now + s.b.timeout)
  {
  }

  /** Completions of distinct attempts, one after the other, all failures. */
  function Failures(ids: seq<nat>, now: real): seq<Step> {
    seq(|ids|, k requires 0 <= k < |ids| => Finish(ids[k], Failure, now))
  }

  predicate Outstanding(s: System, ids: seq<nat>) {
    && (forall k :: 0 <= k < |ids| ==> ids[k] < |s.tickets| && s.tickets[ids[k]] == Ticket(s.b.generation, false))
    && forall k, l :: 0 <= k < l < |ids| ==> ids[k] != ids[l]
  }

  /** Failures add up: a closed breaker with no failure counted, with as many attempts outstanding as its threshold, opens
      when all of them fail, in any order, and stays shut for the recovery timeout. */
  lemma {:induction false} ThresholdOpens(s: System, ids: seq<nat>, now: real)
    requires Inv(s) && s.b.phase == Closed && now >= s.clock && Outstanding(s, ids)
    requires |ids| + s.b.failures == s.b.threshold
    ensures Runs(s, Failures(ids, now))
    ensures var b := After(s, Failures(ids, now)).b;
            b.phase == Open && forall later :: Admit(b, later).1.Rejected? <==> later < now + s.b.timeout
    decreases |ids|
  {
    var step := Finish(ids[0], Failure, now);
    var t := Next(s, step);
    var steps := Failures(ids, now);
    StepKeepsInv(s, step);
    assert steps[0] == step && steps[1..] == Failures(ids[1..], now);
    FailureCounts(s, ids, now);
    if |ids| == 1 {
      assert steps[1..] == [];
      assert Runs(t, []) && After(t, []) == t;
    } else {
      ThresholdOpens(t, ids[1..], now);
    }
    hide Next, Enabled, Inv, Outstanding;
    assert Runs(s, steps) && After(s, steps) == After(t, steps[1..]);
  }

  lemma FailureCounts(s: System, ids: seq<nat>, now: real)
    requires Inv(s) && s.b.phase == Closed && now >= s.clock && Outstanding(s, ids)
    requires |ids| > 0 && |ids| + s.b.failures == s.b.threshold
    ensures Enabled(s, Finish(ids[0], Failure, now))
    ensures var t := Next(s, Finish(ids[0], Failure, now));
            && t.b.timeout == s.b.timeout && t.b.threshold == s.b.threshold && t.clock == now
            && if |ids| == 1 then t.b.phase == Open && t.b.openUntil == now + s.b.timeout
               else t.b.phase == Closed && t.b.failures == s.b.failures + 1 && Outstanding(t, ids[1..])
  {
    assert forall k :: 0 < k < |ids| ==> ids[k] != ids[0];
  }

  /** Every rejection names a wait in `(0, timeout]`. */
  lemma RejectionBound(s: System, now: real)
    requires Inv(s) && now >= s.clock && Admit(s.b, now).1.Rejected?
    ensures s.b.phase != Closed
    ensures 0.0 < Admit(s.b, now).1.retryAfter <= s.b.timeout
  {}

  // Probe spacing ------------------------------------------------------------------------------

  predicate IsProbe(s: System, step: Step) { step.Ask? && s.b.phase != Closed && step.now >= Gate(s.b) }

  /** The times at which probes were admitted. */
  function ProbeTimes(s: System, steps: seq<Step>): seq<real>
    requires Runs(s, steps)
    decreases |steps|
  {
    if steps == [] then []
    else (if IsProbe(s, steps[0]) then [steps[0].now] else []) + ProbeTimes(Next(s, steps[0]), steps[1..])
  }

  /** The current probe is left neutral while its time is not yet over. A neutral probe after that changes nothing about
      when the next one may go. */
  predicate IgnoredEarly(s: System, step: Step)
    requires Enabled(s, step)
  {
    && step.Finish? && step.verdict == Ignored && s.b.phase == HalfOpen
    && s.tickets[step.ticket].generation == s.b.generation && step.now < Gate(s.b)
  }

  /** The breaker is never closed during the run, and no probe is ignored before its time is over. */
  predicate Stretch(s: System, steps: seq<Step>)
    requires Runs(s, steps)
    decreases |steps|
  {
    && s.b.phase != Closed
    && (steps != [] ==> !IgnoredEarly(s, steps[0]) && Stretch(Next(s, steps[0]), steps[1..]))
  }

  ghost predicate Spaced(times: seq<real>, from: real, gap: real) {
    && (times != [] ==> times[0] >= from)
    && forall i :: 0 <= i < |times| - 1 ==> times[i] + gap <= times[i + 1]
  }

  lemma GateRises(s: System, step: Step)
    requires Inv(s) && Enabled(s, step) && Stretch(s, []) && Next(s, step).b.phase != Closed
    requires !IgnoredEarly(s, step)
    ensures Gate(Next(s, step).b) >= Gate(s.b)
    ensures IsProbe(s, step) ==> Gate(Next(s, step).b) == step.now + s.b.timeout && step.now >= Gate(s.b)
    ensures Next(s, step).b.timeout == s.b.timeout
  {}

  /** Consecutive probes are at least the recovery timeout apart. */
  lemma {:induction false} ProbesSpaced(s: System, steps: seq<Step>)
    requires Inv(s) && Runs(s, steps) && Stretch(s, steps)
    ensures Spaced(ProbeTimes(s, steps), Gate(s.b), s.b.timeout)
    decreases |steps|
  {
    if steps != [] {
      StepKeepsInv(s, steps[0]);
      GateRises(s, steps[0]);
      ProbesSpaced(Next(s, steps[0]), steps[1..]);
    }
  }

  lemma {:induction false} SpacedLength(times: seq<real>, from: real, gap: real)
    requires Spaced(times, from, gap) && times != []
    ensures times[0] + (|times| - 1) as real * gap <= times[|times| - 1]
  {
    var n := |times| - 1;
    if n > 0 {
      SpacedLength(times[..n], from, gap);
      assert times[n - 1] + gap <= times[n];
      assert (n - 1) as real * gap + gap == n as real * gap;
    }
  }

  /** Probe rate: probes that fall into a window of length `window` number at most `floor(window / timeout) + 1`. */
  lemma ProbeRate(s: System, steps: seq<Step>, window: real)
    requires Inv(s) && Runs(s, steps) && Stretch(s, steps)
    requires var times := ProbeTimes(s, steps); times != [] && times[|times| - 1] - times[0] <= window
    ensures |ProbeTimes(s, steps)| <= (window / s.b.timeout).Floor + 1
  {
    hide ProbeTimes, Stretch, Runs;
    var times, gap := ProbeTimes(s, steps), s.b.timeout;
    ProbesSpaced(s, steps);
    SpacedLength(times, Gate(s.b), gap);
    FloorBound(|times| - 1, gap, window);
  }

  lemma FloorBound(n: nat, gap: real, window: real)
    requires gap > 0.0 && n as real * gap <= window
    ensures n <= (window / gap).Floor
  {
    var q := window / gap;
    if q < n as real {
      ScaleLess(q, n as real, gap);
      assert false;
    }
  }

  lemma ScaleLess(a: real, b: real, gap: real)
    requires a < b && gap > 0.0
    ensures a * gap < b * gap
  {}

  /** The condition is exact: wherever a probe is admitted, leaving it neutral before its time is over lets a second one
      in less than the timeout after it. */
  lemma EarlyIgnoredProbes(s: System, begin: real, now: real)
    requires Inv(s) && begin >= s.clock && IsProbe(s, Ask(begin)) && begin <= now < begin + s.b.timeout
    ensures var steps := [Ask(begin), Finish(|s.tickets|, Ignored, now), Ask(now)];
            && Runs(s, steps) && !Stretch(s, steps)
            && ProbeTimes(s, steps) == [begin, now]
            && !Spaced(ProbeTimes(s, steps), Gate(s.b), s.b.timeout)
  {
    var steps := [Ask(begin), Finish(|s.tickets|, Ignored, now), Ask(now)];
    var s1 := Next(s, steps[0]);
    assert s1.tickets[|s.tickets|] == Ticket(s1.b.generation, false);
    var s2 := Next(s1, steps[1]);
    assert IgnoredEarly(s1, steps[1]) && IsProbe(s2, steps[2]);
    assert steps[1..] == [steps[1], steps[2]] && steps[1..][1..] == [steps[2]] && [steps[2]][1..] == [];
    assert Enabled(s, steps[0]) && Enabled(s1, steps[1]) && Enabled(s2, steps[2]);
    var s3 := Next(s2, steps[2]);
    hide Next, Enabled, IsProbe, IgnoredEarly, Inv;
    assert Runs(s3, []) && ProbeTimes(s3, []) == [];
    assert Runs(s2, [steps[2]]) && ProbeTimes(s2, [steps[2]]) == [now];
    assert Runs(s1, steps[1..]) && ProbeTimes(s1, steps[1..]) == [now];
    assert Runs(s, steps) && ProbeTimes(s, steps) == [begin, now];
    assert !Stretch(s1, steps[1..]);
    assert ProbeTimes(s, steps)[0] + s.b.timeout > ProbeTimes(s, steps)[1];
  }
}

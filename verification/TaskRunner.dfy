/**
 The runners that drive the circuit breaker: one per submitted task, each with an admission future
 that its caller waits on. Runners, callers and the breaker interleave freely.
 */
module TaskRunner {
  import opened CircuitBreaker
  import B = Basics
  import P = SseParser
  import R = ResumableStream
  import S = TaskStream

  datatype RetryHint = Absent | No | Yes

  /** How the protected body of a runner ends: a terminal event, a connection error (both with the platform's
      `retryable` hint), some other exception, or cancellation. */
  datatype Outcome =
    | Completed
    | ErrorEvent(retryable: RetryHint)
    | StoppedEvent
    | ConnectionError(retryable: RetryHint)
    | OtherError
    | CancelledRun

  function MarkOf(o: Outcome): Mark {
    match o
    case ErrorEvent(r) => if r == Yes then Failed else Neutral
    case StoppedEvent => Neutral
    case ConnectionError(r) => if r == No then Neutral else Unmarked
    case OtherError => Neutral
    case Completed => Unmarked
    case CancelledRun => Unmarked
  }

  function ExitOf(o: Outcome): Exit {
    match o
    case ConnectionError(_) => Raised
    case OtherError => Raised
    case CancelledRun => Cancelled
    case _ => Returned
  }

  function RunVerdict(o: Outcome): Verdict { VerdictOf(MarkOf(o), ExitOf(o)) }

  /** What counts for the breaker: as a success only a completed task, as a failure an error event that the platform calls
      retryable, or a connection error that it does not call permanent; nothing else. */
  lemma CountsExactly(o: Outcome)
    ensures RunVerdict(o) == Success <==> o == Completed
    ensures RunVerdict(o) == Failure <==> o == ErrorEvent(Yes) || (o.ConnectionError? && o.retryable != No)
  {}

  /** The outcome when the event stream fails before a terminal event. Only transport errors are translated into
      connection errors; an exhausted retry budget surfaces as the raw network or checksum error. */
  function FailedStream(result: R.Result, hint: RetryHint): Outcome {
    match result
    case HttpError(status) =>
      if status == 401 || status == 403 || status < 500 then OtherError else ConnectionError(hint)
    case StreamError(_) => ConnectionError(Absent)
    case Completed => ConnectionError(Absent)
    case _ => OtherError
  }

  /** Exactly these endings of a stream count as failures: a server error that is not called permanent, a stream that made
      no sense, and one that ended without a terminal event. Every other is neutral. */
  lemma FailedStreamCounts(result: R.Result, hint: RetryHint)
    ensures RunVerdict(FailedStream(result, hint)) == Failure <==>
            (result.HttpError? && result.status >= 500 && hint != No) || result.StreamError? || result.Completed?
    ensures RunVerdict(FailedStream(result, hint)) != Failure ==> RunVerdict(FailedStream(result, hint)) == Ignored
  {}

  /** How the first use of the bridge client went: it exists, its credentials were refused, or it could not connect. */
  datatype Connection = Connected | AuthRefused | ConnectFailed

  function TerminalOutcome(e: P.Event, retryable: P.Event -> RetryHint): Outcome {
    if e.payload.kind == B.Some(S.TASK_COMPLETED) then Completed
    else if e.payload.kind == B.Some(S.TASK_STOPPED) then StoppedEvent
    else ErrorEvent(retryable(e))
  }

  /** Each terminal event is its own outcome. */
  lemma TerminalOutcomes(e: P.Event, retryable: P.Event -> RetryHint)
    requires S.Terminal(e)
    ensures var o := TerminalOutcome(e, retryable);
            && (o == Completed <==> e.payload.kind == B.Some(B.Ascii("task.completed")))
            && (o == StoppedEvent <==> e.payload.kind == B.Some(B.Ascii("task.stopped")))
            && (o == ErrorEvent(retryable(e)) <==> e.payload.kind == B.Some(B.Ascii("task.error")))
  {
    S.KindNames();
    assert S.TASK_COMPLETED[5] == 99 && S.TASK_ERROR[5] == 101 && S.TASK_STOPPED[5] == 115;
  }

  /** The outcome of a stream that spent its retry budget. */
  ghost predicate LostStream(o: Outcome) {
    exists result, hint :: R.Retried(result) && o == FailedStream(result, hint)
  }

  /** No request ever gets an answer. */
  ghost predicate Unreachable(net: R.Network) {
    forall n, verb, header :: net(n, verb, header) == R.Refused(R.Retryable)
  }

  lemma UnreachableIsHonest(c: P.Codec, net: R.Network)
    requires Unreachable(net)
    ensures R.ValidLog([]) && R.HonestNetwork(c, [], net)
  {}

  /** The part of a runner between admission and the breaker's verdict: connect, consume the stream, classify. A client that
      cannot connect is a counted failure; a connected client whose stream runs out of attempts is neutral, and against a
      bridge that never answers that is what happens, after ten requests. */
  method RunAdmitted(c: P.Codec, connection: Connection, net: R.Network, header: B.Option<B.Bytes>, given: set<S.Callback>,
                     hint: RetryHint, retryable: P.Event -> RetryHint, ghost log: seq<R.Entry>)
    returns (outcome: Outcome, trace: seq<R.Attempt>)
    requires R.ValidHeader(header) && R.ValidLog(log) && R.HonestNetwork(c, log, net)
    ensures connection != Connected ==> trace == [] && (RunVerdict(outcome) == Failure <==> connection == ConnectFailed)
    ensures connection == Connected ==> 1 <= |trace| <= R.MAX_RETRIES
    ensures connection == Connected ==>
              || outcome == FailedStream(R.Fate(c, R.LastAnswer(net, trace)), hint)
              || exists i :: (
                   && 0 <= i < |R.LogEvents(R.After(log, header))| && S.Terminal(R.LogEvents(R.After(log, header))[i])
                   && outcome == TerminalOutcome(R.LogEvents(R.After(log, header))[i], retryable))
    ensures connection == Connected && Unreachable(net) ==>
              |trace| == R.MAX_RETRIES && LostStream(outcome) && RunVerdict(outcome) == Ignored
  {
    hide R.After, R.ReadCursor, R.ValidLog, R.ValidHeader, R.HonestNetwork, R.LogEvents, R.AttemptOk, R.Attempts;
    hide R.ThoroughNetwork, S.Calls, S.Terminal, P.Parse;
    trace := [];
    match connection
    case AuthRefused => outcome := OtherError;
    case ConnectFailed => outcome := ConnectionError(Absent);
    case Connected =>
      var calls, terminal, result, attempts;
      ghost var seen;
      // a bridge that never answers is an honest one with nothing in its log
      ghost var kept := if Unreachable(net) then [] else log;
      if Unreachable(net) { UnreachableIsHonest(c, net); }
      calls, terminal, result, attempts, seen := S.ConsumeTerminalStream(c, net, header, given, kept);
      trace := attempts;
      NothingToReplay(header);
      if terminal.Some? {
        outcome := if terminal.value.payload.kind == B.Some(S.TASK_COMPLETED) then Completed
                   else if terminal.value.payload.kind == B.Some(S.TASK_STOPPED) then StoppedEvent
                   else ErrorEvent(retryable(terminal.value));
      } else {
        outcome := FailedStream(result, hint);
      }
  }

  lemma NothingToReplay(header: B.Option<B.Bytes>)
    ensures R.LogEvents(R.After([], header)) == []
  {}

  // ---------------------------------------------------------------------------------------------
  // Runners
  // ---------------------------------------------------------------------------------------------

  /** The admission future. */
  datatype Future = Waiting | Granted | Refused | Abandoned

  datatype Stage = Spawned | Running(ticket: nat) | NeverAdmitted | Ended(outcome: Outcome)

  datatype Job = Job(future: Future, settled: nat, stage: Stage)

  /** All runners, the breaker with its attempts, and the metrics that the runners keep. */
  datatype Board = Board(sys: System, jobs: seq<Job>, admitted: nat, completed: nat, failed: nat)

  datatype Action =
    | Spawn
    | Enter(job: nat, now: real)
    | CallerCancel(job: nat)
    | CancelBeforeAdmission(job: nat)
    | End(job: nat, outcome: Outcome, now: real)

  /** Settles a future that is still waiting. Settling twice would be an error of the runner. */
  function Settle(j: Job, future: Future): Job { j.(future := future, settled := j.settled + 1) }

  predicate Possible(b: Board, a: Action) {
    match a
    case Spawn => true
    case Enter(i, now) => i < |b.jobs| && b.jobs[i].stage == Spawned && now >= b.sys.clock
    case CallerCancel(i) => i < |b.jobs|
    case CancelBeforeAdmission(i) => i < |b.jobs| && b.jobs[i].stage == Spawned
    case End(i, _, now) => i < |b.jobs| && b.jobs[i].stage.Running? && now >= b.sys.clock
                           && Enabled(b.sys, Finish(b.jobs[i].stage.ticket, Ignored, now))
  }

  /** The runner passes the breaker: it is rejected, it finds its caller gone, or it is admitted. */
  function Entered(b: Board, j: Job, now: real): Job {
    var answer := Admit(b.sys.b, now).1;
    if answer.Rejected? then (if j.future == Waiting then Settle(j, Refused) else j).(stage := NeverAdmitted)
    else if j.future == Abandoned then j.(stage := NeverAdmitted)
    else Settle(j, Granted).(stage := Running(|b.sys.tickets|))
  }

  function MovedJob(b: Board, a: Action): Job
    requires Possible(b, a) && !a.Spawn?
  {
    var j := b.jobs[a.job];
    match a
    case Enter(_, now) => Entered(b, j, now)
    case CallerCancel(_) => if j.future == Waiting then Settle(j, Abandoned) else j
    case CancelBeforeAdmission(_) => (if j.future == Waiting then Settle(j, Refused) else j).(stage := NeverAdmitted)
    case End(_, outcome, _) => j.(stage := Ended(outcome))
  }

  /** The breaker steps of an action. An attempt admitted for a caller that is gone is given back as neutral. */
  function SystemSteps(b: Board, a: Action): seq<Step>
    requires Possible(b, a)
  {
    match a
    case Enter(i, now) =>
      if Admit(b.sys.b, now).1.Admitted? && b.jobs[i].future == Abandoned
      then [Ask(now), Finish(|b.sys.tickets|, Ignored, now)] else [Ask(now)]
    case End(i, outcome, now) => [Finish(b.jobs[i].stage.ticket, RunVerdict(outcome), now)]
    case _ => []
  }

  lemma StepsRun(b: Board, a: Action)
    requires Possible(b, a)
    ensures Runs(b.sys, SystemSteps(b, a))
  {
    if a.Enter? {
      var s := Next(b.sys, Ask(a.now));
      assert Runs(s, []);
      if |SystemSteps(b, a)| == 2 {
        assert Runs(s, [Finish(|b.sys.tickets|, Ignored, a.now)]);
        assert SystemSteps(b, a)[1..] == [Finish(|b.sys.tickets|, Ignored, a.now)];
      }
    }
  }

  function Act(b: Board, a: Action): Board
    requires Possible(b, a)
  {
    StepsRun(b, a);
    var sys := After(b.sys, SystemSteps(b, a));
    if a.Spawn? then b.(sys := sys, jobs := b.jobs + [Job(Waiting, 0, Spawned)])
    else
      var j := MovedJob(b, a);
      Board(sys,
            b.jobs[a.job := j],
            b.admitted + (if a.Enter? && j.stage.Running? then 1 else 0),
            b.completed + (if a.End? && a.outcome == Completed then 1 else 0),
            b.failed + (if a.End? && a.outcome != Completed && a.outcome != StoppedEvent then 1 else 0))
  }

  // Counting -----------------------------------------------------------------------------------

  function Count(jobs: seq<Job>, p: Job -> bool): nat {
    if jobs == [] then 0 else Count(jobs[..|jobs| - 1], p) + if p(jobs[|jobs| - 1]) then 1 else 0
  }

  lemma {:induction false} CountUpdate(jobs: seq<Job>, i: nat, j: Job, p: Job -> bool)
    requires i < |jobs|
    ensures Count(jobs[i := j], p) + (if p(jobs[i]) then 1 else 0) == Count(jobs, p) + if p(j) then 1 else 0
  {
    var n := |jobs| - 1;
    if i < n {
      CountUpdate(jobs[..n], i, j, p);
      assert jobs[i := j][..n] == jobs[..n][i := j];
    } else {
      assert jobs[i := j][..n] == jobs[..n];
    }
  }

  lemma CountAppend(jobs: seq<Job>, j: Job, p: Job -> bool)
    ensures Count(jobs + [j], p) == Count(jobs, p) + if p(j) then 1 else 0
  {
    assert (jobs + [j])[..|jobs|] == jobs;
  }

  function StillRunning(): Job -> bool { (j: Job) => j.stage.Running? }
  function HasCompleted(): Job -> bool { (j: Job) => j.stage == Ended(Completed) }
  function HasStopped(): Job -> bool { (j: Job) => j.stage == Ended(StoppedEvent) }
  function HasFailed(): Job -> bool {
    (j: Job) => j.stage.Ended? && j.stage.outcome != Completed && j.stage.outcome != StoppedEvent
  }

  /** One future, settled at most once; the bridge is only ever used under a granted one. */
  predicate JobOk(j: Job) {
    && j.settled == (if j.future == Waiting then 0 else 1)
    && (j.stage.Running? || j.stage.Ended? <==> j.future == Granted)
    && (j.future == Refused ==> j.stage == NeverAdmitted)
    && (j.stage == NeverAdmitted ==> j.future != Waiting)
  }

  /** The metrics agree with the jobs, and every admitted task is in exactly one of the four classes. */
  ghost predicate Accounted(b: Board) {
    && b.completed == Count(b.jobs, HasCompleted())
    && b.failed == Count(b.jobs, HasFailed())
    && b.admitted == b.completed + b.failed + Count(b.jobs, HasStopped()) + Count(b.jobs, StillRunning())
  }

  ghost predicate TicketsHeld(b: Board) {
    && (forall i :: 0 <= i < |b.jobs| && b.jobs[i].stage.Running? ==>
          b.jobs[i].stage.ticket < |b.sys.tickets| && !b.sys.tickets[b.jobs[i].stage.ticket].done)
    && (forall i, k :: 0 <= i < k < |b.jobs| && b.jobs[i].stage.Running? && b.jobs[k].stage.Running? ==>
          b.jobs[i].stage.ticket != b.jobs[k].stage.ticket)
  }

  /** No attempt is left open by anyone but a running job: the probe of a caller that is gone is given back. */
  ghost predicate NoneLeaked(b: Board) {
    forall t :: 0 <= t < |b.sys.tickets| && !b.sys.tickets[t].done ==> HeldBy(b, t)
  }

  predicate HeldBy(b: Board, t: nat) {
    exists i :: 0 <= i < |b.jobs| && b.jobs[i].stage == Running(t)
  }

  ghost predicate BoardInv(b: Board) {
    && Inv(b.sys)
    && (forall i :: 0 <= i < |b.jobs| ==> JobOk(b.jobs[i]))
    && TicketsHeld(b)
    && NoneLeaked(b)
    && Accounted(b)
  }

  lemma ActAccounted(b: Board, a: Action)
    requires Possible(b, a) && Accounted(b) && forall i :: 0 <= i < |b.jobs| ==> JobOk(b.jobs[i])
    ensures Accounted(Act(b, a))
  {
    hide After, SystemSteps, Admit;
    var c := Act(b, a);
    if a.Spawn? {
      var j := Job(Waiting, 0, Spawned);
      CountAppend(b.jobs, j, HasCompleted());
      CountAppend(b.jobs, j, HasFailed());
      CountAppend(b.jobs, j, HasStopped());
      CountAppend(b.jobs, j, StillRunning());
    } else {
      var j := MovedJob(b, a);
      assert JobOk(b.jobs[a.job]);
      CountUpdate(b.jobs, a.job, j, HasCompleted());
      CountUpdate(b.jobs, a.job, j, HasFailed());
      CountUpdate(b.jobs, a.job, j, HasStopped());
      CountUpdate(b.jobs, a.job, j, StillRunning());
    }
  }

  lemma ActJobs(b: Board, a: Action)
    requires Possible(b, a) && forall i :: 0 <= i < |b.jobs| ==> JobOk(b.jobs[i])
    ensures forall i :: 0 <= i < |Act(b, a).jobs| ==> JobOk(Act(b, a).jobs[i])
  {
    hide After, SystemSteps, Admit;
    if !a.Spawn? {
      assert JobOk(b.jobs[a.job]);
      assert JobOk(MovedJob(b, a));
    }
  }

  /** What the breaker steps of an action do to the tickets: the ones of other running jobs stay as they are. */
  lemma ActTickets(b: Board, a: Action)
    requires Possible(b, a) && TicketsHeld(b)
    ensures TicketsHeld(Act(b, a))
  {
    hide JobOk, Accounted, Complete;
    StepsRun(b, a);
    AfterFew(b.sys, SystemSteps(b, a));
  }

  lemma ActLeaksNone(b: Board, a: Action)
    requires Possible(b, a) && TicketsHeld(b) && NoneLeaked(b)
    ensures NoneLeaked(Act(b, a))
  {
    hide JobOk, Accounted, Complete, Admit;
    StepsRun(b, a);
    AfterFew(b.sys, SystemSteps(b, a));
    var c := Act(b, a);
    forall t | 0 <= t < |c.sys.tickets| && !c.sys.tickets[t].done ensures HeldBy(c, t) {
      if t < |b.sys.tickets| {
        assert !b.sys.tickets[t].done;
        assert HeldBy(b, t);
        var i :| 0 <= i < |b.jobs| && b.jobs[i].stage == Running(t);
        assert c.jobs[i].stage == Running(t);
      } else {
        assert a.Enter? && c.jobs[a.job].stage == Running(t);
      }
    }
  }

  lemma AfterFew(s: System, steps: seq<Step>)
    requires Runs(s, steps) && |steps| <= 2
    ensures |steps| == 0 ==> After(s, steps) == s
    ensures |steps| == 1 ==> Enabled(s, steps[0]) && After(s, steps) == Next(s, steps[0])
    ensures |steps| == 2 ==> Enabled(s, steps[0]) && Enabled(Next(s, steps[0]), steps[1])
                             && After(s, steps) == Next(Next(s, steps[0]), steps[1])
  {
    hide Next, Enabled;
    if |steps| > 0 {
      var t := Next(s, steps[0]);
      assert After(s, steps) == After(t, steps[1..]);
      if |steps| == 2 {
        assert After(t, steps[1..]) == After(Next(t, steps[1..][0]), steps[1..][1..]);
      }
    }
  }

  /** Admission accounting: every action keeps the books. */
  lemma ActKeepsInv(b: Board, a: Action)
    requires Possible(b, a) && BoardInv(b)
    ensures BoardInv(Act(b, a))
  {
    hide JobOk, Accounted, TicketsHeld, NoneLeaked, MovedJob;
    ActAccounted(b, a);
    ActJobs(b, a);
    ActTickets(b, a);
    ActLeaksNone(b, a);
    StepsRun(b, a);
    Reachable(b.sys, SystemSteps(b, a));
  }

  predicate Plays(b: Board, actions: seq<Action>)
    decreases |actions|
  {
    actions == [] || (Possible(b, actions[0]) && Plays(Act(b, actions[0]), actions[1..]))
  }

  function Played(b: Board, actions: seq<Action>): Board
    requires Plays(b, actions)
    decreases |actions|
  {
    if actions == [] then b else Played(Act(b, actions[0]), actions[1..])
  }

  /** Over every interleaving of spawns, rejections, cancellations and terminals: each admission future is settled at
      most once, no bridge operation runs unadmitted, and the tasks admitted are exactly those completed, failed,
      stopped or still running; rejected ones are in none of these. */
  lemma {:induction false} AdmissionAccounting(b: Board, actions: seq<Action>)
    requires BoardInv(b) && Plays(b, actions)
    ensures BoardInv(Played(b, actions))
    decreases |actions|
  {
    if actions != [] {
      ActKeepsInv(b, actions[0]);
      AdmissionAccounting(Act(b, actions[0]), actions[1..]);
    }
  }

  /** A caller that gives up before its task is admitted is heeded: its runner never starts, in any continuation. */
  lemma {:induction false} CallerHeeded(b: Board, i: nat, actions: seq<Action>)
    requires BoardInv(b) && i < |b.jobs| && b.jobs[i].future == Waiting && b.jobs[i].stage == Spawned
    requires Plays(b, [CallerCancel(i)] + actions)
    ensures var c := Played(b, [CallerCancel(i)] + actions);
            i < |c.jobs| && c.jobs[i].future == Abandoned && !c.jobs[i].stage.Running? && !c.jobs[i].stage.Ended?
  {
    var all := [CallerCancel(i)] + actions;
    assert all[1..] == actions;
    var c := Act(b, CallerCancel(i));
    ActKeepsInv(b, CallerCancel(i));
    assert c.jobs[i].future == Abandoned;
    hide Act, BoardInv;
    AbandonedStays(c, i, actions);
  }

  lemma {:induction false} AbandonedStays(b: Board, i: nat, actions: seq<Action>)
    requires BoardInv(b) && i < |b.jobs| && b.jobs[i].future == Abandoned && Plays(b, actions)
    ensures var c := Played(b, actions);
            i < |c.jobs| && c.jobs[i].future == Abandoned && !c.jobs[i].stage.Running? && !c.jobs[i].stage.Ended?
    decreases |actions|
  {
    assert JobOk(b.jobs[i]);
    if actions != [] {
      ActKeepsInv(b, actions[0]);
      AbandonedStep(b, i, actions[0]);
      hide Act, BoardInv, JobOk;
      AbandonedStays(Act(b, actions[0]), i, actions[1..]);
    }
  }

  lemma AbandonedStep(b: Board, i: nat, a: Action)
    requires BoardInv(b) && i < |b.jobs| && b.jobs[i].future == Abandoned && Possible(b, a)
    ensures i < |Act(b, a).jobs| && Act(b, a).jobs[i].future == Abandoned
  {
    hide After, SystemSteps, Admit, Accounted, TicketsHeld, NoneLeaked, Inv;
    assert JobOk(b.jobs[i]);
  }

  lemma EmptyBoard(failures: nat, timeout: real, clock: real)
    requires failures >= 1 && timeout > 0.0
    ensures BoardInv(Board(System(Initial(failures, timeout), [], [], clock), [], 0, 0, 0))
  {
    InitialInv(failures, timeout, clock);
  }

  /** Every task of the run ends with a stream that spent its retry budget. */
  ghost predicate StreamsLost(actions: seq<Action>) {
    forall i :: 0 <= i < |actions| && actions[i].End? ==> LostStream(actions[i].outcome)
  }

  /** An outage after the client has connected never opens the breaker: a spent retry budget is not translated into a
      connection error, so every such task is neutral. */
  lemma {:induction false} OutageNeverOpens(b: Board, actions: seq<Action>)
    requires Plays(b, actions) && b.sys.b.phase == Closed && StreamsLost(actions)
    ensures Played(b, actions).sys.b == b.sys.b
    decreases |actions|
  {
    if actions != [] {
      var a := actions[0];
      var c := Act(b, a);
      StepsRun(b, a);
      NeutralSteps(b.sys, SystemSteps(b, a));
      assert StreamsLost(actions[1..]);
      OutageNeverOpens(c, actions[1..]);
    }
  }

  lemma {:induction false} NeutralSteps(s: System, steps: seq<Step>)
    requires Runs(s, steps) && s.b.phase == Closed
    requires forall i :: 0 <= i < |steps| && steps[i].Finish? ==> steps[i].verdict == Ignored
    ensures After(s, steps).b == s.b
    decreases |steps|
  {
    if steps != [] {
      NeutralSteps(Next(s, steps[0]), steps[1..]);
    }
  }
}

/**
 Tool-use delivery, de-duplication and execution. The same tool use may be delivered many times (by
 the main stream and by every tool-results stream); a process-local table remembers it until a
 replay margin after its deadline. Times are microseconds of the estimated server clock.
 */
module ToolScheduler {
  import opened Basics

  const REPLAY_MARGIN: int := 300_000_000

  type Key = (string, string)

  datatype Delivery = Delivery(task: string, call: string, tool: string, deadline: Option<int>)

  datatype Phase = Queued | Active | Finished | Dropped

  /** One scheduled execution. The table refers to it by its index, as the source shares one mutable object. */
  datatype Use = Use(key: Key, deadline: int, expiresAt: int, phase: Phase, invocations: nat, result: Option<string>)

  /** A result handed to the bridge. */
  datatype Submission = Submission(use: nat, result: string)

  datatype Table = Table(scheduled: map<Key, nat>, uses: seq<Use>, submissions: seq<Submission>)

  predicate WellIndexed(t: Table) {
    forall k :: k in t.scheduled ==> t.scheduled[k] < |t.uses| && t.uses[t.scheduled[k]].key == k
  }

  function ExpiresAt(deadline: int, now: int): int { Max(deadline, now) + REPLAY_MARGIN }

  /** The table without the uses whose replay margin is over. */
  function Pruned(t: Table, now: int): map<Key, nat>
    requires WellIndexed(t)
  {
    map k | k in t.scheduled && t.uses[t.scheduled[k]].expiresAt > now :: t.scheduled[k]
  }

  function Deliver(t: Table, tools: set<string>, d: Delivery, now: int): Table
    requires WellIndexed(t)
  {
    if d.tool !in tools || d.deadline.None? then t
    else
      var key := (d.task, d.call);
      var live := Pruned(t, now);
      if key in live then
        var result := t.uses[live[key]].result;
        Table(live, t.uses, if result.Some? then t.submissions + [Submission(live[key], result.value)] else t.submissions)
      else
        Table(live[key := |t.uses|],
              t.uses + [Use(key, d.deadline.value, ExpiresAt(d.deadline.value, now), Queued, 0, None)],
              t.submissions)
  }

  /** The table still knows a use of `key` whose replay margin is not over. */
  predicate Remembered(t: Table, key: Key, now: int)
    requires WellIndexed(t)
  {
    key in t.scheduled && t.uses[t.scheduled[key]].expiresAt > now
  }

  /** The delivery added one fresh use to the table `t`, which became `n`; the uses that are still remembered stayed, and no
      others. */
  ghost predicate Scheduled(t: Table, n: Table, d: Delivery, now: int)
    requires WellIndexed(t) && d.deadline.Some?
  {
    var key, i := (d.task, d.call), |t.uses|;
    && |n.uses| == i + 1 && n.uses[..i] == t.uses && n.submissions == t.submissions
    && n.uses[i].key == key && n.uses[i].deadline == d.deadline.value
    && n.uses[i].phase == Queued && n.uses[i].invocations == 0 && n.uses[i].result.None?
    && n.uses[i].expiresAt == 300_000_000 + (if d.deadline.value > now then d.deadline.value else now)
    && key in n.scheduled && n.scheduled[key] == i
    && forall k :: k != key ==>
         && (k in n.scheduled <==> Remembered(t, k, now))
         && (k in n.scheduled ==> n.scheduled[k] == t.scheduled[k])
  }

  /** What a delivery makes of the table `t`, by what was delivered: nothing for a tool that is not registered or without a
      deadline; one fresh use when none is remembered; otherwise the stored result once more, if there is one. */
  ghost predicate Delivered(t: Table, n: Table, tools: set<string>, d: Delivery, now: int)
    requires WellIndexed(t)
  {
    && (d.tool !in tools || d.deadline.None? ==> n == t)
    && (d.tool in tools && d.deadline.Some? ==>
          var key := (d.task, d.call);
          if Remembered(t, key, now) then
            var i := t.scheduled[key];
            && n.uses == t.uses
            && n.submissions == t.submissions
                 + (if t.uses[i].result.Some? then [Submission(i, t.uses[i].result.value)] else [])
          else Scheduled(t, n, d, now))
  }

  lemma DeliverExactly(t: Table, tools: set<string>, d: Delivery, now: int)
    requires WellIndexed(t)
    ensures Delivered(t, Deliver(t, tools, d, now), tools, d, now)
  {}

  function Update(t: Table, i: nat, u: Use): Table
    requires i < |t.uses|
  {
    t.(uses := t.uses[i := u])
  }

  /** One attempt of the retry loop: the callable runs only with time left. */
  function Attempted(u: Use, now: int): Use {
    if u.deadline - now > 0 then u.(invocations := u.invocations + 1) else u
  }

  class ToolScheduler {
    var tools: set<string>
    var scheduled: map<Key, nat>
    var uses: seq<Use>
    var submissions: seq<Submission>

    ghost function State(): Table
      reads this
    {
      Table(scheduled, uses, submissions)
    }

    ghost predicate Valid()
      reads this
    {
      WellIndexed(State())
    }

    constructor (tools: set<string>)
      ensures Valid() && State() == Table(map[], [], []) && this.tools == tools
    {
      this.tools := tools;
      scheduled, uses, submissions := map[], [], [];
    }

    /** `_prune_scheduled_tool_uses`. */
    method Prune(now: int)
      requires Valid()
      modifies this`scheduled
      ensures Valid() && scheduled == Pruned(old(State()), now)
    {
      var expired := set k | k in scheduled && uses[scheduled[k]].expiresAt <= now;
      var left := expired;
      while left != {}
        invariant left <= expired
        invariant scheduled == map k | k in old(scheduled) && (k !in expired || k in left) :: old(scheduled)[k]
        decreases left
      {
        var key :| key in left;
        scheduled := scheduled - {key};
        left := left - {key};
      }
    }

    /** `_schedule_tool_use`. */
    method ScheduleToolUse(d: Delivery, now: int)
      requires Valid()
      modifies this
      ensures Valid() && tools == old(tools)
      ensures State() == Deliver(old(State()), tools, d, now)
      ensures Delivered(old(State()), State(), tools, d, now)
    {
      hide Delivered;
      DeliverExactly(State(), tools, d, now);
      if d.tool !in tools { return; }
      if d.deadline == None { return; }
      Prune(now);
      var key := (d.task, d.call);
      if key in scheduled {
        var result := uses[scheduled[key]].result;
        if result != None {
          submissions := submissions + [Submission(scheduled[key], result.value)];
        }
        return;
      }
      var base := d.deadline.value;
      if base < now { base := now; }
      uses := uses + [Use(key, d.deadline.value, base + REPLAY_MARGIN, Queued, 0, None)];
      scheduled := scheduled[key := |uses| - 1];
    }

    /** The start of one attempt in `_invoke_registered_tool_with_retry`. */
    method StartAttempt(i: nat, now: int) returns (invoked: bool)
      requires Valid() && i < |uses| && uses[i].phase == Active
      modifies this`uses
      ensures Valid() && State() == Update(old(State()), i, Attempted(old(uses[i]), now))
      ensures invoked <==> now < uses[i].deadline
    {
      var remaining := uses[i].deadline - now;
      if remaining <= 0 { return false; }
      uses := uses[i := uses[i].(invocations := uses[i].invocations + 1)];
      return true;
    }

    /** The end of `_execute_tool_use`: the result is kept for redeliveries and submitted. */
    method FinishUse(i: nat, result: string)
      requires Valid() && i < |uses| && uses[i].phase == Active
      modifies this`uses, this`submissions
      ensures Valid() && State() == Completed(old(State()), i, result)
    {
      uses := uses[i := uses[i].(phase := Finished, result := Some(result))];
      submissions := submissions + [Submission(i, result)];
    }
  }

  function Completed(t: Table, i: nat, result: string): Table
    requires i < |t.uses|
  {
    Update(t, i, t.uses[i].(phase := Finished, result := Some(result))).(submissions := t.submissions + [Submission(i, result)])
  }

  // ---------------------------------------------------------------------------------------------
  // Every interleaving of deliveries and executions
  // ---------------------------------------------------------------------------------------------

  /** A table and the latest clock reading so far. */
  datatype State = State(tools: set<string>, t: Table, latest: int)

  datatype Step =
    | Arrive(d: Delivery, now: int)
    | Acquire(use: nat)
    | Attempt(use: nat, now: int)
    | Complete(use: nat, result: string)
    | Cancel(use: nat)

  predicate HasPhase(s: State, i: nat, phases: set<Phase>) { i < |s.t.uses| && s.t.uses[i].phase in phases }

  /** A step that can happen when the clock never reads more than `slack` below its highest reading, and redeliveries
      never extend the deadline. */
  predicate Enabled(s: State, step: Step, slack: int) {
    match step
    case Arrive(d, now) =>
      && now >= s.latest - slack
      && forall i :: 0 <= i < |s.t.uses| && s.t.uses[i].key == (d.task, d.call) && d.deadline.Some? ==>
           d.deadline.value <= s.t.uses[i].deadline
    case Acquire(i) => HasPhase(s, i, {Queued})
    case Attempt(i, now) => HasPhase(s, i, {Active}) && now >= s.latest - slack
    case Complete(i, _) => HasPhase(s, i, {Active})
    case Cancel(i) => HasPhase(s, i, {Queued, Active})
  }

  function Next(s: State, step: Step, slack: int): State
    requires WellIndexed(s.t) && Enabled(s, step, slack)
  {
    match step
    case Arrive(d, now) => State(s.tools, Deliver(s.t, s.tools, d, now), Max(s.latest, now))
    case Acquire(i) => s.(t := Update(s.t, i, s.t.uses[i].(phase := Active)))
    case Attempt(i, now) => State(s.tools, Update(s.t, i, Attempted(s.t.uses[i], now)), Max(s.latest, now))
    case Complete(i, result) => s.(t := Completed(s.t, i, result))
    case Cancel(i) => s.(t := Update(s.t, i, s.t.uses[i].(phase := Dropped)))
  }

  /** The table still points at use `i`. */
  predicate Listed(t: Table, i: nat)
    requires i < |t.uses|
  {
    t.uses[i].key in t.scheduled && t.scheduled[t.uses[i].key] == i
  }

  predicate UseOk(s: State, i: nat)
    requires i < |s.t.uses|
  {
    var u := s.t.uses[i];
    && u.expiresAt >= u.deadline + REPLAY_MARGIN
    && (!Listed(s.t, i) ==> u.expiresAt <= s.latest)
    && (u.result.Some? <==> u.phase == Finished)
  }

  /** A later use of the same key exists only because the earlier one was forgotten, and it never runs the callable. */
  predicate PairOk(s: State, i: nat, j: nat)
    requires i < j < |s.t.uses|
  {
    s.t.uses[i].key == s.t.uses[j].key ==>
      && !Listed(s.t, i)
      && s.t.uses[j].deadline <= s.t.uses[i].deadline
      && s.t.uses[j].invocations == 0
  }

  ghost predicate Inv(s: State) {
    && WellIndexed(s.t)
    && (forall i :: 0 <= i < |s.t.uses| ==> UseOk(s, i))
    && (forall i, j :: 0 <= i < j < |s.t.uses| ==> PairOk(s, i, j))
    && (forall k :: 0 <= k < |s.t.submissions| ==>
          s.t.submissions[k].use < |s.t.uses| && s.t.uses[s.t.submissions[k].use].result == Some(s.t.submissions[k].result))
  }

  lemma ArriveKeepsInv(s: State, step: Step, slack: int)
    requires Inv(s) && step.Arrive? && Enabled(s, step, slack)
    ensures Inv(Next(s, step, slack))
  {
    var n := Next(s, step, slack);
    forall i | 0 <= i < |n.t.uses| ensures UseOk(n, i) {
      if i < |s.t.uses| { assert UseOk(s, i); }
    }
    forall i, j | 0 <= i < j < |n.t.uses| ensures PairOk(n, i, j) {
      assert UseOk(s, i);
      if j < |s.t.uses| {
        assert PairOk(s, i, j);
      }
    }
  }

  /** A forgotten use is past its deadline by the margin, so a later use of its key finds no time left. */
  lemma UseStepKeepsInv(s: State, step: Step, slack: int)
    requires Inv(s) && !step.Arrive? && Enabled(s, step, slack) && slack <= REPLAY_MARGIN
    ensures Inv(Next(s, step, slack))
  {
    var n := Next(s, step, slack);
    assert n.t.scheduled == s.t.scheduled && |n.t.uses| == |s.t.uses|;
    forall i | 0 <= i < |n.t.uses| ensures UseOk(n, i) { assert UseOk(s, i); }
    forall i, j | 0 <= i < j < |n.t.uses| ensures PairOk(n, i, j) {
      assert PairOk(s, i, j) && UseOk(s, i);
    }
    forall k | 0 <= k < |s.t.submissions|
      ensures n.t.uses[s.t.submissions[k].use].result == Some(s.t.submissions[k].result)
    {
      assert UseOk(s, s.t.submissions[k].use);
    }
  }

  predicate Runs(s: State, steps: seq<Step>, slack: int)
    requires WellIndexed(s.t)
    decreases |steps|
  {
    steps == [] || (
      && Enabled(s, steps[0], slack)
      && WellIndexed(Next(s, steps[0], slack).t)
      && Runs(Next(s, steps[0], slack), steps[1..], slack))
  }

  function After(s: State, steps: seq<Step>, slack: int): State
    requires WellIndexed(s.t) && Runs(s, steps, slack)
    decreases |steps|
  {
    if steps == [] then s else After(Next(s, steps[0], slack), steps[1..], slack)
  }

  lemma {:induction false} Reachable(s: State, steps: seq<Step>, slack: int)
    requires Inv(s) && slack <= REPLAY_MARGIN && Runs(s, steps, slack)
    ensures Inv(After(s, steps, slack))
    decreases |steps|
  {
    if steps != [] {
      if steps[0].Arrive? {
        ArriveKeepsInv(s, steps[0], slack);
      } else {
        UseStepKeepsInv(s, steps[0], slack);
      }
      Reachable(Next(s, steps[0], slack), steps[1..], slack);
    }
  }

  function Start(tools: set<string>, clock: int): State { State(tools, Table(map[], [], []), clock) }

  /** At most once: between two cleanups, in every interleaving, at most one execution of one tool use ever invokes the
      callable, and it is the first one that was scheduled, even when its table entry was pruned while it waited. The
      clock may even run back, by as much as the replay margin. Whatever is submitted for a use is that use's result. */
  lemma AtMostOnce(tools: set<string>, clock: int, steps: seq<Step>, slack: int, i: nat, j: nat)
    requires slack <= REPLAY_MARGIN && Runs(Start(tools, clock), steps, slack)
    requires var uses := After(Start(tools, clock), steps, slack).t.uses;
             i < j < |uses| && uses[i].key == uses[j].key
    ensures After(Start(tools, clock), steps, slack).t.uses[j].invocations == 0
  {
    var s := After(Start(tools, clock), steps, slack);
    Reachable(Start(tools, clock), steps, slack);
    assert PairOk(s, i, j);
  }

  /** The delivery that a use stems from. */
  predicate StemsFrom(tools: set<string>, u: Use, step: Step) {
    && step.Arrive? && step.d.tool in tools
    && u.key == (step.d.task, step.d.call) && step.d.deadline == Some(u.deadline)
  }

  lemma UseStems(s: State, step: Step, slack: int, i: nat)
    requires WellIndexed(s.t) && Enabled(s, step, slack) && i < |Next(s, step, slack).t.uses|
    ensures Next(s, step, slack).tools == s.tools
    ensures var u := Next(s, step, slack).t.uses[i];
            if i < |s.t.uses| then u.key == s.t.uses[i].key && u.deadline == s.t.uses[i].deadline
            else StemsFrom(s.tools, u, step)
  {
    if step.Arrive? {
      DeliverExactly(s.t, s.tools, step.d, step.now);
    }
  }

  /** In every run each use stems from a delivery of a registered tool with a deadline, and has its key and deadline. */
  lemma {:induction false} UsesStemFromDeliveries(s: State, steps: seq<Step>, slack: int, i: nat)
    requires WellIndexed(s.t) && Runs(s, steps, slack) && i < |After(s, steps, slack).t.uses|
    ensures After(s, steps, slack).tools == s.tools
    ensures var u := After(s, steps, slack).t.uses[i];
            || (i < |s.t.uses| && u.key == s.t.uses[i].key && u.deadline == s.t.uses[i].deadline)
            || exists k :: 0 <= k < |steps| && StemsFrom(s.tools, u, steps[k])
    decreases |steps|
  {
    if steps != [] {
      var n := Next(s, steps[0], slack);
      UsesStemFromDeliveries(n, steps[1..], slack, i);
      var u := After(s, steps, slack).t.uses[i];
      assert n.tools == s.tools by { NextTools(s, steps[0], slack); }
      hide Next, Enabled;
      if i < |n.t.uses| {
        UseStems(s, steps[0], slack, i);
        if i >= |s.t.uses| && u.key == n.t.uses[i].key && u.deadline == n.t.uses[i].deadline {
          assert StemsFrom(s.tools, u, steps[0]);
        }
      }
      if exists k :: 0 <= k < |steps[1..]| && StemsFrom(n.tools, u, steps[1..][k]) {
        var k :| 0 <= k < |steps[1..]| && StemsFrom(n.tools, u, steps[1..][k]);
        assert StemsFrom(s.tools, u, steps[k + 1]);
      }
    }
  }

  lemma NextTools(s: State, step: Step, slack: int)
    requires WellIndexed(s.t) && Enabled(s, step, slack)
    ensures Next(s, step, slack).tools == s.tools
  {}

  /** Until its replay margin is over, a redelivery never schedules anything: it submits the stored result once more, or
      does nothing while there is none. */
  lemma RedeliveryOnlyResubmits(s: State, d: Delivery, now: int, i: nat)
    requires Inv(s) && d.tool in s.tools && d.deadline.Some?
    requires i < |s.t.uses| && s.t.uses[i].key == (d.task, d.call)
    requires Max(s.latest, now) < s.t.uses[i].expiresAt
    ensures var t := Deliver(s.t, s.tools, d, now);
            && t.uses == s.t.uses
            && t.submissions == s.t.submissions
                 + (if s.t.uses[i].result.Some? then [Submission(i, s.t.uses[i].result.value)] else [])
  {
    assert UseOk(s, i);
  }

  lemma SubmissionsAreResults(tools: set<string>, clock: int, steps: seq<Step>, slack: int, k: nat, l: nat)
    requires slack <= REPLAY_MARGIN && Runs(Start(tools, clock), steps, slack)
    requires var submitted := After(Start(tools, clock), steps, slack).t.submissions;
             k < |submitted| && l < |submitted| && submitted[k].use == submitted[l].use
    ensures var submitted := After(Start(tools, clock), steps, slack).t.submissions;
            submitted[k].result == submitted[l].result
  {
    Reachable(Start(tools, clock), steps, slack);
  }

  const REDELIVERED: Delivery := Delivery("task", "call", "tool", Some(10))

  /** Schedule and invoke before the deadline; a redelivery one margin after the deadline finds the entry pruned; then
      the clock falls back below the deadline. */
  function TwiceSteps(): seq<Step> {
    [Arrive(REDELIVERED, 0), Acquire(0), Attempt(0, 5), Complete(0, "done"),
     Arrive(REDELIVERED, 10 + REPLAY_MARGIN), Acquire(1), Attempt(1, 9)]
  }

  const FIRST_USE: Use := Use(("task", "call"), 10, 10 + REPLAY_MARGIN, Queued, 0, None)
  const SECOND_USE: Use := Use(("task", "call"), 10, 10 + 2 * REPLAY_MARGIN, Queued, 0, None)

  /** The state before step `i` of `TwiceSteps`. */
  function Twice(i: nat): State {
    var first, second := map[("task", "call") := 0 as nat], map[("task", "call") := 1 as nat];
    var over, done := FIRST_USE.(phase := Finished, invocations := 1, result := Some("done")), [Submission(0, "done")];
    var t := match i
      case 0 => Table(map[], [], [])
      case 1 => Table(first, [FIRST_USE], [])
      case 2 => Table(first, [FIRST_USE.(phase := Active)], [])
      case 3 => Table(first, [FIRST_USE.(phase := Active, invocations := 1)], [])
      case 4 => Table(first, [over], done)
      case 5 => Table(second, [over, SECOND_USE], done)
      case 6 => Table(second, [over, SECOND_USE.(phase := Active)], done)
      case _ => Table(second, [over, SECOND_USE.(phase := Active, invocations := 1)], done);
    State({"tool"}, t, if i < 3 then 0 else if i < 5 then 5 else 10 + REPLAY_MARGIN)
  }

  lemma TwiceStep(i: nat, slack: int)
    requires i < 7 && slack > REPLAY_MARGIN
    ensures var s, step := Twice(i), TwiceSteps()[i];
            WellIndexed(s.t) && Enabled(s, step, slack) && Next(s, step, slack) == Twice(i + 1)
  {}

  lemma TwiceFrom(i: nat, slack: int)
    requires i <= 7 && slack > REPLAY_MARGIN
    ensures var s, steps := Twice(i), TwiceSteps()[i..];
            WellIndexed(s.t) && Runs(s, steps, slack) && After(s, steps, slack) == Twice(7)
    decreases 7 - i
  {
    hide Next, Enabled;
    if i < 7 {
      TwiceStep(i, slack);
      TwiceFrom(i + 1, slack);
      assert TwiceSteps()[i..][1..] == TwiceSteps()[i + 1..];
    }
  }

  /** A run in which the clock falls back by one microsecond more than the margin, and the callable runs twice. */
  lemma RunsTwice(slack: int)
    requires slack > REPLAY_MARGIN
    ensures Runs(Start({"tool"}, 0), TwiceSteps(), slack)
    ensures var uses := After(Start({"tool"}, 0), TwiceSteps(), slack).t.uses;
            |uses| == 2 && uses[0].key == uses[1].key && uses[0].invocations == 1 && uses[1].invocations == 1
  {
    TwiceFrom(0, slack);
    assert TwiceSteps()[0..] == TwiceSteps();
    assert Twice(0) == Start({"tool"}, 0);
    hide Runs, After;
    assert |Twice(7).t.uses| == 2;
  }

  /** Of two executions of one tool use, the later never invokes the callable. */
  predicate LaterIsIdle(uses: seq<Use>) {
    forall i, j :: 0 <= i < j < |uses| && uses[i].key == uses[j].key ==> uses[j].invocations == 0
  }

  /** Every run in which the clock falls back by at most `slack` is at most once. */
  ghost predicate AlwaysAtMostOnce(slack: int) {
    forall tools: set<string>, clock: int, steps: seq<Step> :: Runs(Start(tools, clock), steps, slack) ==>
      LaterIsIdle(After(Start(tools, clock), steps, slack).t.uses)
  }

  /** The margin is exact: a tool use runs at most once in every run exactly while the clock never falls back by more than
      the replay margin. */
  lemma MarginIsExact(slack: int)
    ensures AlwaysAtMostOnce(slack) <==> slack <= REPLAY_MARGIN
  {
    if slack <= REPLAY_MARGIN {
      forall tools: set<string>, clock: int, steps: seq<Step> | Runs(Start(tools, clock), steps, slack)
        ensures LaterIsIdle(After(Start(tools, clock), steps, slack).t.uses)
      {
        var uses := After(Start(tools, clock), steps, slack).t.uses;
        forall i, j | 0 <= i < j < |uses| && uses[i].key == uses[j].key ensures uses[j].invocations == 0 {
          AtMostOnce(tools, clock, steps, slack, i, j);
        }
      }
    } else {
      RunsTwice(slack);
      hide Runs, After;
      assert !LaterIsIdle(After(Start({"tool"}, 0), TwiceSteps(), slack).t.uses);
    }
  }
}

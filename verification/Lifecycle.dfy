/**
 Registration, heartbeat and deregistration of one agent process. Start-up, the heartbeat loop and shutdown are
 tasks that interleave at every await; one step is what a task does between two awaits.
 */
module Lifecycle {
  import opened Basics

  const MAX_FAILURES := 3
  const MAX_AUTH_FAILURES := 2

  /** The hash that identifies one canonical manifest. */
  type Hash = nat

  datatype Publication = Publication(id: nat, hash: Hash)

  /** The manager's bookkeeping; `nextId` stands for the supply of fresh identifiers. */
  datatype Manager = Manager(
    lastRegistered: Option<Hash>, publication: Option<Publication>, registered: bool, startupDone: bool, nextId: nat)

  /** What the process sent to the bridge (and `Acknowledged`: a registration that the bridge answered). */
  datatype Entry = Register(publication: Publication) | Acknowledged(publication: Publication)
                 | Heartbeat(hash: Hash) | Deregister

  function WithPublication(m: Manager, hash: Hash): Manager {
    if m.publication.None? || m.publication.value.hash != hash
    then m.(publication := Some(Publication(m.nextId, hash)), nextId := m.nextId + 1)
    else m
  }

  class LifecycleManager {
    var lastRegistered: Option<Hash>
    var publicationId: Option<nat>
    var publicationHash: Option<Hash>
    var registered: bool
    var startupDone: bool
    var nextId: nat

    ghost predicate Valid()
      reads this
    {
      publicationId.Some? <==> publicationHash.Some?
    }

    ghost function State(): Manager
      requires Valid()
      reads this
    {
      Manager(
        lastRegistered,
        if publicationId.Some? then Some(Publication(publicationId.value, publicationHash.value)) else None,
        registered, startupDone, nextId)
    }

    constructor ()
      ensures Valid() && State() == Manager(None, None, false, false, 0)
    {
      lastRegistered, publicationId, publicationHash := None, None, None;
      registered, startupDone, nextId := false, false, 0;
    }

    /** `_registration_message`, and the flag that is raised before the message is sent. */
    method BeginRegistration(hash: Hash) returns (p: Publication)
      requires Valid()
      modifies this
      ensures Valid() && State() == WithPublication(old(State()), hash).(registered := true)
      ensures State().publication == Some(p) && p.hash == hash
    {
      if publicationHash != Some(hash) || publicationId == None {
        publicationId, publicationHash := Some(nextId), Some(hash);
        nextId := nextId + 1;
      }
      registered := true;
      p := Publication(publicationId.value, hash);
    }

    method AcceptRegistration(p: Publication)
      requires Valid()
      modifies this
      ensures Valid() && State() == old(State()).(lastRegistered := Some(p.hash))
    {
      lastRegistered := Some(p.hash);
    }

    /** `_ensure_manifest_registered`: whether the full manifest goes out before the heartbeat. */
    method NeedsRegistration(hash: Hash, due: bool) returns (needed: bool)
      requires Valid()
      ensures needed <==> NextAwait(State(), hash, due) == RegistrationClient(hash)
    {
      needed := lastRegistered != Some(hash) || due;
    }
  }

  datatype Reply = Accepted | Unauthorized | Broken

  /** Where a task that registers and sends a heartbeat is suspended. */
  datatype Await = RegistrationClient(hash: Hash) | Registration(publication: Publication)
                 | HeartbeatClient(hash: Hash) | HeartbeatReply(hash: Hash)

  datatype Progress = Waiting(at: Await) | Finished | Failed

  datatype Turn = Turn(m: Manager, log: seq<Entry>, next: Progress)

  function NextAwait(m: Manager, hash: Hash, due: bool): Await {
    if m.lastRegistered != Some(hash) || due then RegistrationClient(hash) else HeartbeatClient(hash)
  }

  /** `_send_registration` and `_send_heartbeat_once` from one await to the next. */
  function Resume(m: Manager, log: seq<Entry>, at: Await, reply: Reply): Turn {
    if reply != Accepted then Turn(m, log, Failed)
    else match at
      case RegistrationClient(hash) =>
        var sent := WithPublication(m, hash).(registered := true);
        Turn(sent, log + [Register(sent.publication.value)], Waiting(Registration(sent.publication.value)))
      case Registration(p) =>
        Turn(m.(lastRegistered := Some(p.hash)), log + [Acknowledged(p)], Waiting(HeartbeatClient(p.hash)))
      case HeartbeatClient(hash) => Turn(m, log + [Heartbeat(hash)], Waiting(HeartbeatReply(hash)))
      case HeartbeatReply(_) => Turn(m, log, Finished)
  }

  /** Consecutive failures of each kind, as the heartbeat loop counts them. */
  datatype Misses = Misses(other: nat, auth: nat)

  function Counted(c: Misses, reply: Reply): Misses {
    match reply
    case Accepted => Misses(0, 0)
    case Unauthorized => Misses(0, c.auth + 1)
    case Broken => Misses(c.other + 1, 0)
  }

  predicate TooMany(c: Misses) { c.other >= MAX_FAILURES || c.auth >= MAX_AUTH_FAILURES }

  /** Length of the run of `kind` that ends a history of heartbeat results. */
  function Streak(replies: seq<Reply>, kind: Reply): nat {
    if replies == [] || replies[|replies| - 1] != kind then 0 else 1 + Streak(replies[..|replies| - 1], kind)
  }

  function StreaksOf(replies: seq<Reply>): Misses { Misses(Streak(replies, Broken), Streak(replies, Unauthorized)) }

  lemma CountedIsStreak(replies: seq<Reply>, reply: Reply)
    ensures StreaksOf(replies + [reply]) == Counted(StreaksOf(replies), reply)
  {
    assert (replies + [reply])[..|replies|] == replies;
  }

  /** `_heartbeat_loop` over the results of its beats: it stops at the first moment when the last three failed without
      an auth error, or the last two with one, and at no other. */
  method HeartbeatLoop(replies: seq<Reply>) returns (beats: nat, stopped: bool)
    ensures beats <= |replies| && (stopped || beats == |replies|)
    ensures forall i :: 0 <= i < beats ==> !TooMany(StreaksOf(replies[..i]))
    ensures stopped <==> TooMany(StreaksOf(replies[..beats]))
  {
    var failures, authFailures := 0, 0;
    beats := 0;
    while beats < |replies|
      invariant beats <= |replies|
      invariant StreaksOf(replies[..beats]) == Misses(failures, authFailures)
      invariant forall i :: 0 <= i <= beats ==> !TooMany(StreaksOf(replies[..i]))
    {
      CountedIsStreak(replies[..beats], replies[beats]);
      assert replies[..beats + 1] == replies[..beats] + [replies[beats]];
      var reply := replies[beats];
      beats := beats + 1;
      if reply == Accepted {
        failures, authFailures := 0, 0;
      } else if reply == Unauthorized {
        failures, authFailures := 0, authFailures + 1;
        if authFailures >= MAX_AUTH_FAILURES { return beats, true; }
      } else {
        failures, authFailures := failures + 1, 0;
        if failures >= MAX_FAILURES { return beats, true; }
      }
    }
    stopped := false;
  }

  // ---- the interleaved tasks ----

  /** The holder of the start-up lock. `first`: still in the registration that precedes the first heartbeat. */
  datatype Starter = NoStart | Starting(auto: bool, first: bool, at: Await) | Withdrawing(auto: bool, sent: bool)

  datatype Loop = NoLoop | Sleeping(misses: Misses) | Beating(at: Await, misses: Misses) | Dead

  datatype Closer = NotClosing | Cancelling | Deregistering(sent: bool)

  /** The task of an automatic start-up. */
  datatype Auto = Settled | Pending | Running | FailedStartup

  datatype System = System(
    m: Manager, log: seq<Entry>, manifest: Hash, auto: Auto, starter: Starter, loop: Loop, closer: Closer)

  datatype Step = ChangeTools(hash: Hash) | Start(auto: bool) | StarterTurn(reply: Reply, due: bool) | CancelStart
                | LoopWakes(due: bool) | LoopTurn(reply: Reply) | Close | CloserTurn(reply: Reply)

  /** `overlap` says whether a manual `start()` may be under way while `aclose()` runs. */
  predicate Enabled(s: System, step: Step, overlap: bool) {
    match step
    case ChangeTools(_) => true
    case Start(auto) => s.starter.NoStart? && if auto then s.auto.Pending? else overlap || s.closer.NotClosing?
    case StarterTurn(_, _) => !s.starter.NoStart?
    case CancelStart => !s.starter.NoStart? && !s.starter.auto
    case LoopWakes(_) => s.loop.Sleeping?
    case LoopTurn(_) => s.loop.Beating?
    case Close => s.closer.NotClosing? && (overlap || s.starter.NoStart? || s.starter.auto)
    case CloserTurn(_) => !s.closer.NotClosing?
  }

  function StartFails(s: System): System
    requires !s.starter.NoStart?
  {
    s.(starter := NoStart, auto := if s.starter.auto then FailedStartup else s.auto)
  }

  /** `start` and `_start_lifecycle`. */
  function StarterNext(s: System, reply: Reply, due: bool): System
    requires !s.starter.NoStart?
  {
    match s.starter
    case Starting(auto, first, at) =>
      var t := Resume(s.m, s.log, at, reply);
      var s' := s.(m := t.m, log := t.log);
      (match t.next
       case Waiting(next) =>
         if first && at.Registration?
         then s'.(starter := Starting(auto, false, NextAwait(t.m, at.publication.hash, due)))
         else s'.(starter := Starting(auto, first, next))
       case Finished =>
         s'.(starter := NoStart, m := t.m.(startupDone := true), auto := if auto then Settled else s.auto,
             loop := if s.loop.NoLoop? || s.loop.Dead? then Sleeping(Misses(0, 0)) else s.loop)
       case Failed =>
         if first || !t.m.registered then StartFails(s') else s'.(starter := Withdrawing(auto, false)))
    case Withdrawing(auto, sent) =>
      if !sent && reply == Accepted then s.(log := s.log + [Deregister], starter := Withdrawing(auto, true))
      else StartFails(s.(m := s.m.(registered := false)))
  }

  function LoopNext(s: System, reply: Reply): System
    requires s.loop.Beating?
  {
    var t := Resume(s.m, s.log, s.loop.at, reply);
    var c := s.loop.misses;
    s.(m := t.m, log := t.log,
       loop := match t.next
         case Waiting(next) => Beating(next, c)
         case Finished => Sleeping(Counted(c, Accepted))
         case Failed => if TooMany(Counted(c, reply)) then Dead else Sleeping(Counted(c, reply)))
  }

  /** `aclose` after the start-up task is gone. Awaiting a heartbeat loop that died raises what killed it. */
  function CloserNext(s: System, reply: Reply): System
    requires !s.closer.NotClosing?
  {
    match s.closer
    case Cancelling =>
      if s.loop.Dead? then s.(closer := NotClosing)
      else if s.m.registered then s.(loop := NoLoop, closer := Deregistering(false))
      else s.(loop := NoLoop, m := s.m.(startupDone := false), closer := NotClosing)
    case Deregistering(sent) =>
      if !sent && reply == Accepted then s.(log := s.log + [Deregister], closer := Deregistering(true))
      else s.(m := s.m.(registered := false, startupDone := false), closer := NotClosing)
  }

  function Next(s: System, step: Step, overlap: bool): System
    requires Enabled(s, step, overlap)
  {
    match step
    case ChangeTools(hash) => s.(manifest := hash)
    case Start(auto) =>
      if s.m.startupDone then s.(auto := if auto then Settled else s.auto)
      else s.(starter := Starting(auto, true, RegistrationClient(s.manifest)), auto := if auto then Running else s.auto)
    case StarterTurn(reply, due) => StarterNext(s, reply, due)
    case CancelStart =>
      // the caller of a manual `start()` gives up; whatever was sent or marked stays so
      s.(starter := NoStart)
    case LoopWakes(due) => s.(loop := Beating(NextAwait(s.m, s.manifest, due), s.loop.misses))
    case LoopTurn(reply) => LoopNext(s, reply)
    case Close =>
      // awaiting an automatic start-up that failed raises what it raised
      if s.auto.FailedStartup? then s
      else s.(auto := Settled, closer := Cancelling,
              starter := if !s.starter.NoStart? && s.starter.auto then NoStart else s.starter)
    case CloserTurn(reply) => CloserNext(s, reply)
  }

  function Initial(autoStart: bool, manifest: Hash): System {
    System(Manager(None, None, false, false, 0), [], manifest, if autoStart then Pending else Settled,
           NoStart, NoLoop, NotClosing)
  }

  /** `s` can follow `from` by these steps. */
  predicate Run(from: System, steps: seq<Step>, s: System, overlap: bool)
    decreases |steps|
  {
    if steps == [] then s == from
    else Enabled(from, steps[0], overlap) && Run(Next(from, steps[0], overlap), steps[1..], s, overlap)
  }

  // ---- registrations that share an identifier share a manifest ----

  predicate PublicationsAgree(log: seq<Entry>) {
    forall i, j :: 0 <= i < j < |log| && log[i].Register? && log[j].Register? && log[i].publication.id == log[j].publication.id
      ==> log[i].publication.hash == log[j].publication.hash
  }

  function LastPublication(log: seq<Entry>): Option<Publication> {
    if log == [] then None
    else if log[|log| - 1].Register? then Some(log[|log| - 1].publication)
    else LastPublication(log[..|log| - 1])
  }

  /** A registration of the manifest that was registered last repeats its publication id. */
  predicate RepeatsAreStable(log: seq<Entry>) {
    forall i :: 0 <= i < |log| && log[i].Register? && LastPublication(log[..i]).Some?
                && LastPublication(log[..i]).value.hash == log[i].publication.hash
      ==> LastPublication(log[..i]).value == log[i].publication
  }

  lemma StableAppend(m: Manager, log: seq<Entry>, e: Entry)
    requires RepeatsAreStable(log) && (LastPublication(log).Some? ==> LastPublication(log) == m.publication)
    requires e.Register? ==> WithPublication(m, e.publication.hash).publication == Some(e.publication)
    ensures RepeatsAreStable(log + [e])
    ensures LastPublication(log + [e]) == if e.Register? then Some(e.publication) else LastPublication(log)
  {
    assert (log + [e])[..|log|] == log;
    forall i | 0 <= i < |log + [e]| && (log + [e])[i].Register? && LastPublication((log + [e])[..i]).Some?
               && LastPublication((log + [e])[..i]).value.hash == (log + [e])[i].publication.hash
      ensures LastPublication((log + [e])[..i]).value == (log + [e])[i].publication
    {
      if i < |log| { assert (log + [e])[..i] == log[..i]; }
    }
  }

  predicate PublicationInv(m: Manager, log: seq<Entry>) {
    && PublicationsAgree(log)
    && RepeatsAreStable(log)
    && (LastPublication(log).Some? ==> LastPublication(log) == m.publication)
    && (m.publication.Some? ==> m.publication.value.id < m.nextId)
    && (forall i :: 0 <= i < |log| && log[i].Register? ==>
          && log[i].publication.id < m.nextId
          && m.publication.Some?
          && (log[i].publication.id == m.publication.value.id ==> log[i].publication == m.publication.value))
  }

  lemma RegisterKeepsPublications(m: Manager, log: seq<Entry>, hash: Hash)
    requires PublicationInv(m, log)
    ensures var sent := WithPublication(m, hash).(registered := true);
            PublicationInv(sent, log + [Register(sent.publication.value)])
  {
    StableAppend(m, log, Register(WithPublication(m, hash).publication.value));
    hide RepeatsAreStable, LastPublication;
  }

  lemma OtherKeepsPublications(m: Manager, log: seq<Entry>, e: Entry)
    requires PublicationInv(m, log) && !e.Register?
    ensures PublicationInv(m, log + [e])
  {
    StableAppend(m, log, e);
    hide RepeatsAreStable, LastPublication;
  }

  /** The invariant is about the publication fields only. */
  lemma FieldsKeepPublications(m: Manager, m': Manager, log: seq<Entry>)
    requires PublicationInv(m, log) && m'.publication == m.publication && m'.nextId == m.nextId
    ensures PublicationInv(m', log)
  {}

  lemma ResumeKeepsPublications(m: Manager, log: seq<Entry>, at: Await, reply: Reply)
    requires PublicationInv(m, log)
    ensures PublicationInv(Resume(m, log, at, reply).m, Resume(m, log, at, reply).log)
  {
    hide PublicationInv;
    if reply == Accepted {
      match at
      case RegistrationClient(hash) => RegisterKeepsPublications(m, log, hash);
      case Registration(p) =>
        OtherKeepsPublications(m, log, Acknowledged(p));
        FieldsKeepPublications(m, m.(lastRegistered := Some(p.hash)), log + [Acknowledged(p)]);
      case HeartbeatClient(hash) => OtherKeepsPublications(m, log, Heartbeat(hash));
      case HeartbeatReply(_) =>
    }
  }

  lemma NextKeepsPublications(s: System, step: Step, overlap: bool)
    requires Enabled(s, step, overlap) && PublicationInv(s.m, s.log)
    ensures PublicationInv(Next(s, step, overlap).m, Next(s, step, overlap).log)
  {
    hide PublicationInv;
    var t := Next(s, step, overlap);
    if step.StarterTurn? && s.starter.Starting? {
      var turn := Resume(s.m, s.log, s.starter.at, step.reply);
      ResumeKeepsPublications(s.m, s.log, s.starter.at, step.reply);
      hide Resume;
      FieldsKeepPublications(turn.m, t.m, t.log);
    } else if step.LoopTurn? {
      ResumeKeepsPublications(s.m, s.log, s.loop.at, step.reply);
    } else {
      OtherKeepsPublications(s.m, s.log, Deregister);
      FieldsKeepPublications(s.m, t.m, t.log);
    }
  }

  lemma {:induction false} RunKeepsPublications(from: System, steps: seq<Step>, s: System, overlap: bool)
    requires PublicationInv(from.m, from.log) && Run(from, steps, s, overlap)
    ensures PublicationInv(s.m, s.log)
    decreases |steps|
  {
    hide Next, PublicationInv;
    if steps != [] {
      NextKeepsPublications(from, steps[0], overlap);
      RunKeepsPublications(Next(from, steps[0], overlap), steps[1..], s, overlap);
    }
  }

  /** In every run, even with start-up overlapping shutdown, two registrations with one publication id carry one hash, and
      repeating a registration repeats its id. */
  lemma PublicationsShareHash(autoStart: bool, manifest: Hash, steps: seq<Step>, s: System, overlap: bool)
    requires Run(Initial(autoStart, manifest), steps, s, overlap)
    ensures PublicationsAgree(s.log) && RepeatsAreStable(s.log)
  {
    RunKeepsPublications(Initial(autoStart, manifest), steps, s, overlap);
  }

  // ---- heartbeats are backed ----

  /** Registrations sent since the last deregistration, and the hash of the latest of them that was acknowledged. */
  datatype Backing = Backing(sent: set<Publication>, acknowledged: Option<Hash>)

  function BackingAfter(b: Backing, e: Entry): Backing {
    match e
    case Register(p) => b.(sent := b.sent + {p})
    case Acknowledged(p) => if p in b.sent then b.(acknowledged := Some(p.hash)) else b
    case Heartbeat(_) => b
    case Deregister => Backing({}, None)
  }

  function BackingOf(log: seq<Entry>): Backing {
    if log == [] then Backing({}, None) else BackingAfter(BackingOf(log[..|log| - 1]), log[|log| - 1])
  }

  /** Every heartbeat carries the hash of the latest acknowledged registration sent since the last deregistration. */
  predicate Backed(log: seq<Entry>) {
    forall i :: 0 <= i < |log| && log[i].Heartbeat? ==> BackingOf(log[..i]).acknowledged == Some(log[i].hash)
  }

  lemma BackedAppend(log: seq<Entry>, e: Entry)
    requires Backed(log) && (e.Heartbeat? ==> BackingOf(log).acknowledged == Some(e.hash))
    ensures Backed(log + [e]) && BackingOf(log + [e]) == BackingAfter(BackingOf(log), e)
  {
    assert (log + [e])[..|log|] == log;
    forall i | 0 <= i < |log + [e]| && (log + [e])[i].Heartbeat?
      ensures BackingOf((log + [e])[..i]).acknowledged == Some((log + [e])[i].hash)
    {
      assert (log + [e])[..i] == log[..i];
      if i < |log| {
        assert log[i] == (log + [e])[i];
      } else {
        assert log[..i] == log;
      }
    }
  }

  /** What a task suspended at `at` may rely on. */
  predicate Awaited(at: Await, b: Backing) {
    && (at.Registration? ==> at.publication in b.sent)
    && (at.HeartbeatClient? ==> b.acknowledged == Some(at.hash))
  }

  predicate Known(m: Manager, b: Backing) { b.acknowledged.Some? && b.acknowledged == m.lastRegistered }

  lemma ResumeKeepsBacking(m: Manager, log: seq<Entry>, at: Await, reply: Reply)
    requires Backed(log) && Awaited(at, BackingOf(log))
    ensures var t := Resume(m, log, at, reply);
            && Backed(t.log)
            && t.m.startupDone == m.startupDone
            && (t.next.Waiting? ==> Awaited(t.next.at, BackingOf(t.log)))
            && (at.Registration? && reply == Accepted ==>
                  Known(t.m, BackingOf(t.log)) && t.m.lastRegistered == Some(at.publication.hash))
            && (Known(m, BackingOf(log)) ==> Known(t.m, BackingOf(t.log)))
            && (t.next.Finished? ==> at.HeartbeatReply?)
            && (t.next.Waiting? ==> (t.next.at.Registration? <==> at.RegistrationClient?))
            && (t.next.Waiting? && at.Registration? ==> t.next.at.HeartbeatClient?)
  {
    hide Backed, BackingOf;
    if reply == Accepted {
      match at
      case RegistrationClient(hash) =>
        BackedAppend(log, Register(WithPublication(m, hash).publication.value));
      case Registration(p) =>
        BackedAppend(log, Acknowledged(p));
      case HeartbeatClient(hash) =>
        BackedAppend(log, Heartbeat(hash));
      case HeartbeatReply(_) =>
    }
  }

  predicate BackedInv(s: System) {
    && Backed(s.log)
    && (s.starter.Starting? ==>
          && Awaited(s.starter.at, BackingOf(s.log))
          && (if s.starter.first then s.starter.at.RegistrationClient? || s.starter.at.Registration?
              else Known(s.m, BackingOf(s.log))))
    && (!s.starter.NoStart? ==> s.loop.NoLoop? && !s.m.startupDone && s.closer.NotClosing?)
    && (!s.loop.NoLoop? ==> s.m.startupDone)
    && (s.loop.Sleeping? || s.loop.Beating? ==> Known(s.m, BackingOf(s.log)))
    && (s.loop.Beating? ==> Awaited(s.loop.at, BackingOf(s.log)))
    && (s.closer.Deregistering? ==> s.loop.NoLoop?)
    && (!s.closer.NotClosing? ==> s.auto.Settled?)
  }

  lemma StarterKeepsBacked(s: System, reply: Reply, due: bool)
    requires BackedInv(s) && !s.starter.NoStart?
    ensures BackedInv(StarterNext(s, reply, due))
  {
    if s.starter.Starting? {
      ResumeKeepsBacking(s.m, s.log, s.starter.at, reply);
      hide Resume, Backed, BackingOf;
    } else {
      BackedAppend(s.log, Deregister);
      hide Backed, BackingOf;
    }
  }

  lemma LoopKeepsBacked(s: System, reply: Reply)
    requires BackedInv(s) && s.loop.Beating?
    ensures BackedInv(LoopNext(s, reply))
  {
    ResumeKeepsBacking(s.m, s.log, s.loop.at, reply);
    hide Resume, Backed, BackingOf;
  }

  lemma NextKeepsBacked(s: System, step: Step)
    requires BackedInv(s) && Enabled(s, step, false)
    ensures BackedInv(Next(s, step, false))
  {
    if step.StarterTurn? {
      StarterKeepsBacked(s, step.reply, step.due);
    } else if step.LoopTurn? {
      LoopKeepsBacked(s, step.reply);
    } else {
      BackedAppend(s.log, Deregister);
      hide Backed, BackingOf, StarterNext, LoopNext;
    }
  }

  lemma {:induction false} RunKeepsBacked(from: System, steps: seq<Step>, s: System)
    requires BackedInv(from) && Run(from, steps, s, false)
    ensures BackedInv(s)
    decreases |steps|
  {
    if steps != [] {
      NextKeepsBacked(from, steps[0]);
      RunKeepsBacked(Next(from, steps[0], false), steps[1..], s);
    }
  }

  ghost predicate AllRunsBacked(overlap: bool) {
    forall auto: bool, manifest: Hash, steps: seq<Step>, s: System ::
      Run(Initial(auto, manifest), steps, s, overlap) ==> Backed(s.log)
  }

  /** Heartbeats are backed in every run, restarts and manifest changes included, exactly when no manual `start()` is
      under way during an `aclose()`, which cancels only the automatic start-up. */
  lemma BackedExactly(overlap: bool)
    ensures AllRunsBacked(overlap) <==> !overlap
  {
    if overlap {
      OverlapRun();
    } else {
      forall auto: bool, manifest: Hash, steps: seq<Step>, s: System | Run(Initial(auto, manifest), steps, s, false)
        ensures Backed(s.log)
      {
        RunKeepsBacked(Initial(auto, manifest), steps, s);
      }
    }
  }

  lemma OverlapRun()
    ensures !AllRunsBacked(true)
  {
    // a manual start-up has sent its registration when a shutdown runs to its end
    var steps := [Start(false), StarterTurn(Accepted, false), Close, CloserTurn(Accepted), CloserTurn(Accepted),
                  StarterTurn(Accepted, false), StarterTurn(Accepted, false)];
    var p := Publication(0, 0);
    var log := [Register(p), Deregister, Acknowledged(p), Heartbeat(0)];
    var end := System(
      Manager(Some(0), Some(p), true, false, 1), log, 0, Settled,
      Starting(false, false, HeartbeatReply(0)), NoLoop, Deregistering(true));
    OverlapSteps(steps, p);
    UnbackedLog(p);
    hide Run, Backed;
    assert Run(Initial(false, 0), steps, end, true) && !Backed(end.log);
  }

  lemma UnbackedLog(p: Publication)
    ensures !Backed([Register(p), Deregister, Acknowledged(p), Heartbeat(p.hash)])
  {
    var log := [Register(p), Deregister, Acknowledged(p), Heartbeat(p.hash)];
    assert log[..3] == [Register(p), Deregister] + [Acknowledged(p)];
    assert ([Register(p), Deregister] + [Acknowledged(p)])[..2] == [Register(p)] + [Deregister];
    assert BackingOf([Register(p)] + [Deregister]).sent == {};
    assert log[3].Heartbeat? && BackingOf(log[..3]).acknowledged == None;
  }

  lemma RunStep(from: System, steps: seq<Step>, s: System, next: System, overlap: bool)
    requires steps != [] && Enabled(from, steps[0], overlap) && Next(from, steps[0], overlap) == next
    requires Run(next, steps[1..], s, overlap)
    ensures Run(from, steps, s, overlap)
  {}

  lemma OverlapSteps(steps: seq<Step>, p: Publication)
    requires p == Publication(0, 0)
    requires steps == [Start(false), StarterTurn(Accepted, false), Close, CloserTurn(Accepted), CloserTurn(Accepted),
                       StarterTurn(Accepted, false), StarterTurn(Accepted, false)]
    ensures Run(Initial(false, 0), steps,
                System(Manager(Some(0), Some(p), true, false, 1),
                       [Register(p), Deregister, Acknowledged(p), Heartbeat(0)], 0, Settled,
                       Starting(false, false, HeartbeatReply(0)), NoLoop, Deregistering(true)), true)
  {
    var s0 := Initial(false, 0);
    var s1 := s0.(starter := Starting(false, true, RegistrationClient(0)));
    var s2 := s1.(m := Manager(None, Some(p), true, false, 1), log := [Register(p)],
                  starter := Starting(false, true, Registration(p)));
    var s3 := s2.(closer := Cancelling);
    var s4 := s3.(closer := Deregistering(false));
    var s5 := s4.(log := [Register(p), Deregister], closer := Deregistering(true));
    var s6 := s5.(m := s5.m.(lastRegistered := Some(0)), log := [Register(p), Deregister, Acknowledged(p)],
                  starter := Starting(false, false, HeartbeatClient(0)));
    var s7 := s6.(log := [Register(p), Deregister, Acknowledged(p), Heartbeat(0)],
                  starter := Starting(false, false, HeartbeatReply(0)));
    assert Run(s7, steps[7..], s7, true);
    hide Run;
    RunStep(s6, steps[6..], s7, s7, true);
    RunStep(s5, steps[5..], s7, s6, true);
    RunStep(s4, steps[4..], s7, s5, true);
    RunStep(s3, steps[3..], s7, s4, true);
    RunStep(s2, steps[2..], s7, s3, true);
    RunStep(s1, steps[1..], s7, s2, true);
    RunStep(s0, steps, s7, s1, true);
  }

  // ---- when a shutdown happens ----

  /** The rest of a shutdown, with the same answer to each of its awaits. */
  function Closed(s: System, reply: Reply): System
    decreases match s.closer
              case NotClosing => 0
              case Cancelling => 3
              case Deregistering(sent) => if sent then 1 else 2
  {
    if s.closer.NotClosing? then s else Closed(CloserNext(s, reply), reply)
  }

  /** A shutdown of a registered process gets through exactly when no automatic start-up failed and the heartbeat loop did
      not die; then it deregisters if it reaches the bridge, and leaves no task and no claim to be started. Otherwise it
      raises and sends nothing, and the process stays as registered as it was. */
  lemma ShutdownExactly(s: System, reply: Reply, overlap: bool)
    requires Enabled(s, Close, overlap) && s.m.registered
    ensures var t := Closed(Next(s, Close, overlap), reply);
            && t.closer.NotClosing?
            && (!t.m.registered <==> !s.auto.FailedStartup? && !s.loop.Dead?)
            && if t.m.registered then t.log == s.log && t.m == s.m && t.loop == s.loop
               else && t.log == s.log + (if reply == Accepted then [Deregister] else [])
                    && t.loop.NoLoop? && !t.m.startupDone
  {
    hide Resume, StarterNext, LoopNext;
    var u := Next(s, Close, overlap);
    if !s.auto.FailedStartup? {
      ClosedTurns(u, reply);
    }
  }

  /** From the moment the start-up task is gone: two or three turns, or none. */
  lemma ClosedTurns(u: System, reply: Reply)
    requires u.closer.Cancelling? && u.m.registered
    ensures var t := Closed(u, reply);
            if u.loop.Dead? then t == u.(closer := NotClosing)
            else t == u.(loop := NoLoop, closer := NotClosing, m := u.m.(registered := false, startupDone := false),
                         log := u.log + if reply == Accepted then [Deregister] else [])
  {
    var v := CloserNext(u, reply);
    assert Closed(u, reply) == Closed(v, reply);
    if !u.loop.Dead? {
      var w := CloserNext(v, reply);
      assert Closed(v, reply) == Closed(w, reply);
      if reply == Accepted {
        var x := CloserNext(w, reply);
        assert Closed(w, reply) == Closed(x, reply) == x;
      }
    }
  }

  /** A process that never registered shuts down without a word, unless its automatic start-up failed or its loop died. */
  lemma ShutdownUnregistered(s: System, reply: Reply, overlap: bool)
    requires Enabled(s, Close, overlap) && !s.m.registered
    ensures var t := Closed(Next(s, Close, overlap), reply);
            && t.closer.NotClosing? && t.log == s.log && !t.m.registered
            && (!s.auto.FailedStartup? && !s.loop.Dead? ==> t.loop.NoLoop? && !t.m.startupDone)
  {
    hide Resume, StarterNext, LoopNext;
    var u := Next(s, Close, overlap);
    if !s.auto.FailedStartup? {
      assert Closed(u, reply) == CloserNext(u, reply);
    }
  }

  /** A start-up that its caller cancels takes nothing back, and a process that it registered is deregistered by the next
      shutdown. */
  lemma CancelledStartCloses(s: System, overlap: bool)
    requires Enabled(s, CancelStart, overlap) && s.closer.NotClosing? && !s.auto.FailedStartup? && !s.loop.Dead?
    ensures var t := Next(s, CancelStart, overlap);
            && t == s.(starter := NoStart)
            && (s.m.registered ==> Closed(Next(t, Close, overlap), Accepted).log == s.log + [Deregister])
  {
    var t := Next(s, CancelStart, overlap);
    if s.m.registered { ShutdownExactly(t, Accepted, overlap); }
    hide Closed;
  }

  // ---- what a start-up and a heartbeat do ----

  /** The publication that the current manifest is registered under. */
  function PublicationNow(s: System): Publication { WithPublication(s.m, s.manifest).publication.value }

  /** A start-up with these answers to its awaits, no refresh being due. */
  function Driven(s: System, replies: seq<Reply>): System
    decreases |replies|
  {
    if replies == [] || s.starter.NoStart? then s else Driven(StarterNext(s, replies[0], false), replies[1..])
  }

  lemma DrivenOne(s: System, replies: seq<Reply>, next: System)
    requires replies != [] && !s.starter.NoStart? && StarterNext(s, replies[0], false) == next
    ensures Driven(s, replies) == Driven(next, replies[1..])
  {}

  /** A start-up of a process that is not up: manual, or the automatic one. */
  predicate Startable(s: System, auto: bool, overlap: bool) {
    Enabled(s, Start(auto), overlap) && !s.m.startupDone && s.loop.NoLoop?
  }

  /** A start-up that registered the current manifest and sent its first heartbeat. */
  function FirstBeatSent(s: System, auto: bool): System {
    var p := PublicationNow(s);
    s.(m := WithPublication(s.m, s.manifest).(registered := true, lastRegistered := Some(s.manifest)),
       log := s.log + [Register(p)] + [Acknowledged(p)] + [Heartbeat(s.manifest)],
       starter := Starting(auto, false, HeartbeatReply(s.manifest)), auto := if auto then Running else s.auto)
  }

  lemma FirstTurns(s: System, auto: bool, overlap: bool, rest: seq<Reply>)
    requires Startable(s, auto, overlap)
    ensures PublicationNow(s).hash == s.manifest
    ensures Driven(Next(s, Start(auto), overlap), [Accepted, Accepted, Accepted] + rest)
         == Driven(FirstBeatSent(s, auto), rest)
  {
    var a, p := Accepted, PublicationNow(s);
    var s1 := Next(s, Start(auto), overlap);
    var s2 := StarterNext(s1, a, false);
    assert s2.starter == Starting(auto, true, Registration(p)) && s2.log == s.log + [Register(p)];
    var s3 := StarterNext(s2, a, false);
    assert s3.starter == Starting(auto, false, HeartbeatClient(s.manifest)) && s3.log == s2.log + [Acknowledged(p)];
    var s4 := StarterNext(s3, a, false);
    assert s4 == FirstBeatSent(s, auto);
    hide StarterNext, Next, Enabled, WithPublication, Resume, FirstBeatSent;
    DrivenOne(s1, [a, a, a] + rest, s2);
    DrivenOne(s2, [a, a] + rest, s3);
    DrivenOne(s3, [a] + rest, s4);
    assert ([a, a, a] + rest)[1..] == [a, a] + rest && ([a, a] + rest)[1..] == [a] + rest && ([a] + rest)[1..] == rest;
  }

  /** When every await is answered, the current manifest is registered, a heartbeat follows it, and the heartbeat loop runs:
      after an automatic start-up as after a manual one. */
  lemma StartUpSucceeds(s: System, auto: bool, overlap: bool)
    requires Startable(s, auto, overlap)
    ensures var t, p := Driven(Next(s, Start(auto), overlap), [Accepted, Accepted, Accepted, Accepted]), PublicationNow(s);
            && p.hash == s.manifest
            && t.log == s.log + [Register(p)] + [Acknowledged(p)] + [Heartbeat(s.manifest)]
            && t.starter.NoStart? && t.loop == Sleeping(Misses(0, 0)) && t.m.startupDone && t.m.registered
            && t.m.lastRegistered == Some(s.manifest) && t.auto == if auto then Settled else s.auto
  {
    var s4 := FirstBeatSent(s, auto);
    var s5 := StarterNext(s4, Accepted, false);
    FirstTurns(s, auto, overlap, [Accepted]);
    assert [Accepted, Accepted, Accepted] + [Accepted] == [Accepted, Accepted, Accepted, Accepted];
    DrivenOne(s4, [Accepted], s5);
    assert [Accepted][1..] == [];
    hide Next, Driven, WithPublication;
    assert Driven(s4, [Accepted]) == Driven(s5, []);
    EndDriven(s5);
  }

  lemma EndDriven(s: System)
    ensures Driven(s, []) == s
  {}

  /** A start-up that failed leaves no loop and can be tried again; an automatic one is remembered as failed. */
  predicate StartUpFailed(s: System, auto: bool, t: System) {
    && t.starter.NoStart? && t.loop.NoLoop? && !t.m.startupDone
    && t.auto == if auto then FailedStartup else s.auto
  }

  /** Without the bridge client nothing is sent; a registration that fails is not withdrawn. */
  lemma RegistrationFails(s: System, auto: bool, overlap: bool, failure: Reply)
    requires Startable(s, auto, overlap) && failure != Accepted
    ensures var t := Driven(Next(s, Start(auto), overlap), [failure]);
            StartUpFailed(s, auto, t) && t.log == s.log && t.m == s.m
    ensures var t := Driven(Next(s, Start(auto), overlap), [Accepted, failure]);
            StartUpFailed(s, auto, t) && t.log == s.log + [Register(PublicationNow(s))] && t.m.registered
  {
    var s1 := Next(s, Start(auto), overlap);
    var s2 := StarterNext(s1, Accepted, false);
    var u, t := StarterNext(s1, failure, false), StarterNext(s2, failure, false);
    assert StartUpFailed(s, auto, u) && u.log == s.log && u.m == s.m;
    assert StartUpFailed(s, auto, t) && t.log == s.log + [Register(PublicationNow(s))] && t.m.registered;
    hide StarterNext, Next, Enabled, WithPublication, Resume;
    DrivenOne(s1, [failure], u);
    DrivenOne(s1, [Accepted, failure], s2);
    DrivenOne(s2, [failure], t);
    assert [Accepted, failure][1..] == [failure] && [failure][1..] == [];
  }

  /** When the first heartbeat fails, the registration is withdrawn if the bridge can be reached. */
  lemma FirstHeartbeatFails(s: System, auto: bool, overlap: bool, failure: Reply, reply: Reply)
    requires Startable(s, auto, overlap) && failure != Accepted
    ensures var t := Driven(Next(s, Start(auto), overlap), [Accepted, Accepted, Accepted, failure, reply, reply]);
            var p := PublicationNow(s);
            && StartUpFailed(s, auto, t) && !t.m.registered
            && t.log == s.log + [Register(p)] + [Acknowledged(p)] + [Heartbeat(s.manifest)]
                 + if reply == Accepted then [Deregister] else []
  {
    var s4 := FirstBeatSent(s, auto);
    var rest := [failure, reply, reply];
    FirstTurns(s, auto, overlap, rest);
    assert [Accepted, Accepted, Accepted] + rest == [Accepted, Accepted, Accepted, failure, reply, reply];
    var s5 := StarterNext(s4, failure, false);
    assert s5.starter == Withdrawing(auto, false) && s5.log == s4.log;
    var s6 := StarterNext(s5, reply, false);
    assert reply == Accepted ==> s6.starter == Withdrawing(auto, true) && s6.log == s5.log + [Deregister];
    var s7 := if reply == Accepted then StarterNext(s6, reply, false) else s6;
    assert StartUpFailed(s, auto, s7) && !s7.m.registered && s7.log == s6.log;
    hide StarterNext, Next, Enabled, WithPublication, Resume;
    DrivenOne(s4, rest, s5);
    DrivenOne(s5, [reply, reply], s6);
    if reply == Accepted { DrivenOne(s6, [reply], s7); }
    assert rest[1..] == [reply, reply] && [reply, reply][1..] == [reply] && [reply][1..] == [];
  }

  /** A beat of the loop with these answers. */
  function Beaten(s: System, replies: seq<Reply>): System
    decreases |replies|
  {
    if replies == [] || !s.loop.Beating? then s else Beaten(LoopNext(s, replies[0]), replies[1..])
  }

  lemma BeatenOne(s: System, replies: seq<Reply>, next: System)
    requires replies != [] && s.loop.Beating? && LoopNext(s, replies[0]) == next
    ensures Beaten(s, replies) == Beaten(next, replies[1..])
  {}

  /** A beat that is answered carries the manifest of the moment at which the loop woke, after a registration of it when it is
      not the registered one or a refresh is due, and forgets earlier misses. */
  lemma BeatSucceeds(s: System, due: bool, overlap: bool)
    requires s.loop.Sleeping?
    ensures var t, p := Beaten(Next(s, LoopWakes(due), overlap), [Accepted, Accepted, Accepted, Accepted]), PublicationNow(s);
            && p.hash == s.manifest
            && t.log == (if s.m.lastRegistered != Some(s.manifest) || due
                         then s.log + [Register(p)] + [Acknowledged(p)] else s.log) + [Heartbeat(s.manifest)]
            && t.m.lastRegistered == Some(s.manifest) && t.loop == Sleeping(Misses(0, 0)) && t.m.startupDone == s.m.startupDone
  {
    var a, p := Accepted, PublicationNow(s);
    var s1 := Next(s, LoopWakes(due), overlap);
    var known := s.m.lastRegistered == Some(s.manifest) && !due;
    var s2 := if known then s1 else LoopNext(s1, a);
    assert !known ==> s2.loop == Beating(Registration(p), s.loop.misses) && s2.log == s.log + [Register(p)];
    var s3 := if known then s1 else LoopNext(s2, a);
    assert s3.loop == Beating(HeartbeatClient(s.manifest), s.loop.misses);
    assert s3.log == if known then s.log else s2.log + [Acknowledged(p)];
    assert s3.m.lastRegistered == Some(s.manifest) && s3.m.startupDone == s.m.startupDone;
    var s4 := LoopNext(s3, a);
    assert s4.loop == Beating(HeartbeatReply(s.manifest), s.loop.misses) && s4.log == s3.log + [Heartbeat(s.manifest)];
    var s5 := LoopNext(s4, a);
    assert s5.loop == Sleeping(Misses(0, 0)) && s5.log == s4.log && s5.m == s3.m;
    hide LoopNext, Next, Enabled, WithPublication, Resume;
    assert [a, a, a, a][1..] == [a, a, a] && [a, a, a][1..] == [a, a] && [a, a][1..] == [a] && [a][1..] == [];
    if known {
      BeatenOne(s3, [a, a, a, a], s4);
      BeatenOne(s4, [a, a, a], s5);
    } else {
      BeatenOne(s1, [a, a, a, a], s2);
      BeatenOne(s2, [a, a, a], s3);
      BeatenOne(s3, [a, a], s4);
      BeatenOne(s4, [a], s5);
    }
  }

  /** A beat that fails sends nothing more and ends the loop exactly when it is the second rejection in a row as
      unauthorized, or the third failure of another kind in a row. */
  lemma BeatFails(s: System, results: seq<Reply>, failure: Reply)
    requires s.loop.Beating? && s.loop.misses == StreaksOf(results) && failure != Accepted
    ensures var t, all := LoopNext(s, failure), results + [failure];
            && t.log == s.log && t.m == s.m
            && (t.loop.Dead? <==> Streak(all, Unauthorized) >= 2 || Streak(all, Broken) >= 3)
            && (!t.loop.Dead? ==> t.loop == Sleeping(StreaksOf(all)))
  {
    CountedIsStreak(results, failure);
  }

  // ---- a shutdown that never happens ----

  /** Once the heartbeat loop died in a started process, with no start-up or shutdown under way, nothing is ever sent again:
      `aclose` raises before it deregisters, and `start` takes the process for started. */
  lemma {:induction false} DeadLoopFreezes(from: System, steps: seq<Step>, s: System, overlap: bool)
    requires from.loop.Dead? && from.m.startupDone && from.starter.NoStart? && !from.closer.Deregistering?
    requires Run(from, steps, s, overlap)
    ensures s.log == from.log && s.loop.Dead? && s.m == from.m
    decreases |steps|
  {
    if steps != [] {
      hide Resume;
      DeadLoopFreezes(Next(from, steps[0], overlap), steps[1..], s, overlap);
    }
  }

  /** Without an overlap of start-up and shutdown, every dead loop is of that kind. */
  lemma DeadLoopIsFinal(autoStart: bool, manifest: Hash, earlier: seq<Step>, dead: System, later: seq<Step>, s: System)
    requires Run(Initial(autoStart, manifest), earlier, dead, false) && dead.loop.Dead?
    requires Run(dead, later, s, false)
    ensures s.log == dead.log && s.loop.Dead? && s.m == dead.m
  {
    RunKeepsBacked(Initial(autoStart, manifest), earlier, dead);
    DeadLoopFreezes(dead, later, s, false);
  }

  /** Once an automatic start-up failed, no `aclose` gets past it: a loop that a later `start()` created is never stopped
      by one. */
  lemma {:induction false} FailedStartupBlocksClose(from: System, steps: seq<Step>, s: System, overlap: bool)
    requires from.auto.FailedStartup? && from.closer.NotClosing? && Run(from, steps, s, overlap)
    requires from.starter.NoStart? || !from.starter.auto
    ensures s.auto.FailedStartup? && s.closer.NotClosing?
    ensures !from.loop.NoLoop? ==> !s.loop.NoLoop?
    decreases |steps|
  {
    if steps != [] {
      hide Resume;
      FailedStartupBlocksClose(Next(from, steps[0], overlap), steps[1..], s, overlap);
    }
  }

  /** The turns of a start-up that the bridge accepts. */
  function StartedSteps(): seq<Step> {
    [Start(false), StarterTurn(Accepted, false), StarterTurn(Accepted, false), StarterTurn(Accepted, false),
     StarterTurn(Accepted, false)]
  }

  /** A process of manifest 0 that a manual `start()` brought up. */
  function Started(auto: Auto): System {
    var p := Publication(0, 0);
    System(Manager(Some(0), Some(p), true, true, 1), [Register(p), Acknowledged(p), Heartbeat(0)], 0, auto,
           NoStart, Sleeping(Misses(0, 0)), NotClosing)
  }

  /** The state before turn `i` of that start-up. */
  function StartUp(auto: Auto, i: nat): System {
    var p, m := Publication(0, 0), Manager(None, Some(Publication(0, 0)), true, false, 1);
    var s := Initial(false, 0).(auto := auto);
    match i
    case 0 => s
    case 1 => s.(starter := Starting(false, true, RegistrationClient(0)))
    case 2 => s.(m := m, log := [Register(p)], starter := Starting(false, true, Registration(p)))
    case 3 => s.(m := m.(lastRegistered := Some(0)), log := [Register(p), Acknowledged(p)],
                 starter := Starting(false, false, HeartbeatClient(0)))
    case 4 => s.(m := m.(lastRegistered := Some(0)), log := [Register(p), Acknowledged(p), Heartbeat(0)],
                 starter := Starting(false, false, HeartbeatReply(0)))
    case _ => Started(auto)
  }

  lemma StartedTurn(auto: Auto, i: nat)
    requires i < 5
    ensures Enabled(StartUp(auto, i), StartedSteps()[i], false)
    ensures Next(StartUp(auto, i), StartedSteps()[i], false) == StartUp(auto, i + 1)
  {}

  lemma {:induction false} StartedRun(auto: Auto, i: nat, more: seq<Step>, s: System)
    requires i <= 5 && Run(Started(auto), more, s, false)
    ensures Run(StartUp(auto, i), StartedSteps()[i..] + more, s, false)
    decreases 5 - i
  {
    hide Run, Next, Enabled;
    if i == 5 {
      assert StartedSteps()[i..] + more == more;
    } else {
      StartedTurn(auto, i);
      StartedRun(auto, i + 1, more, s);
      var steps := StartedSteps()[i..] + more;
      assert steps[1..] == StartedSteps()[i + 1..] + more;
      RunStep(StartUp(auto, i), steps, s, StartUp(auto, i + 1), false);
    }
  }

  /** Two heartbeats in a row rejected as unauthorized kill the loop. */
  lemma RejectedRun(auto: Auto)
    ensures Run(Started(auto), [LoopWakes(false), LoopTurn(Unauthorized), LoopWakes(false), LoopTurn(Unauthorized)],
                Started(auto).(loop := Dead), false)
  {
    var steps := [LoopWakes(false), LoopTurn(Unauthorized), LoopWakes(false), LoopTurn(Unauthorized)];
    var s0 := Started(auto);
    var s1 := s0.(loop := Beating(HeartbeatClient(0), Misses(0, 0)));
    var s2 := s0.(loop := Sleeping(Misses(0, 1)));
    var s3 := s0.(loop := Beating(HeartbeatClient(0), Misses(0, 1)));
    var s4 := s0.(loop := Dead);
    assert Next(s0, steps[0], false) == s1 && Next(s1, steps[1], false) == s2;
    assert Next(s2, steps[2], false) == s3 && Next(s3, steps[3], false) == s4;
    assert Run(s4, steps[4..], s4, false);
    hide Run, Next;
    RunStep(s3, steps[3..], s4, s4, false);
    RunStep(s2, steps[2..], s4, s3, false);
    RunStep(s1, steps[1..], s4, s2, false);
    RunStep(s0, steps, s4, s1, false);
  }

  /** The dead loop of a registered process is reached, without any overlap. */
  lemma DeadLoopReached()
    ensures exists steps, s :: Run(Initial(false, 0), steps, s, false) && s.loop.Dead? && s.m.registered
  {
    var more := [LoopWakes(false), LoopTurn(Unauthorized), LoopWakes(false), LoopTurn(Unauthorized)];
    var s := Started(Settled).(loop := Dead);
    RejectedRun(Settled);
    StartedRun(Settled, 0, more, s);
    assert StartUp(Settled, 0) == Initial(false, 0);
  }

  /** An automatic start-up that could not reach the bridge, and then a manual one that could. */
  lemma FailedStartupReached()
    ensures exists steps, s :: Run(Initial(true, 0), steps, s, false)
              && s.auto.FailedStartup? && s.closer.NotClosing? && s.starter.NoStart? && s.loop.Sleeping? && s.m.registered
  {
    var s0 := Initial(true, 0);
    var s1 := s0.(auto := Running, starter := Starting(true, true, RegistrationClient(0)));
    var s2 := StartUp(FailedStartup, 0);
    var s := Started(FailedStartup);
    var steps := [Start(true), StarterTurn(Broken, false)] + (StartedSteps()[0..] + []);
    assert Next(s0, steps[0], false) == s1 && Next(s1, steps[1], false) == s2;
    StartedRun(FailedStartup, 0, [], s);
    hide Run, Next;
    assert steps[2..] == StartedSteps()[0..] + [];
    RunStep(s1, steps[1..], s, s2, false);
    RunStep(s0, steps, s, s1, false);
  }
}

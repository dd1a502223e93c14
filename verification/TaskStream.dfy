/**
 The consumer of a task stream: it routes each event to a callback and stops at the first terminal
 event. The stream below it is the resumable one, so the callbacks see the task log itself.
 */
module TaskStream {
  import opened Basics
  import opened SseParser
  import opened ResumableStream

  const CONTENT_DELTA: Bytes := [99, 111, 110, 116, 101, 110, 116, 46, 100, 101, 108, 116, 97]
  const CONTENT_RESET: Bytes := [99, 111, 110, 116, 101, 110, 116, 46, 114, 101, 115, 101, 116]
  const TOOL_USE: Bytes := [116, 111, 111, 108, 46, 117, 115, 101]
  const TASK_COMPLETED: Bytes := [116, 97, 115, 107, 46, 99, 111, 109, 112, 108, 101, 116, 101, 100]
  const TASK_ERROR: Bytes := [116, 97, 115, 107, 46, 101, 114, 114, 111, 114]
  const TASK_STOPPED: Bytes := [116, 97, 115, 107, 46, 115, 116, 111, 112, 112, 101, 100]

  datatype Callback = Delta | Reset | ToolUse

  datatype Call = Call(callback: Callback, event: Event)

  /** The callback an event is for; a terminal event is for none. */
  function CallbackOf(e: Event): Option<Callback> {
    if e.payload.kind == Some(CONTENT_DELTA) then Some(Delta)
    else if e.payload.kind == Some(CONTENT_RESET) then Some(Reset)
    else if e.payload.kind == Some(TOOL_USE) then Some(ToolUse)
    else None
  }

  predicate Terminal(e: Event) {
    e.payload.kind == Some(TASK_COMPLETED) || e.payload.kind == Some(TASK_ERROR) || e.payload.kind == Some(TASK_STOPPED)
  }

  /** The calls that `events` cause when the callbacks in `given` are provided. */
  function Calls(given: set<Callback>, events: seq<Event>): seq<Call> {
    if events == [] then []
    else
      var e := events[|events| - 1];
      Calls(given, events[..|events| - 1]) +
      if CallbackOf(e).Some? && CallbackOf(e).value in given then [Call(CallbackOf(e).value, e)] else []
  }

  /** The name of the events that a callback is for. */
  function KindFor(callback: Callback): Bytes {
    match callback
    case Delta => Ascii("content.delta")
    case Reset => Ascii("content.reset")
    case ToolUse => Ascii("tool.use")
  }

  function OfKind(events: seq<Event>, kind: Bytes): seq<Event> {
    if events == [] then []
    else
      var e := events[|events| - 1];
      OfKind(events[..|events| - 1], kind) + if e.payload.kind == Some(kind) then [e] else []
  }

  /** The events a callback was called with. */
  function CalledWith(calls: seq<Call>, callback: Callback): seq<Event> {
    if calls == [] then []
    else
      var c := calls[|calls| - 1];
      CalledWith(calls[..|calls| - 1], callback) + if c.callback == callback then [c.event] else []
  }

  lemma KindNames()
    ensures CONTENT_DELTA == Ascii("content.delta") && CONTENT_RESET == Ascii("content.reset")
    ensures TOOL_USE == Ascii("tool.use") && TASK_COMPLETED == Ascii("task.completed")
    ensures TASK_ERROR == Ascii("task.error") && TASK_STOPPED == Ascii("task.stopped")
  {}

  lemma EachForOne(e: Event, callback: Callback)
    ensures CallbackOf(e) == Some(callback) <==> e.payload.kind == Some(KindFor(callback))
  {
    KindNames();
    assert CONTENT_DELTA[8] == 100 && CONTENT_RESET[8] == 114 && |TOOL_USE| == 8;
  }

  /** Each callback is called, if it was given, with exactly the events of its own name, in order. */
  lemma {:induction false} CallsByKind(given: set<Callback>, events: seq<Event>, callback: Callback)
    ensures CalledWith(Calls(given, events), callback)
         == if callback in given then OfKind(events, KindFor(callback)) else []
  {
    if events != [] {
      var n := |events| - 1;
      var e := events[n];
      CallsByKind(given, events[..n], callback);
      EachForOne(e, callback);
      var before, called := Calls(given, events[..n]), CallbackOf(e);
      hide CallbackOf, KindFor;
      if called.Some? && called.value in given {
        assert Calls(given, events) == before + [Call(called.value, e)];
        CalledAppend(before, Call(called.value, e), callback);
      } else {
        assert Calls(given, events) == before;
      }
      hide Calls, CalledWith;
    }
  }

  lemma CalledAppend(calls: seq<Call>, call: Call, callback: Callback)
    ensures CalledWith(calls + [call], callback)
         == CalledWith(calls, callback) + if call.callback == callback then [call.event] else []
  {
    assert (calls + [call])[..|calls|] == calls;
  }

  /** The terminal events are the three task endings, and no callback is for them. */
  lemma TerminalKinds(e: Event)
    ensures Terminal(e) <==> e.payload.kind in {Some(Ascii("task.completed")), Some(Ascii("task.error")),
                                                Some(Ascii("task.stopped"))}
    ensures Terminal(e) ==> CallbackOf(e) == None
  {
    KindNames();
    assert TASK_COMPLETED[0] == 116 && TASK_COMPLETED[1] == 97 && TASK_ERROR[1] == 97 && TASK_STOPPED[1] == 97;
    assert CONTENT_DELTA[0] == 99 && CONTENT_RESET[0] == 99 && TOOL_USE[1] == 111;
  }

  /** `_dispatch_stream_event`. */
  method Dispatch(given: set<Callback>, e: Event) returns (calls: seq<Call>, terminal: bool)
    ensures calls == Calls(given, [e]) && terminal == Terminal(e)
  {
    calls, terminal := [], false;
    if e.payload.kind == Some(CONTENT_DELTA) {
      if Delta in given { calls := [Call(Delta, e)]; }
    } else if e.payload.kind == Some(CONTENT_RESET) {
      if Reset in given { calls := [Call(Reset, e)]; }
    } else if e.payload.kind == Some(TOOL_USE) {
      if ToolUse in given { calls := [Call(ToolUse, e)]; }
    } else {
      terminal := Terminal(e);
    }
  }

  lemma CallsSnoc(given: set<Callback>, events: seq<Event>, e: Event)
    ensures Calls(given, events + [e]) == Calls(given, events) + Calls(given, [e])
  {
    assert (events + [e])[..|events|] == events;
  }

  /** The loop of `_consume_terminal_stream`: `seen` events are not terminal, the next one ends the loop. */
  method Route(given: set<Callback>, events: seq<Event>) returns (calls: seq<Call>, terminal: Option<Event>, seen: nat)
    ensures seen <= |events| && calls == Calls(given, events[..seen])
    ensures forall i :: 0 <= i < seen ==> !Terminal(events[i])
    ensures if seen < |events| then terminal == Some(events[seen]) && Terminal(events[seen]) else terminal == None
  {
    calls, terminal, seen := [], None, 0;
    while seen < |events|
      invariant seen <= |events| && calls == Calls(given, events[..seen]) && terminal == None
      invariant forall i :: 0 <= i < seen ==> !Terminal(events[i])
    {
      var made, done := Dispatch(given, events[seen]);
      if done {
        return calls, Some(events[seen]), seen;
      }
      assert events[..seen + 1] == events[..seen] + [events[seen]];
      CallsSnoc(given, events[..seen], events[seen]);
      calls, seen := calls + made, seen + 1;
    }
    assert events[..seen] == events;
  }

  /** `_consume_terminal_stream` over `_stream_request`: the callbacks fire, in log order and once each, exactly for
      the events of the task log after the cursor and before the first terminal one, and that terminal event is the
      result. When the stream fails first, they fired for a beginning of those events. */
  method ConsumeTerminalStream(c: Codec, net: Network, header: Option<Bytes>, given: set<Callback>, ghost log: seq<Entry>)
    returns (calls: seq<Call>, terminal: Option<Event>, result: Result, trace: seq<Attempt>, ghost seen: nat)
    requires ValidHeader(header) && ValidLog(log) && HonestNetwork(c, log, net)
    ensures 1 <= |trace| <= MAX_RETRIES && (Retried(result) ==> |trace| == MAX_RETRIES)
    ensures if terminal.Some? then result == Closed else result == Fate(c, LastAnswer(net, trace))
    ensures seen <= |LogEvents(After(log, header))|
    ensures calls == Calls(given, LogEvents(After(log, header))[..seen])
    ensures forall i :: 0 <= i < seen ==> !Terminal(LogEvents(After(log, header))[i])
    ensures terminal.Some? ==> seen < |LogEvents(After(log, header))|
                               && terminal.value == LogEvents(After(log, header))[seen] && Terminal(terminal.value)
    ensures terminal.None? ==> result != Closed
    ensures ThoroughNetwork(c, log, net) && result == Completed ==> seen == |LogEvents(After(log, header))|
  {
    hide *;
    var stop := (e: Event) => Terminal(e);
    var out;
    out, result, trace := StreamRequest(c, net, Post, header, stop, log);
    FateIsNotClosed(c, LastAnswer(net, trace));
    calls, terminal, seen := Route(given, out);
    ghost var target := LogEvents(After(log, header));
    assert out <= target;
    assert out[..seen] == target[..seen];
    if seen < |out| {
      assert stop(out[seen]);
      assert seen == |out| - 1;
    } else if out != [] {
      assert !stop(out[|out| - 1]);
    }
  }

  lemma FateIsNotClosed(c: Codec, r: Response)
    ensures Fate(c, r) != Closed
  {
    hide Parse;
  }
}

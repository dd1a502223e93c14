/**
 The streaming preview: callbacks write every content event to a live queue and to a replay list, one
 consumer drains the queue while the task runs, and later readers replay the list.
 */
module Preview {

  datatype Item = Delta(text: string) | Reset

  /** What a renderer shows after `items`: deltas append, a reset clears. */
  function Render(items: seq<Item>): seq<Item> {
    if items == [] then []
    else if items[|items| - 1].Reset? then []
    else Render(items[..|items| - 1]) + [items[|items| - 1]]
  }

  lemma RenderNext(items: seq<Item>, item: Item)
    ensures Render(items + [item]) == if item.Reset? then [] else Render(items) + [item]
  {
    assert (items + [item])[..|items|] == items;
  }

  class StreamingBuffers {
    var queue: seq<Item>
    var deltas: seq<Item>
    ghost var put: seq<Item>
    ghost var taken: seq<Item>

    /** Nothing put is lost, and the replay list is the rendering of everything put. */
    ghost predicate Valid()
      reads this
    {
      put == taken + queue && deltas == Render(put)
    }

    constructor ()
      ensures Valid() && put == [] && taken == []
    {
      queue, deltas, put, taken := [], [], [], [];
    }

    method OnDelta(text: string)
      requires Valid()
      modifies this
      ensures Valid() && put == old(put) + [Delta(text)] && taken == old(taken)
    {
      deltas := deltas + [Delta(text)];
      queue := queue + [Delta(text)];
      RenderNext(put, Delta(text));
      put := put + [Delta(text)];
    }

    method OnReset()
      requires Valid()
      modifies this
      ensures Valid() && put == old(put) + [Reset] && taken == old(taken)
    {
      deltas := [];
      queue := queue + [Reset];
      RenderNext(put, Reset);
      put := put + [Reset];
    }

    /** The fast drain of a live consumer: everything queued, in order, once. */
    method Drain() returns (yielded: seq<Item>)
      requires Valid()
      modifies this`queue, this`taken
      ensures Valid() && queue == [] && taken == old(taken) + yielded && yielded == old(queue)
    {
      hide Render;
      yielded := [];
      while queue != []
        invariant |yielded| <= |old(queue)| && taken == old(taken)
        invariant yielded == old(queue)[..|yielded|] && queue == old(queue)[|yielded|..]
        decreases |queue|
      {
        yielded, queue := yielded + [queue[0]], queue[1..];
      }
      taken := taken + yielded;
      assert old(taken) + old(queue) == taken + [];
    }

    /** Replay after the task is done: what a renderer that saw every event would show. */
    method Replay() returns (yielded: seq<Item>)
      requires Valid()
      ensures yielded == Render(put) == Render(yielded)
    {
      yielded := [];
      RenderIdempotent(put);
      for i := 0 to |deltas|
        invariant yielded == deltas[..i]
      {
        yielded := yielded + [deltas[i]];
      }
    }
  }

  lemma {:induction false} RenderIdempotent(items: seq<Item>)
    ensures Render(Render(items)) == Render(items)
  {
    if items != [] {
      var n := |items| - 1;
      RenderIdempotent(items[..n]);
      RenderNext(Render(items[..n]), items[n]);
    }
  }

  // ---------------------------------------------------------------------------------------------
  // The live consumer, the waiting `queue.get` and the task, interleaved
  // ---------------------------------------------------------------------------------------------

  /** The `queue.get` that races against the task: not started, waiting, or holding the item it took. */
  datatype Getter = NoGetter | Pending | Got(item: Item)

  datatype Consumer = Draining | Racing | Returned

  datatype Live = Live(queue: seq<Item>, deltas: seq<Item>, done: bool, consumer: Consumer, getter: Getter,
                       yielded: seq<Item>, put: seq<Item>)

  datatype Step = Put(item: Item) | TaskEnds | GetterRuns | ConsumerRuns

  predicate Enabled(s: Live, step: Step) {
    match step
    case Put(_) => !s.done
    case TaskEnds => !s.done
    case GetterRuns => s.getter == Pending && s.queue != []
    case ConsumerRuns => s.consumer == Draining || (s.consumer == Racing && (s.getter.Got? || s.done))
  }

  function Next(s: Live, step: Step): Live
    requires Enabled(s, step)
  {
    match step
    case Put(item) =>
      s.(queue := s.queue + [item], deltas := if item.Reset? then [] else s.deltas + [item], put := s.put + [item])
    case TaskEnds => s.(done := true)
    case GetterRuns => s.(getter := Got(s.queue[0]), queue := s.queue[1..])
    case ConsumerRuns =>
      if s.consumer == Racing then
        if s.getter.Got? then s.(yielded := s.yielded + [s.getter.item], getter := NoGetter, consumer := Draining)
        else s.(getter := NoGetter, consumer := Draining)
      else if s.queue != [] then s.(yielded := s.yielded + [s.queue[0]], queue := s.queue[1..])
      else if s.done then s.(consumer := Returned)
      else s.(getter := Pending, consumer := Racing)
  }

  function Held(s: Live): seq<Item> { if s.getter.Got? then [s.getter.item] else [] }

  /** Rendering what was yielded, then what is held, then what is queued, is the replay list; and a consumer that has
      returned left nothing behind. */
  ghost predicate Agreement(s: Live) {
    && s.put == s.yielded + Held(s) + s.queue
    && s.deltas == Render(s.put)
    && (s.getter == NoGetter <==> s.consumer != Racing)
    && (s.consumer == Returned ==> s.done && s.queue == [])
  }

  lemma StepKeepsAgreement(s: Live, step: Step)
    requires Agreement(s) && Enabled(s, step)
    ensures Agreement(Next(s, step))
  {
    if step.Put? {
      RenderNext(s.put, step.item);
    }
  }

  predicate Runs(s: Live, steps: seq<Step>)
    decreases |steps|
  {
    steps == [] || (Enabled(s, steps[0]) && Runs(Next(s, steps[0]), steps[1..]))
  }

  function After(s: Live, steps: seq<Step>): Live
    requires Runs(s, steps)
    decreases |steps|
  {
    if steps == [] then s else After(Next(s, steps[0]), steps[1..])
  }

  const BEGIN: Live := Live([], [], false, Draining, NoGetter, [], [])

  lemma {:induction false} Reachable(s: Live, steps: seq<Step>)
    requires Agreement(s) && Runs(s, steps)
    ensures Agreement(After(s, steps))
    decreases |steps|
  {
    if steps != [] {
      StepKeepsAgreement(s, steps[0]);
      Reachable(Next(s, steps[0]), steps[1..]);
    }
  }

  /** Preview agreement: at every point of every interleaving, a renderer of what was yielded followed by what is still
      on its way shows the replay list; and when the single live consumer returns it has yielded every event exactly
      once, in order, whatever the order of the last put, the waiting `get` and the end of the task. */
  lemma PreviewAgreement(steps: seq<Step>)
    requires Runs(BEGIN, steps)
    ensures var s := After(BEGIN, steps);
            && Render(s.yielded + Held(s) + s.queue) == s.deltas
            && s.yielded <= s.put
            && (s.consumer == Returned ==> s.yielded == s.put && Render(s.yielded) == s.deltas)
  {
    Reachable(BEGIN, steps);
  }

  /** How many more steps a consumer takes once the task is done. */
  function ToGo(s: Live): nat {
    if s.consumer == Returned then 0 else |s.queue| + 1 + if s.consumer == Racing then 1 else 0
  }

  /** Once the task is done the consumer can always step until it returns, and nothing can keep it from returning. */
  lemma ConsumerReturns(s: Live, step: Step)
    requires Agreement(s) && s.done && Enabled(s, step)
    ensures ToGo(Next(s, step)) <= ToGo(s)
    ensures step == ConsumerRuns ==> ToGo(Next(s, step)) < ToGo(s)
    ensures ToGo(s) > 0 ==> Enabled(s, ConsumerRuns)
  {}
}

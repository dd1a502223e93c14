/**
 The resumable event stream of one task: a retry loop over a connection that may fail at any byte,
 with a replay cursor and a switch from POST to GET once the bridge has been seen to accept the
 POST. The bridge is a log of events with strictly increasing cursors; what it answers is any
 function of the request, as long as the answer is an honest piece of that log.
 */
module ResumableStream {
  import opened Basics
  import opened SseParser
  import opened SseLayout

  const MAX_RETRIES: nat := 10

  // ---------------------------------------------------------------------------------------------
  // Cursors: `sequence:index`, both positive decimals without leading zeros
  // ---------------------------------------------------------------------------------------------

  datatype Cursor = Cursor(sequence: nat, index: nat)

  predicate Before(a: Cursor, b: Cursor) {
    a.sequence < b.sequence || (a.sequence == b.sequence && a.index < b.index)
  }

  function Decimal(n: nat): (s: Bytes)
    ensures s != []
    ensures forall i :: 0 <= i < |s| ==> 48 <= s[i] <= 57
    ensures n > 0 ==> s[0] != 48
  {
    if n < 10 then [(48 + n) as byte] else Decimal(n / 10) + [(48 + n % 10) as byte]
  }

  function ReadDecimal(s: Bytes): Option<nat> {
    if s == [] then None
    else
      var d := s[|s| - 1];
      if d < 48 || d > 57 then None
      else if |s| == 1 then Some((d - 48) as nat)
      else
        var high := ReadDecimal(s[..|s| - 1]);
        if high.None? then None else Some(10 * high.value + (d - 48) as nat)
  }

  lemma {:induction false} DecimalReads(n: nat)
    ensures ReadDecimal(Decimal(n)) == Some(n)
  {
    if n >= 10 {
      DecimalReads(n / 10);
      var s := Decimal(n);
      assert s[..|s| - 1] == Decimal(n / 10);
    }
  }

  function PrintCursor(c: Cursor): Bytes { Decimal(c.sequence) + [COLON] + Decimal(c.index) }

  function ReadCursor(s: Bytes): Option<Cursor> {
    var n := Find(s, COLON);
    if n == |s| then None
    else
      var a, b := ReadDecimal(s[..n]), ReadDecimal(s[n + 1..]);
      if a.None? || b.None? || s[0] == 48 || s[n + 1] == 48 then None
      else Some(Cursor(a.value, b.value))
  }

  lemma CursorReads(c: Cursor)
    requires c.sequence > 0 && c.index > 0
    ensures ReadCursor(PrintCursor(c)) == Some(c)
  {
    var s, n := PrintCursor(c), |Decimal(c.sequence)|;
    FindIsFirst(s, COLON, n);
    assert s[..n] == Decimal(c.sequence) && s[n + 1..] == Decimal(c.index);
    DecimalReads(c.sequence);
    DecimalReads(c.index);
  }

  // ---------------------------------------------------------------------------------------------
  // The bridge
  // ---------------------------------------------------------------------------------------------

  datatype Entry = Entry(cursor: Cursor, event: Event)

  /** A task log: every event carries its cursor as id, and cursors strictly increase. */
  ghost predicate ValidLog(log: seq<Entry>) {
    && (forall i :: 0 <= i < |log| ==> log[i].cursor.sequence > 0 && log[i].cursor.index > 0)
    && (forall i :: 0 <= i < |log| ==> log[i].event.id == PrintCursor(log[i].cursor))
    && (forall i, j :: 0 <= i < j < |log| ==> Before(log[i].cursor, log[j].cursor))
  }

  function LogEvents(log: seq<Entry>): seq<Event> { seq(|log|, i requires 0 <= i < |log| => log[i].event) }

  /** Replay: everything after the cursor, which is where the bridge resumes. */
  function Skip(log: seq<Entry>, at: Cursor): seq<Entry> {
    if log == [] || Before(at, log[0].cursor) then log else Skip(log[1..], at)
  }

  function After(log: seq<Entry>, header: Option<Bytes>): seq<Entry> {
    if header.None? || ReadCursor(header.value).None? then log else Skip(log, ReadCursor(header.value).value)
  }

  predicate ValidHeader(header: Option<Bytes>) { header.Some? ==> ReadCursor(header.value).Some? }

  /** `sent` is an undamaged piece of the replay, or all of it: frames and heartbeats in any line ending. */
  ghost predicate CleanReplay(c: Codec, replay: seq<Entry>, sent: Bytes, whole: bool) {
    exists ws: seq<Wire>, lines: seq<Line> ::
      && AllPrintable(c, ws) && Texts(lines) == AllLines(ws) && sent == Text(lines)
      && EventsOf(c, ws) <= LogEvents(replay)
      && (whole ==> EventsOf(c, ws) == LogEvents(replay))
  }

  /** `sent` is a piece of the replay with one damaged frame, and anything after it. */
  ghost predicate DamagedReplay(c: Codec, replay: seq<Entry>, sent: Bytes) {
    exists ws: seq<Wire>, lines: seq<Line>, bad: Wire, junk: Bytes ::
      && AllPrintable(c, ws) && WellFormed(bad) && c.crc(bad.kind, Join(bad.data)) != bad.crc
      && Texts(lines) == AllLines(ws) + WireLines(bad) && sent == Text(lines) + junk
      && EventsOf(c, ws) <= LogEvents(replay)
  }

  /** What may arrive for a replay: a clean or a damaged piece of it, cut at any byte. */
  ghost predicate Delivers(c: Codec, replay: seq<Entry>, got: Bytes) {
    exists sent :: got <= sent && (CleanReplay(c, replay, sent, false) || DamagedReplay(c, replay, sent))
  }

  /** Whatever arrives, the parser yields a beginning of the replay, and the only error it can report is a checksum
      mismatch. */
  lemma DeliveredParse(c: Codec, replay: seq<Entry>, got: Bytes)
    requires Delivers(c, replay, got)
    ensures Parse(c, got).events <= LogEvents(replay)
    ensures Parse(c, got).end.Waiting? || Parse(c, got).end.failure.ChecksumMismatch?
  {
    var sent :| got <= sent && (CleanReplay(c, replay, sent, false) || DamagedReplay(c, replay, sent));
    assert sent == got + sent[|got|..];
    PrefixSafety(c, got, sent[|got|..]);
    if CleanReplay(c, replay, sent, false) {
      var ws: seq<Wire>, lines: seq<Line> :|
        && AllPrintable(c, ws) && Texts(lines) == AllLines(ws) && sent == Text(lines)
        && EventsOf(c, ws) <= LogEvents(replay);
      RoundTrip(c, ws, lines);
    } else {
      var ws: seq<Wire>, lines: seq<Line>, bad: Wire, junk: Bytes :|
        && AllPrintable(c, ws) && WellFormed(bad) && c.crc(bad.kind, Join(bad.data)) != bad.crc
        && Texts(lines) == AllLines(ws) + WireLines(bad) && sent == Text(lines) + junk
        && EventsOf(c, ws) <= LogEvents(replay);
      DamagedFrame(c, ws, bad, lines, junk);
    }
  }

  lemma WholeParse(c: Codec, replay: seq<Entry>, got: Bytes)
    requires CleanReplay(c, replay, got, true)
    ensures Parse(c, got).events == LogEvents(replay) && Parse(c, got).end.Waiting?
  {
    var ws: seq<Wire>, lines: seq<Line> :|
      && AllPrintable(c, ws) && Texts(lines) == AllLines(ws) && got == Text(lines)
      && EventsOf(c, ws) == LogEvents(replay);
    RoundTrip(c, ws, lines);
  }

  lemma {:induction false} SkipToEntry(log: seq<Entry>, k: nat)
    requires ValidLog(log) && k < |log|
    ensures Skip(log, log[k].cursor) == log[k + 1..]
    decreases k
  {
    if k == 0 {
      assert log[1..] == [] || Before(log[0].cursor, log[1].cursor);
    } else {
      assert Before(log[0].cursor, log[k].cursor);
      SkipToEntry(log[1..], k - 1);
    }
  }

  lemma {:induction false} SkipIsSuffix(log: seq<Entry>, at: Cursor) returns (k: nat)
    ensures k <= |log| && Skip(log, at) == log[k..]
  {
    if log == [] || Before(at, log[0].cursor) {
      k := 0;
    } else {
      k := SkipIsSuffix(log[1..], at);
      k := k + 1;
    }
  }

  lemma ReplayIsSuffix(log: seq<Entry>, header: Option<Bytes>) returns (k: nat)
    ensures k <= |log| && After(log, header) == log[k..]
  {
    k := 0;
    if header.Some? && ReadCursor(header.value).Some? {
      k := SkipIsSuffix(log, ReadCursor(header.value).value);
    }
  }

  /** The id of an event is the cursor the bridge resumes from: after it come exactly the later events. */
  lemma CursorResumes(log: seq<Entry>, header: Option<Bytes>, n: nat)
    requires ValidLog(log) && n < |After(log, header)|
    ensures var id := LogEvents(After(log, header))[n].id;
            && ValidHeader(Some(id))
            && LogEvents(After(log, Some(id))) == LogEvents(After(log, header))[n + 1..]
  {
    hide ReadCursor, PrintCursor, Find, Skip;
    var k := ReplayIsSuffix(log, header);
    var e := log[k + n];
    CursorReads(e.cursor);
    SkipToEntry(log, k + n);
    LogEventsDrop(log[k..], n + 1);
    assert log[k..][n + 1..] == log[k + n + 1..];
    assert LogEvents(After(log, header))[n].id == PrintCursor(e.cursor);
    assert After(log, Some(PrintCursor(e.cursor))) == log[k + n + 1..];
  }

  lemma LogEventsDrop(log: seq<Entry>, n: nat)
    requires n <= |log|
    ensures LogEvents(log[n..]) == LogEvents(log)[n..]
  {}

  // ---------------------------------------------------------------------------------------------
  // The retry loop
  // ---------------------------------------------------------------------------------------------

  datatype Verb = Post | Get

  /** How a connection fails: one of the errors that are retried, or another one. */
  datatype NetError = Retryable | Fatal

  datatype Ending = Finished | Broken(error: NetError)

  /** The answer to one request. */
  datatype Response = Refused(error: NetError) | Rejected(status: nat) | Opened(chunks: seq<Bytes>, ending: Ending)

  /** Any behaviour of bridge and network: attempt number, method and `Last-Event-ID` to an answer. */
  type Network = (nat, Verb, Option<Bytes>) -> Response

  /** One attempt: what was sent, whether a 2xx was observed, and how many events had been yielded before. */
  datatype Attempt = Attempt(verb: Verb, header: Option<Bytes>, accepted: bool, yielded: nat)

  datatype Result =
    | Completed
    | Closed
    | HttpError(status: nat)
    | StreamError(failure: Failure)
    | UndecodableText
    | Disconnected(error: NetError)
    | Corrupted(id: Bytes)

  /** `_resolve_retry_method`. */
  function ResolveRetryMethod(verb: Verb, established: bool): Verb {
    if established && verb == Post then Get else verb
  }

  /** The cursor a request carries after `out` was yielded. */
  function HeaderAfter(header: Option<Bytes>, out: seq<Event>): Option<Bytes> {
    if out == [] then header else Some(out[|out| - 1].id)
  }

  ghost predicate Honest(c: Codec, log: seq<Entry>, header: Option<Bytes>, r: Response) {
    r.Opened? ==> Delivers(c, After(log, header), Flatten(r.chunks))
  }

  /** The bridge ends a response normally only when it has sent the whole replay. */
  ghost predicate ThoroughNetwork(c: Codec, log: seq<Entry>, net: Network) {
    forall n, verb, header :: ValidHeader(header) && net(n, verb, header).Opened? && net(n, verb, header).ending.Finished? ==>
      CleanReplay(c, After(log, header), Flatten(net(n, verb, header).chunks), true)
  }

  ghost predicate HonestNetwork(c: Codec, log: seq<Entry>, net: Network) {
    forall n, verb, header :: ValidHeader(header) ==> Honest(c, log, header, net(n, verb, header))
  }

  /** How one accepted connection ended. */
  function EndOf(end: End, ending: Ending): Result {
    match end
    case Failed(failure) =>
      if failure.ChecksumMismatch? then Corrupted(failure.id)
      else if failure.BadUtf8? then UndecodableText
      else StreamError(failure)
    case Waiting(_, _) => if ending.Finished? then Completed else Disconnected(ending.error)
  }

  /** The errors the retry loop tries again. */
  predicate Retried(result: Result) { result == Disconnected(Retryable) || result.Corrupted? }

  /** The errors that say the bytes themselves made no sense. */
  predicate Unreadable(result: Result) { result.StreamError? || result.UndecodableText? }

  /** The events the answer carries. */
  function Carries(c: Codec, r: Response): seq<Event> {
    if r.Opened? then Parse(c, Flatten(r.chunks)).events else []
  }

  /** How an answer ends when the caller reads all of it. */
  function Fate(c: Codec, r: Response): Result {
    match r
    case Refused(error) => Disconnected(error)
    case Rejected(status) => HttpError(status)
    case Opened(chunks, ending) => EndOf(Parse(c, Flatten(chunks)).end, ending)
  }

  predicate Accepted(trace: seq<Attempt>) {
    trace != [] && (trace[|trace| - 1].accepted || Accepted(trace[..|trace| - 1]))
  }

  /** What the network answered to the last attempt. */
  function LastAnswer(net: Network, trace: seq<Attempt>): Response
    requires trace != []
  {
    var a := trace[|trace| - 1];
    net(|trace| - 1, a.verb, a.header)
  }

  /** One attempt of a run: the method follows from what was accepted before, the cursor from what was yielded before,
      and there is a next attempt only after an error that is retried. */
  predicate AttemptOk(c: Codec, net: Network, verb: Verb, header: Option<Bytes>, out: seq<Event>,
                      earlier: seq<Attempt>, a: Attempt) {
    && a.verb == ResolveRetryMethod(verb, Accepted(earlier))
    && (if earlier == [] then 0 else earlier[|earlier| - 1].yielded) <= a.yielded <= |out|
    && a.header == HeaderAfter(header, out[..a.yielded])
    && a.accepted == net(|earlier|, a.verb, a.header).Opened?
    && (earlier != [] ==> Retried(Fate(c, LastAnswer(net, earlier))))
  }

  predicate Attempts(c: Codec, net: Network, verb: Verb, header: Option<Bytes>, out: seq<Event>, trace: seq<Attempt>) {
    trace == [] || (
      var n := |trace| - 1;
      && Attempts(c, net, verb, header, out, trace[..n])
      && AttemptOk(c, net, verb, header, out, trace[..n], trace[n])
    )
  }

  lemma {:induction false} AcceptedStays(trace: seq<Attempt>, i: nat)
    requires i < |trace| && trace[i].accepted
    ensures Accepted(trace)
  {
    if i < |trace| - 1 {
      AcceptedStays(trace[..|trace| - 1], i);
    }
  }

  /** Publish once: after an attempt whose 2xx was observed every request is a GET, so the methods are a run of POSTs
      and then a run of GETs, and at most one POST is ever seen to be accepted. */
  lemma {:induction false} PublishOnce(c: Codec, net: Network, header: Option<Bytes>, out: seq<Event>,
                                        trace: seq<Attempt>, i: nat, j: nat)
    requires Attempts(c, net, Post, header, out, trace) && i < j < |trace|
    ensures trace[i].accepted ==> trace[j].verb == Get
    ensures trace[i].verb == Get ==> trace[j].verb == Get
    ensures !(trace[i].verb == Post && trace[i].accepted && trace[j].verb == Post)
    decreases |trace|
  {
    var n := |trace| - 1;
    if j < n {
      PublishOnce(c, net, header, out, trace[..n], i, j);
    } else {
      if trace[i].accepted {
        AcceptedStays(trace[..n], i);
      }
      if trace[i].verb == Get {
        GetMeansAccepted(c, net, header, out, trace[..n], i);
      }
    }
  }

  lemma {:induction false} GetMeansAccepted(c: Codec, net: Network, header: Option<Bytes>, out: seq<Event>,
                                             trace: seq<Attempt>, i: nat)
    requires Attempts(c, net, Post, header, out, trace) && i < |trace| && trace[i].verb == Get
    ensures Accepted(trace)
  {
    var n := |trace| - 1;
    if i < n {
      GetMeansAccepted(c, net, header, out, trace[..n], i);
    }
  }

  // Which answers are tried again, said by the answers themselves ------------------------------

  /** The connection was lost, before the answer or in the middle of it, in a way that is worth another attempt. */
  predicate Cut(r: Response) { r == Refused(Retryable) || (r.Opened? && r.ending == Broken(Retryable)) }

  /** A frame arrived whose checksum does not match. */
  ghost predicate Damaged(c: Codec, replay: seq<Entry>, r: Response) {
    r.Opened? && DamagedReplay(c, replay, Flatten(r.chunks))
  }

  /** The whole replay arrived and the connection ended normally. */
  ghost predicate Whole(c: Codec, replay: seq<Entry>, r: Response) {
    r.Opened? && r.ending == Finished && CleanReplay(c, replay, Flatten(r.chunks), true)
  }

  lemma DamagedParse(c: Codec, replay: seq<Entry>, got: Bytes)
    requires DamagedReplay(c, replay, got)
    ensures Parse(c, got).end.Failed? && Parse(c, got).end.failure.ChecksumMismatch?
  {
    var ws: seq<Wire>, lines: seq<Line>, bad: Wire, junk: Bytes :|
      && AllPrintable(c, ws) && WellFormed(bad) && c.crc(bad.kind, Join(bad.data)) != bad.crc
      && Texts(lines) == AllLines(ws) + WireLines(bad) && got == Text(lines) + junk
      && EventsOf(c, ws) <= LogEvents(replay);
    DamagedFrame(c, ws, bad, lines, junk);
  }

  /** What each kind of answer comes to, and whether it is tried again. */
  lemma AnswerFates(c: Codec, replay: seq<Entry>, r: Response)
    ensures r.Opened? && Delivers(c, replay, Flatten(r.chunks)) && Cut(r) ==> Retried(Fate(c, r))
    ensures r == Refused(Retryable) ==> Retried(Fate(c, r))
    ensures Damaged(c, replay, r) ==> Retried(Fate(c, r))
    ensures r == Refused(Fatal) ==> Fate(c, r) == Disconnected(Fatal) && !Retried(Fate(c, r))
    ensures r.Rejected? ==> Fate(c, r) == HttpError(r.status) && !Retried(Fate(c, r))
    ensures Whole(c, replay, r) ==> Fate(c, r) == Completed && !Retried(Fate(c, r))
                                    && Carries(c, r) == LogEvents(replay)
    ensures r.Opened? && CleanReplay(c, replay, Flatten(r.chunks), true) && r.ending == Broken(Fatal) ==>
              Fate(c, r) == Disconnected(Fatal) && !Retried(Fate(c, r))
  {
    hide Parse, DamagedReplay, CleanReplay, Delivers, LogEvents;
    if r.Opened? {
      var got := Flatten(r.chunks);
      if Delivers(c, replay, got) { DeliveredParse(c, replay, got); }
      if DamagedReplay(c, replay, got) { DamagedParse(c, replay, got); }
      if CleanReplay(c, replay, got, true) { WholeParse(c, replay, got); }
    }
  }

  /** The answer to attempt `i`. */
  function Answer(net: Network, trace: seq<Attempt>, i: nat): Response
    requires i < |trace|
  {
    net(i, trace[i].verb, trace[i].header)
  }

  /** Every attempt but the last ended in an error that is tried again. */
  lemma {:induction false} EarlierRetried(c: Codec, net: Network, verb: Verb, header: Option<Bytes>, out: seq<Event>,
                                          trace: seq<Attempt>, i: nat)
    requires Attempts(c, net, verb, header, out, trace) && i < |trace| - 1
    ensures Retried(Fate(c, Answer(net, trace, i)))
  {
    hide Fate;
    var n := |trace| - 1;
    if i < n - 1 {
      EarlierRetried(c, net, verb, header, out, trace[..n], i);
    } else {
      assert trace[..n][|trace[..n]| - 1] == trace[i];
    }
  }

  lemma {:induction false} AttemptHeader(c: Codec, net: Network, verb: Verb, header: Option<Bytes>, out: seq<Event>,
                                         trace: seq<Attempt>, i: nat)
    requires Attempts(c, net, verb, header, out, trace) && i < |trace|
    ensures trace[i].yielded <= |out| && trace[i].header == HeaderAfter(header, out[..trace[i].yielded])
    ensures trace[i].accepted == Answer(net, trace, i).Opened?
  {
    hide Fate, HeaderAfter;
    if i < |trace| - 1 { AttemptHeader(c, net, verb, header, out, trace[..|trace| - 1], i); }
  }

  /** The switch is exact: request `j` is a GET exactly when an earlier one was answered by a 2xx. */
  lemma {:induction false} MethodsExactly(c: Codec, net: Network, header: Option<Bytes>, out: seq<Event>,
                                          trace: seq<Attempt>, j: nat)
    requires Attempts(c, net, Post, header, out, trace) && j < |trace|
    ensures trace[j].verb == Get <==> exists i :: 0 <= i < j && Answer(net, trace, i).Opened?
  {
    hide Fate, HeaderAfter;
    var n := |trace| - 1;
    if j < n {
      MethodsExactly(c, net, header, out, trace[..n], j);
      assert forall i :: 0 <= i < j ==> Answer(net, trace[..n], i) == Answer(net, trace, i);
    } else {
      AcceptedAnswers(c, net, header, out, trace[..n]);
      assert forall i :: 0 <= i < n ==> Answer(net, trace[..n], i) == Answer(net, trace, i);
    }
  }

  lemma {:induction false} AcceptedAnswers(c: Codec, net: Network, header: Option<Bytes>, out: seq<Event>,
                                           trace: seq<Attempt>)
    requires Attempts(c, net, Post, header, out, trace)
    ensures Accepted(trace) <==> exists i :: 0 <= i < |trace| && Answer(net, trace, i).Opened?
  {
    hide Fate, HeaderAfter;
    if trace != [] {
      var n := |trace| - 1;
      AcceptedAnswers(c, net, header, out, trace[..n]);
      AttemptHeader(c, net, Post, header, out, trace, n);
      assert forall i :: 0 <= i < n ==> Answer(net, trace[..n], i) == Answer(net, trace, i);
    }
  }

  /** Every request resumes somewhere in the log. */
  lemma AttemptResumes(c: Codec, net: Network, verb: Verb, header: Option<Bytes>, out: seq<Event>, trace: seq<Attempt>,
                       i: nat, log: seq<Entry>)
    requires Attempts(c, net, verb, header, out, trace) && i < |trace|
    requires ValidHeader(header) && ValidLog(log) && out <= LogEvents(After(log, header))
    ensures trace[i].yielded <= |out|
    ensures OnTrack(log, LogEvents(After(log, header)), trace[i].header, out[..trace[i].yielded])
  {
    AttemptHeader(c, net, verb, header, out, trace, i);
    hide Attempts, ValidLog, After, ReadCursor, LogEvents;
    var target := LogEvents(After(log, header));
    var k := trace[i].yielded;
    StartsOnTrack(log, header);
    assert out[..k] == target[..k];
    StaysOnTrack(log, header, header, [], target, k);
    assert [] + target[..k] == out[..k];
  }

  /** What the caller has after `out`, and where the next request resumes, when the replay is `target`. */
  ghost predicate OnTrack(log: seq<Entry>, target: seq<Event>, current: Option<Bytes>, out: seq<Event>) {
    ValidHeader(current) && out <= target && LogEvents(After(log, current)) == target[|out|..]
  }

  lemma StaysOnTrack(log: seq<Entry>, header: Option<Bytes>, current: Option<Bytes>, out: seq<Event>,
                     events: seq<Event>, k: nat)
    requires ValidLog(log) && OnTrack(log, LogEvents(After(log, header)), current, out)
    requires events <= LogEvents(After(log, current)) && k <= |events|
    ensures OnTrack(log, LogEvents(After(log, header)), HeaderAfter(current, events[..k]), out + events[..k])
  {
    hide ReadCursor, PrintCursor, ValidLog, After;
    var target := LogEvents(After(log, header));
    PrefixExtends(target, out, events, k);
    if k > 0 {
      CursorResumes(log, header, |out| + k - 1);
      assert (out + events[..k])[|out| + k - 1] == events[k - 1];
    }
  }

  lemma PrefixExtends(target: seq<Event>, out: seq<Event>, events: seq<Event>, k: nat)
    requires out <= target && events <= target[|out|..] && k <= |events|
    ensures |out| + k <= |target| && out + events[..k] == target[..|out| + k]
    ensures target[|out|..][k..] == target[|out| + k..]
  {}

  /** Hands the events of one connection to the caller, until one of them closes the stream. */
  method Deliver(events: seq<Event>, header: Option<Bytes>, stop: Event -> bool)
    returns (taken: nat, current: Option<Bytes>, closed: bool)
    ensures taken <= |events|
    ensures current == HeaderAfter(header, events[..taken])
    ensures forall i :: 0 <= i < taken - 1 ==> !stop(events[i])
    ensures closed <==> taken > 0 && stop(events[taken - 1])
    ensures !closed ==> taken == |events|
  {
    taken, current, closed := 0, header, false;
    while taken < |events| && !closed
      invariant taken <= |events|
      invariant current == HeaderAfter(header, events[..taken])
      invariant forall i :: 0 <= i < taken - 1 ==> !stop(events[i])
      invariant closed <==> taken > 0 && stop(events[taken - 1])
    {
      current := Some(events[taken].id);
      closed := stop(events[taken]);
      taken := taken + 1;
    }
  }

  /** One attempt: send, check the status, parse what arrives, yield it, remember the last id. */
  method Try(c: Codec, r: Response, header: Option<Bytes>, stop: Event -> bool)
    returns (more: seq<Event>, current: Option<Bytes>, result: Result)
    ensures current == HeaderAfter(header, more) && more <= Carries(c, r)
    ensures if more != [] && stop(more[|more| - 1]) then result == Closed
            else more == Carries(c, r) && result == Fate(c, r)
    ensures forall i :: 0 <= i < |more| - 1 ==> !stop(more[i])
  {
    if r.Rejected? {
      return [], header, HttpError(r.status);
    }
    if r.Refused? {
      return [], header, Disconnected(r.error);
    }
    var events, end := ParseSseStream(c, r.chunks);
    var taken, next, closed := Deliver(events, header, stop);
    more, current := events[..taken], next;
    if closed {
      return more, current, Closed;
    }
    match end
    case Failed(failure) =>
      if failure.ChecksumMismatch? {
        result := Corrupted(failure.id);
      } else if failure.BadUtf8? {
        result := UndecodableText;
      } else {
        result := StreamError(failure);
      }
    case Waiting(_, _) =>
      result := if r.ending.Finished? then Completed else Disconnected(r.ending.error);
  }

  /** `_stream_request`, consumed by a caller that closes it after the first event that satisfies `stop`. */
  method StreamRequest(c: Codec, net: Network, verb: Verb, header: Option<Bytes>, stop: Event -> bool,
                       ghost log: seq<Entry>)
    returns (out: seq<Event>, result: Result, trace: seq<Attempt>)
    requires ValidHeader(header)
    ensures 1 <= |trace| <= MAX_RETRIES && Attempts(c, net, verb, header, out, trace)
    ensures if out != [] && stop(out[|out| - 1]) then result == Closed else result == Fate(c, LastAnswer(net, trace))
    ensures forall i :: 0 <= i < |out| - 1 ==> !stop(out[i])
    ensures Retried(result) ==> |trace| == MAX_RETRIES
    // Exact resume: no gap, no duplicate, no reordering.
    ensures ValidLog(log) && HonestNetwork(c, log, net) ==>
              out <= LogEvents(After(log, header)) && !Unreadable(result)
    // What each answer does, by the answer itself.
    ensures !(out != [] && stop(out[|out| - 1])) ==> EndsByAnswer(c, net, result, trace)
    ensures ValidLog(log) && HonestNetwork(c, log, net) && !(out != [] && stop(out[|out| - 1])) ==>
              TriesByAnswer(c, log, net, header, out, result, trace)
    // Nothing is lost at the end either.
    ensures ValidLog(log) && HonestNetwork(c, log, net) && ThoroughNetwork(c, log, net) && result == Completed ==>
              out == LogEvents(After(log, header))
  {
    hide After, ReadCursor, ValidLog, ValidHeader, Parse, HonestNetwork, ThoroughNetwork, OnTrack, LogEvents, Carries, Fate;
    hide Attempts, AttemptOk, Accepted, LastAnswer, ResolveRetryMethod, HeaderAfter, EndsByAnswer, TriesByAnswer, Whole;
    var current := header;
    var established := false;
    out, trace := [], [];
    NoAttempts(c, net, verb, header);
    ghost var good := ValidLog(log) && HonestNetwork(c, log, net);
    ghost var target := LogEvents(After(log, header));
    StartsOnTrack(log, header);
    while true
      invariant |trace| < MAX_RETRIES
      invariant Attempts(c, net, verb, header, out, trace)
      invariant trace != [] ==> Retried(Fate(c, LastAnswer(net, trace)))
      invariant established == Accepted(trace)
      invariant current == HeaderAfter(header, out)
      invariant forall i :: 0 <= i < |out| ==> !stop(out[i])
      invariant good ==> OnTrack(log, target, current, out)
      decreases MAX_RETRIES - |trace|
    {
      var effective := ResolveRetryMethod(verb, established);
      var response := net(|trace|, effective, current);
      ghost var earlier := trace;
      trace := trace + [Attempt(effective, current, response.Opened?, |out|)];
      established := established || response.Opened?;
      var more, next, ended := Try(c, response, current, stop);
      if good {
        AnswerOnTrack(c, log, net, |earlier|, effective, header, current, out, more);
      }
      AttemptAdded(c, net, verb, header, out, earlier, trace[|earlier|], more);
      out, current, result := out + more, next, ended;
      if !Retried(result) || |trace| == MAX_RETRIES {
        if !(out != [] && stop(out[|out| - 1])) {
          RunEnds(c, net, verb, header, out, result, trace);
          if good { RunTries(c, log, net, verb, header, out, result, trace); }
        }
        return;
      }
    }
  }

  /** The answers that are tried again: no answer, a stream cut in a retryable way, a frame with a wrong checksum. */
  predicate TriedAgain(c: Codec, r: Response) {
    || r == Refused(Retryable)
    || (r.Opened? && (
          var end := Parse(c, Flatten(r.chunks)).end;
          if end.Failed? then end.failure.ChecksumMismatch? else r.ending == Broken(Retryable)))
  }

  /** How a run that reads its last answer to the end reports it. */
  predicate ReportedAs(c: Codec, r: Response, result: Result) {
    && (r.Refused? ==> result == Disconnected(r.error))
    && (r.Rejected? ==> result == HttpError(r.status))
    && (r.Opened? ==>
          var end := Parse(c, Flatten(r.chunks)).end;
          && (end.Waiting? && r.ending == Finished ==> result == Completed)
          && (end.Waiting? && r.ending != Finished ==> result == Disconnected(r.ending.error))
          && (end.Failed? && end.failure.ChecksumMismatch? ==> result == Corrupted(end.failure.id))
          && (end == Failed(BadUtf8) ==> result == UndecodableText)
          && (end.Failed? && !end.failure.ChecksumMismatch? && end.failure != BadUtf8 ==> result == StreamError(end.failure)))
  }

  /** The answers decide: there is another attempt after exactly those that are tried again, up to the tenth, and the last
      one is reported as what it is. */
  predicate EndsByAnswer(c: Codec, net: Network, result: Result, trace: seq<Attempt>) {
    && 1 <= |trace| <= 10
    && (forall i :: 0 <= i < |trace| - 1 ==> TriedAgain(c, Answer(net, trace, i)))
    && (TriedAgain(c, Answer(net, trace, |trace| - 1)) ==> |trace| == 10)
    && ReportedAs(c, Answer(net, trace, |trace| - 1), result)
  }

  lemma FateByAnswer(c: Codec, r: Response)
    ensures Retried(Fate(c, r)) <==> TriedAgain(c, r)
    ensures ReportedAs(c, r, Fate(c, r))
  {
    hide Parse;
  }

  /** A cut or a damaged frame is tried again as long as attempts are left; a whole replay ends the run at once, with the
      rest of the log. */
  ghost predicate TriesByAnswer(c: Codec, log: seq<Entry>, net: Network, header: Option<Bytes>, out: seq<Event>,
                                result: Result, trace: seq<Attempt>)
  {
    trace != [] && (
      var last, replay := LastAnswer(net, trace), After(log, trace[|trace| - 1].header);
      && (Cut(last) || Damaged(c, replay, last) ==> |trace| == MAX_RETRIES)
      && (Whole(c, replay, last) ==> result == Completed && out == LogEvents(After(log, header)))
      && (forall i :: 0 <= i < |trace| - 1 ==> !Whole(c, After(log, trace[i].header), Answer(net, trace, i))))
  }

  lemma RunEnds(c: Codec, net: Network, verb: Verb, header: Option<Bytes>, out: seq<Event>, result: Result,
                trace: seq<Attempt>)
    requires 1 <= |trace| <= MAX_RETRIES && Attempts(c, net, verb, header, out, trace)
    requires result == Fate(c, LastAnswer(net, trace)) && (Retried(result) ==> |trace| == MAX_RETRIES)
    ensures EndsByAnswer(c, net, result, trace)
  {
    hide Fate, Retried, Attempts, TriedAgain, ReportedAs;
    FateByAnswer(c, LastAnswer(net, trace));
    forall i | 0 <= i < |trace| - 1 ensures TriedAgain(c, Answer(net, trace, i)) {
      EarlierRetried(c, net, verb, header, out, trace, i);
      FateByAnswer(c, Answer(net, trace, i));
    }
  }

  lemma RunTries(c: Codec, log: seq<Entry>, net: Network, verb: Verb, header: Option<Bytes>, out: seq<Event>,
                 result: Result, trace: seq<Attempt>)
    requires trace != [] && Attempts(c, net, verb, header, out, trace) && result == Fate(c, LastAnswer(net, trace))
    requires ValidHeader(header) && ValidLog(log) && HonestNetwork(c, log, net) && out <= LogEvents(After(log, header))
    requires Retried(result) ==> |trace| == MAX_RETRIES
    requires Whole(c, After(log, trace[|trace| - 1].header), LastAnswer(net, trace)) ==> out == LogEvents(After(log, header))
    ensures TriesByAnswer(c, log, net, header, out, result, trace)
  {
    hide Fate, Whole, Damaged, Retried, ReadCursor, ValidLog, Parse, Attempts, OnTrack, LogEvents, After;
    var n := |trace| - 1;
    AnswerFates(c, After(log, trace[n].header), LastAnswer(net, trace));
    forall i | 0 <= i < n ensures !Whole(c, After(log, trace[i].header), Answer(net, trace, i)) {
      EarlierRetried(c, net, verb, header, out, trace, i);
      AnswerFates(c, After(log, trace[i].header), Answer(net, trace, i));
    }
    AttemptResumes(c, net, verb, header, out, trace, n, log);
    ResumesHonestly(c, net, log, LogEvents(After(log, header)), out[..trace[n].yielded], n, trace[n]);
  }

  lemma ResumesHonestly(c: Codec, net: Network, log: seq<Entry>, target: seq<Event>, out: seq<Event>, n: nat, a: Attempt)
    requires HonestNetwork(c, log, net) && OnTrack(log, target, a.header, out)
    ensures net(n, a.verb, a.header).Opened? ==>
              Delivers(c, After(log, a.header), Flatten(net(n, a.verb, a.header).chunks))
  {
    hide After, Delivers, ValidHeader, LogEvents;
    assert Honest(c, log, a.header, net(n, a.verb, a.header));
  }

  /** An outage that ends: the first `lost` answers are cut or damaged, and the next one is the whole replay. */
  ghost predicate RecoversAfter(c: Codec, log: seq<Entry>, net: Network, lost: nat) {
    && (forall n: nat, verb, header :: n < lost && ValidHeader(header) ==>
          Cut(net(n, verb, header)) || Damaged(c, After(log, header), net(n, verb, header)))
    && (forall verb, header :: ValidHeader(header) ==> Whole(c, After(log, header), net(lost, verb, header)))
  }

  /** Progress: after fewer than ten lost attempts, wherever they were cut, a caller that reads on gets the whole rest of the
      log from just after its cursor, once. */
  method StreamRecovers(c: Codec, net: Network, verb: Verb, header: Option<Bytes>, ghost log: seq<Entry>, ghost lost: nat)
    returns (out: seq<Event>, result: Result, trace: seq<Attempt>)
    requires ValidHeader(header) && ValidLog(log) && HonestNetwork(c, log, net)
    requires lost < 10 && RecoversAfter(c, log, net, lost)
    ensures result == Completed && |trace| == lost + 1 && out == LogEvents(After(log, header))
  {
    hide ReadCursor, ValidLog, Parse, Attempts, LogEvents, After, Whole, Damaged, HonestNetwork, HeaderAfter, Fate;
    var never := (e: Event) => false;
    out, result, trace := StreamRequest(c, net, verb, header, never, log);
    var n := |trace| - 1;
    AttemptResumes(c, net, verb, header, out, trace, n, log);
    assert OnTrack(log, LogEvents(After(log, header)), trace[n].header, out[..trace[n].yielded]);
    assert LastAnswer(net, trace) == net(n, trace[n].verb, trace[n].header);
    if n > lost {
      AttemptResumes(c, net, verb, header, out, trace, lost, log);
      assert false;
    }
    assert n == lost;
  }

  lemma NoAttempts(c: Codec, net: Network, verb: Verb, header: Option<Bytes>)
    ensures Attempts(c, net, verb, header, [], []) && !Accepted([]) && HeaderAfter(header, []) == header
  {}

  lemma AttemptAdded(c: Codec, net: Network, verb: Verb, header: Option<Bytes>, out: seq<Event>, trace: seq<Attempt>,
                     a: Attempt, more: seq<Event>)
    requires Attempts(c, net, verb, header, out, trace)
    requires trace != [] ==> Retried(Fate(c, LastAnswer(net, trace)))
    requires a.verb == ResolveRetryMethod(verb, Accepted(trace)) && a.header == HeaderAfter(header, out)
    requires a.accepted == net(|trace|, a.verb, a.header).Opened? && a.yielded == |out|
    ensures Attempts(c, net, verb, header, out + more, trace + [a])
    ensures Accepted(trace + [a]) == (Accepted(trace) || a.accepted)
    ensures LastAnswer(net, trace + [a]) == net(|trace|, a.verb, a.header)
    ensures HeaderAfter(header, out + more) == HeaderAfter(a.header, more)
  {
    hide Fate;
    assert (trace + [a])[..|trace|] == trace;
    assert (out + more)[..|out|] == out;
    assert trace == [] || trace[|trace| - 1].yielded <= |out|;
    YieldsAdded(c, net, verb, header, out, more, trace);
  }

  lemma StartsOnTrack(log: seq<Entry>, header: Option<Bytes>)
    requires ValidHeader(header)
    ensures OnTrack(log, LogEvents(After(log, header)), header, [])
  {}

  lemma AnswerOnTrack(c: Codec, log: seq<Entry>, net: Network, n: nat, verb: Verb, header: Option<Bytes>,
                      current: Option<Bytes>, out: seq<Event>, more: seq<Event>)
    requires ValidLog(log) && HonestNetwork(c, log, net)
    requires OnTrack(log, LogEvents(After(log, header)), current, out)
    requires more <= Carries(c, net(n, verb, current))
    ensures OnTrack(log, LogEvents(After(log, header)), HeaderAfter(current, more), out + more)
    ensures out + more <= LogEvents(After(log, header))
    ensures !Unreadable(Fate(c, net(n, verb, current)))
    ensures Whole(c, After(log, current), net(n, verb, current)) && more == Carries(c, net(n, verb, current)) ==>
              out + more == LogEvents(After(log, header))
    ensures ThoroughNetwork(c, log, net) && Fate(c, net(n, verb, current)) == Completed
            && more == Carries(c, net(n, verb, current)) ==>
              out + more == LogEvents(After(log, header))
  {
    hide After, ValidLog, ReadCursor, Parse, Delivers, LogEvents;
    var r := net(n, verb, current);
    if r.Opened? {
      assert Honest(c, log, current, r);
      var events := Parse(c, Flatten(r.chunks)).events;
      DeliveredParse(c, After(log, current), Flatten(r.chunks));
      assert events[..|more|] == more;
      StaysOnTrack(log, header, current, out, events, |more|);
      if CleanReplay(c, After(log, current), Flatten(r.chunks), true) {
        WholeParse(c, After(log, current), Flatten(r.chunks));
      }
    } else {
      assert out + more == out;
    }
  }

  lemma {:induction false} YieldsAdded(c: Codec, net: Network, verb: Verb, header: Option<Bytes>, out: seq<Event>,
                                       more: seq<Event>, trace: seq<Attempt>)
    requires Attempts(c, net, verb, header, out, trace)
    ensures Attempts(c, net, verb, header, out + more, trace)
  {
    if trace != [] {
      var a := trace[|trace| - 1];
      assert (out + more)[..a.yielded] == out[..a.yielded];
      YieldsAdded(c, net, verb, header, out, more, trace[..|trace| - 1]);
    }
  }
}

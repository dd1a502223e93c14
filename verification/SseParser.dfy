/**
 The incremental SSE parser: byte chunks go into a buffer, complete lines come out of it, and a
 frame of lines becomes an event. The pure functions `StepLine` and `Run` say what one line and one
 whole byte string mean; the class `SseParser` is the buffered loop, proved to compute `Run`.
 */
module SseParser {
  import opened Basics

  const MAX_SSE_EVENT_BYTES: nat := 8 * 1024 * 1024
  const CRC32_HEX_LENGTH: nat := 8

  const MESSAGE: Bytes := [109, 101, 115, 115, 97, 103, 101]
  const FIELD_ID: Bytes := [105, 100]
  const FIELD_EVENT: Bytes := [101, 118, 101, 110, 116]
  const FIELD_DATA: Bytes := [100, 97, 116, 97]
  const CRC_MARK: Bytes := [99, 114, 99, 61]

  /** The fixed texts of the stream format. */
  lemma FormatWords()
    ensures MESSAGE == Ascii("message") && CRC_MARK == Ascii("crc=")
    ensures FIELD_ID == Ascii("id") && FIELD_EVENT == Ascii("event") && FIELD_DATA == Ascii("data")
    ensures [LF, CR, SPACE, COLON] == Ascii("\n\r :") && MAX_SSE_EVENT_BYTES == 8_388_608 && CRC32_HEX_LENGTH == 8
  {}

  /** What `json.loads` makes of the data: the `type` member (when the data is an object with a text type) and the rest. */
  datatype Payload = Payload(kind: Option<Bytes>, content: Bytes)

  datatype Event = Event(id: Bytes, payload: Payload)

  /** CRC32, JSON decoding and envelope validation, as parameters. */
  datatype Codec = Codec(crc: (Bytes, Bytes) -> Bytes,
                         decode: Bytes -> Option<Payload>,
                         admits: (Bytes, Payload) -> bool)

  datatype Failure =
    | BadUtf8
    | LineTooLong
    | DataTooLong
    | BadChecksumText
    | MissingChecksum
    | ChecksumMismatch(id: Bytes)
    | BadJson
    | TypeMismatch
    | BadEvent

  /** The fields of the frame being read. */
  datatype Frame = Frame(id: Bytes, kind: Bytes, lines: seq<Bytes>, crc: Option<Bytes>)

  const FRESH_FRAME := Frame([], MESSAGE, [], None)

  datatype LineResult = Next(frame: Frame) | Emit(event: Event) | Fail(failure: Failure)

  predicate HexDigit(b: byte) { 48 <= b <= 57 || 97 <= b <= 102 }

  predicate ChecksumText(s: Bytes) { |s| == CRC32_HEX_LENGTH && forall i :: 0 <= i < |s| ==> HexDigit(s[i]) }

  /** A checksum is eight lower-case hexadecimal digits. */
  lemma ChecksumDigits(s: Bytes)
    ensures ChecksumText(s) <==> |s| == 8 && forall i :: 0 <= i < |s| ==> s[i] in Ascii("0123456789abcdef")
  {
    var digits := Ascii("0123456789abcdef");
    assert forall k :: 0 <= k < 10 ==> digits[k] == 48 + k as byte;
    assert digits[10] == 97 && digits[11] == 98 && digits[12] == 99 && digits[13] == 100 && digits[14] == 101
        && digits[15] == 102;
    forall b: byte ensures HexDigit(b) <==> b in digits {
      if HexDigit(b) {
        var k := if b <= 57 then b as int - 48 else b as int - 87;
        assert digits[k] == b;
      }
    }
  }

  function FieldName(line: Bytes): Bytes { line[..Find(line, COLON)] }

  function FieldValue(line: Bytes): Bytes {
    var n := Find(line, COLON);
    if n == |line| then []
    else if n + 1 < |line| && line[n + 1] == SPACE then line[n + 2..]
    else line[n + 1..]
  }

  /** The text after `crc=` when `line` is a checksum comment. */
  function ChecksumOf(line: Bytes): Option<Bytes> {
    if line != [] && line[0] == COLON && CRC_MARK <= LStrip(line[1..])
    then Some(LStrip(line[1..])[4..])
    else None
  }

  function Dispatch(c: Codec, f: Frame): LineResult {
    var data := Join(f.lines);
    if LStrip(data) == [] then Next(FRESH_FRAME)
    else if f.crc.None? then Fail(MissingChecksum)
    else if c.crc(f.kind, data) != f.crc.value then Fail(ChecksumMismatch(f.id))
    else match c.decode(data)
      case None => Fail(BadJson)
      case Some(p) =>
        if p.kind != Some(f.kind) then Fail(TypeMismatch)
        else if !c.admits(f.id, p) then Fail(BadEvent)
        else Emit(Event(f.id, p))
  }

  /** The meaning of a `field: value` line. */
  function StepField(f: Frame, line: Bytes): LineResult {
    var name, value := FieldName(line), FieldValue(line);
    if name == FIELD_ID then Next(if 0 in value then f else f.(id := value))
    else if name == FIELD_EVENT then Next(f.(kind := value))
    else if name == FIELD_DATA then
      if |Join(f.lines + [value])| > MAX_SSE_EVENT_BYTES then Fail(DataTooLong)
      else Next(f.(lines := f.lines + [value]))
    else Next(f)
  }

  /** The meaning of one line, given without its line feed. */
  function StepLine(c: Codec, f: Frame, raw: Bytes): LineResult {
    if !Utf8(raw) then Fail(BadUtf8) else
    var line := StripCr(raw);
    if line == [] then Dispatch(c, f)
    else if line[0] == COLON then
      match ChecksumOf(line)
      case None => Next(f)
      case Some(text) => if ChecksumText(text) then Next(f.(crc := Some(text))) else Fail(BadChecksumText)
    else StepField(f, line)
  }

  /** How the parse of a byte string ends: waiting with a frame and an unfinished line, or in an error. */
  datatype End = Waiting(frame: Frame, tail: Bytes) | Failed(failure: Failure)

  datatype Outcome = Outcome(events: seq<Event>, end: End)

  /** The parse of a whole byte string. */
  function Run(c: Codec, f: Frame, b: Bytes): Outcome
    decreases |b|, 0
  {
    var n := Find(b, LF);
    if n > MAX_SSE_EVENT_BYTES then Outcome([], Failed(LineTooLong))
    else if n == |b| then Outcome([], Waiting(f, b))
    else Continue(c, StepLine(c, f, b[..n]), b[n + 1..])
  }

  /** The parse of the bytes that follow a line. */
  function Continue(c: Codec, r: LineResult, rest: Bytes): Outcome
    decreases |rest|, 1
  {
    match r
    case Fail(e) => Outcome([], Failed(e))
    case Next(g) => Run(c, g, rest)
    case Emit(e) => var o := Run(c, FRESH_FRAME, rest); Outcome([e] + o.events, o.end)
  }

  function Parse(c: Codec, b: Bytes): Outcome { Run(c, FRESH_FRAME, b) }

  /** Continues an outcome with more bytes. An error is final. */
  function Resume(c: Codec, o: Outcome, more: Bytes): Outcome {
    match o.end
    case Failed(_) => o
    case Waiting(f, tail) => var r := Run(c, f, tail + more); Outcome(o.events + r.events, r.end)
  }

  /** Cutting the input anywhere and continuing gives what the uncut input gives. */
  lemma {:induction false} RunSplit(c: Codec, f: Frame, a: Bytes, b: Bytes)
    ensures Run(c, f, a + b) == Resume(c, Run(c, f, a), b)
    decreases |a|, 0
  {
    var n := Find(a, LF);
    if n == |a| {
      assert Find(a + b, LF) >= n;
    } else {
      FindIsFirst(a + b, LF, n);
      assert (a + b)[..n] == a[..n];
      assert (a + b)[n + 1..] == a[n + 1..] + b;
      ContinueSplit(c, StepLine(c, f, a[..n]), a[n + 1..], b);
    }
  }

  lemma {:induction false} ContinueSplit(c: Codec, r: LineResult, a: Bytes, b: Bytes)
    ensures Continue(c, r, a + b) == Resume(c, Continue(c, r, a), b)
    decreases |a|, 1
  {
    match r
    case Fail(_) =>
    case Next(g) => RunSplit(c, g, a, b);
    case Emit(e) =>
      RunSplit(c, FRESH_FRAME, a, b);
      var o := Run(c, FRESH_FRAME, a);
      if o.end.Waiting? {
        var more := Run(c, o.end.frame, o.end.tail + b).events;
        assert [e] + (o.events + more) == ([e] + o.events) + more;
      }
  }

  /** A cut connection never invents or damages an event, on any input at all: what a prefix of the bytes yields
      is a prefix of what the whole yields, an error found in the prefix is the error of the whole, and a byte
      string that parses has no prefix that does not. */
  lemma PrefixSafety(c: Codec, a: Bytes, b: Bytes)
    ensures Parse(c, a).events <= Parse(c, a + b).events
    ensures Parse(c, a).end.Failed? ==> Parse(c, a + b) == Parse(c, a)
    ensures Parse(c, a + b).end.Waiting? ==> Parse(c, a).end.Waiting?
  {
    RunSplit(c, FRESH_FRAME, a, b);
  }

  // ---------------------------------------------------------------------------------------------
  // What a frame means, said without a state machine
  // ---------------------------------------------------------------------------------------------

  predicate IsField(line: Bytes, name: Bytes) { line != [] && line[0] != COLON && FieldName(line) == name }

  /** The value of the last line that `pick` selects. */
  function LastOf(lines: seq<Bytes>, pick: Bytes -> Option<Bytes>): Option<Bytes> {
    if lines == [] then None
    else if pick(lines[|lines| - 1]).Some? then pick(lines[|lines| - 1])
    else LastOf(lines[..|lines| - 1], pick)
  }

  function OrElse(o: Option<Bytes>, default: Bytes): Bytes { if o.Some? then o.value else default }

  const ID_FIELD: Bytes -> Option<Bytes> :=
    line => if IsField(line, FIELD_ID) && 0 !in FieldValue(line) then Some(FieldValue(line)) else None
  const EVENT_FIELD: Bytes -> Option<Bytes> :=
    line => if IsField(line, FIELD_EVENT) then Some(FieldValue(line)) else None
  const CHECKSUM_FIELD: Bytes -> Option<Bytes> := line => ChecksumOf(line)

  function DataFields(lines: seq<Bytes>): seq<Bytes> {
    if lines == [] then []
    else DataFields(lines[..|lines| - 1]) +
         if IsField(lines[|lines| - 1], FIELD_DATA) then [FieldValue(lines[|lines| - 1])] else []
  }

  /** The frame that a list of lines describes: the last id without a NUL, the last event name, the last checksum,
      and every data value in order. */
  function FrameOf(lines: seq<Bytes>): Frame {
    Frame(OrElse(LastOf(lines, ID_FIELD), []),
          OrElse(LastOf(lines, EVENT_FIELD), MESSAGE),
          DataFields(lines),
          LastOf(lines, CHECKSUM_FIELD))
  }

  /** Reads the lines of one frame, none of them blank. */
  function ReadLines(c: Codec, lines: seq<Bytes>): LineResult {
    if lines == [] then Next(FRESH_FRAME)
    else
      var before := ReadLines(c, lines[..|lines| - 1]);
      if before.Next? then StepLine(c, before.frame, lines[|lines| - 1]) else before
  }

  /** Line `i` cannot be read: not UTF-8, a checksum comment that is not eight lower-case hex digits, or a data
      value that takes the joined data over the limit. */
  predicate Unreadable(lines: seq<Bytes>, i: nat)
    requires i < |lines|
  {
    || !Utf8(lines[i])
    || (ChecksumOf(lines[i]).Some? && !ChecksumText(ChecksumOf(lines[i]).value))
    || (IsField(lines[i], FIELD_DATA) && |Join(DataFields(lines[..i + 1]))| > MAX_SSE_EVENT_BYTES)
  }

  /** The error that an unreadable line is. */
  function WhyUnreadable(lines: seq<Bytes>, i: nat): Failure
    requires i < |lines|
  {
    if !Utf8(lines[i]) then BadUtf8
    else if ChecksumOf(lines[i]).Some? then BadChecksumText
    else DataTooLong
  }

  lemma LineMeaning(c: Codec, lines: seq<Bytes>)
    requires lines != [] && StripCr(lines[|lines| - 1]) == lines[|lines| - 1] != []
    ensures var n := |lines| - 1;
            StepLine(c, FrameOf(lines[..n]), lines[n]) ==
            if Unreadable(lines, n) then Fail(WhyUnreadable(lines, n)) else Next(FrameOf(lines))
  {
    assert lines[..|lines|] == lines;
  }

  predicate Readable(lines: seq<Bytes>) { forall i :: 0 <= i < |lines| ==> !Unreadable(lines, i) }

  lemma ReadableSnoc(lines: seq<Bytes>)
    requires lines != []
    ensures Readable(lines) <==> Readable(lines[..|lines| - 1]) && !Unreadable(lines, |lines| - 1)
  {
    var n := |lines| - 1;
    forall i | 0 <= i < n
      ensures Unreadable(lines[..n], i) == Unreadable(lines, i)
    {
      assert lines[..n][..i + 1] == lines[..i + 1];
    }
  }

  lemma UnreadableBefore(lines: seq<Bytes>, n: nat, i: nat)
    requires i < n <= |lines|
    ensures Unreadable(lines[..n], i) == Unreadable(lines, i) && WhyUnreadable(lines[..n], i) == WhyUnreadable(lines, i)
  {
    assert lines[..n][..i + 1] == lines[..i + 1];
  }

  /** The first line that cannot be read, and the error it is. */
  predicate FailsAt(lines: seq<Bytes>, i: nat, failure: Failure) {
    i < |lines| && Readable(lines[..i]) && Unreadable(lines, i) && failure == WhyUnreadable(lines, i)
  }

  /** The line-by-line reader computes exactly the frame that the lines describe, and it refuses them exactly when
      some line cannot be read, with the error of the first such line. */
  lemma {:induction false} FrameMeaning(c: Codec, lines: seq<Bytes>)
    requires forall i :: 0 <= i < |lines| ==> StripCr(lines[i]) == lines[i] != []
    ensures Readable(lines) ==> ReadLines(c, lines) == Next(FrameOf(lines))
    ensures !Readable(lines) ==>
              exists i: nat :: ReadLines(c, lines).Fail? && FailsAt(lines, i, ReadLines(c, lines).failure)
  {
    hide StepLine, FrameOf, Unreadable, WhyUnreadable, Readable;
    if lines == [] {
      NothingUnreadable();
    } else {
      var n := |lines| - 1;
      FrameMeaning(c, lines[..n]);
      LineMeaning(c, lines);
      ReadableSnoc(lines);
      if !Readable(lines[..n]) {
        var i: nat :| FailsAt(lines[..n], i, ReadLines(c, lines[..n]).failure);
        UnreadableBefore(lines, n, i);
        assert lines[..n][..i] == lines[..i];
        assert FailsAt(lines, i, ReadLines(c, lines).failure);
      } else if Unreadable(lines, n) {
        assert FailsAt(lines, n, ReadLines(c, lines).failure);
      }
    }
  }

  lemma NothingUnreadable()
    ensures Readable([]) && FrameOf([]) == FRESH_FRAME
  {}

  // What the blank line makes of a frame -----------------------------------------------------

  /** What the lines of a frame say. */
  datatype Described = Described(id: Bytes, kind: Bytes, data: Bytes, checksum: Option<Bytes>)

  function Describe(lines: seq<Bytes>): Described {
    Described(OrElse(LastOf(lines, ID_FIELD), []), OrElse(LastOf(lines, EVENT_FIELD), MESSAGE),
              Join(DataFields(lines)), LastOf(lines, CHECKSUM_FIELD))
  }

  predicate Blank(text: Bytes) { LStrip(text) == [] }

  /** Nothing is wrong with a frame. */
  predicate Emits(c: Codec, d: Described) {
    && !Blank(d.data)
    && d.checksum == Some(c.crc(d.kind, d.data))
    && c.decode(d.data).Some?
    && c.decode(d.data).value.kind == Some(d.kind)
    && c.admits(d.id, c.decode(d.data).value)
  }

  /** The first thing that is wrong with a frame that has data. */
  predicate WrongWith(c: Codec, d: Described, failure: Failure) {
    && (d.checksum == None ==> failure == MissingChecksum)
    && (d.checksum != None ==>
          && (d.checksum != Some(c.crc(d.kind, d.data)) ==> failure == ChecksumMismatch(d.id))
          && (d.checksum == Some(c.crc(d.kind, d.data)) ==>
                && (c.decode(d.data) == None ==> failure == BadJson)
                && (c.decode(d.data) != None ==>
                      if c.decode(d.data).value.kind != Some(d.kind) then failure == TypeMismatch else failure == BadEvent)))
  }

  /** The blank line on a described frame: an event comes out exactly when the data is not blank, the checksum is there
      and is the codec's, the data decodes, its type is the event name, and the event is admitted. A frame without data
      is dropped, id and event name included; every other is the first error that it has. */
  lemma BlankLine(c: Codec, lines: seq<Bytes>)
    ensures var d, r := Describe(lines), StepLine(c, FrameOf(lines), []);
            && (r.Emit? <==> Emits(c, d))
            && (r.Emit? ==> r.event == Event(d.id, c.decode(d.data).value))
            && (Blank(d.data) ==> r == Next(Frame([], MESSAGE, [], None)))
            && (!Blank(d.data) && !Emits(c, d) ==> r.Fail? && WrongWith(c, d, r.failure))
  {
    assert StripCr([]) == [];
  }

  // The lines of a byte string ---------------------------------------------------------------

  /** One line of input: too long whatever follows it, unfinished, or handled before the rest is parsed. The bound is on the
      bytes before the line feed, a carriage return included. */
  lemma LineBound(c: Codec, f: Frame, line: Bytes, rest: Bytes)
    requires LF !in line && (rest != [] && rest[0] != LF ==> |line| > 8_388_608)
    ensures Run(c, f, line + rest) ==
            if |line| > 8_388_608 then Outcome([], Failed(LineTooLong))
            else if rest == [] then Outcome([], Waiting(f, line))
            else Continue(c, StepLine(c, f, line), rest[1..])
  {
    var b := line + rest;
    if |line| <= 8_388_608 {
      FirstFeed(line, rest);
      if rest == [] { assert b == line; }
    } else {
      LateFeed(line, rest);
    }
    hide StepLine, Continue;
  }

  lemma FirstFeed(line: Bytes, rest: Bytes)
    requires LF !in line && (rest != [] ==> rest[0] == LF)
    ensures var b := line + rest;
            && Find(b, LF) == |line| && b[..|line|] == line && (rest != [] ==> b[|line| + 1..] == rest[1..])
  {
    FindIsFirst(line + rest, LF, |line|);
  }

  lemma LateFeed(line: Bytes, rest: Bytes)
    requires LF !in line
    ensures Find(line + rest, LF) >= |line|
  {
    assert forall i :: 0 <= i < |line| ==> (line + rest)[i] == line[i] != LF;
  }

  /** Carriage returns at the end of a line mean nothing, however many there are. */
  lemma TrailingReturns(c: Codec, f: Frame, raw: Bytes)
    requires Utf8(raw)
    ensures StepLine(c, f, raw + [CR]) == StepLine(c, f, raw)
  {
    Utf8Concat(raw, [CR]);
    assert (raw + [CR])[..|raw|] == raw;
  }

  // ---------------------------------------------------------------------------------------------
  // The buffered parser
  // ---------------------------------------------------------------------------------------------

  /** `line.partition(":")` with the one optional space after the colon removed. */
  method Partition(line: Bytes) returns (field: Bytes, value: Bytes)
    ensures field == FieldName(line) && value == FieldValue(line)
  {
    field, value := line, [];
    var colon := Find(line, COLON);
    if colon < |line| {
      field, value := line[..colon], line[colon + 1..];
      if value != [] && value[0] == SPACE { value := value[1..]; }
    }
  }

  class SseParser {
    const codec: Codec
    var eventId: Bytes
    var eventType: Bytes
    var dataLines: seq<Bytes>
    var dataBytes: nat
    var pendingChecksum: Option<Bytes>
    var buffer: Bytes

    ghost function State(): Frame
      reads this
    {
      Frame(eventId, eventType, dataLines, pendingChecksum)
    }

    /** The running byte count is the length of the joined data. */
    ghost predicate Valid()
      reads this
    {
      dataBytes == |Join(dataLines)|
    }

    constructor (codec: Codec)
      ensures Valid() && State() == FRESH_FRAME && buffer == [] && this.codec == codec
    {
      this.codec := codec;
      eventId, eventType, dataLines, dataBytes, pendingChecksum, buffer := [], MESSAGE, [], 0, None, [];
    }

    method ResetFrame()
      modifies this
      ensures Valid() && State() == FRESH_FRAME && buffer == old(buffer)
    {
      eventId := [];
      eventType := MESSAGE;
      dataLines := [];
      dataBytes := 0;
      pendingChecksum := None;
    }

    /** Handles a `field: value` line. */
    method ProcessField(line: Bytes) returns (failure: Option<Failure>)
      requires Valid()
      modifies this
      ensures Valid() && buffer == old(buffer)
      ensures var r := StepField(old(State()), line);
              if r.Fail? then failure == Some(r.failure) else r == Next(State()) && failure == None
    {
      hide Join, Find, FieldName, FieldValue;
      failure := None;
      var field, value := Partition(line);
      if field == FIELD_ID {
        if 0 !in value { eventId := value; }
      } else if field == FIELD_EVENT {
        eventType := value;
      } else if field == FIELD_DATA {
        var next := dataBytes + |value| + if dataLines != [] then 1 else 0;
        JoinLength(dataLines, value);
        if next > MAX_SSE_EVENT_BYTES { return Some(DataTooLong); }
        dataLines := dataLines + [value];
        dataBytes := next;
      }
    }

    /** Handles one complete line. */
    method ProcessLine(raw: Bytes) returns (event: Option<Event>, failure: Option<Failure>)
      requires Valid()
      modifies this
      ensures Valid() && buffer == old(buffer)
      ensures match StepLine(codec, old(State()), raw)
              case Fail(e) => failure == Some(e) && event == None
              case Next(g) => failure == None && event == None && State() == g
              case Emit(e) => failure == None && event == Some(e) && State() == FRESH_FRAME
    {
      event, failure := None, None;
      if !Utf8(raw) { return None, Some(BadUtf8); }
      var line := StripCr(raw);
      if line == [] {
        var data := if dataLines != [] then Join(dataLines) else [];
        if LStrip(data) != [] {
          if pendingChecksum == None { return None, Some(MissingChecksum); }
          if codec.crc(eventType, data) != pendingChecksum.value { return None, Some(ChecksumMismatch(eventId)); }
          var loaded := codec.decode(data);
          if loaded == None { return None, Some(BadJson); }
          if loaded.value.kind != Some(eventType) { return None, Some(TypeMismatch); }
          if !codec.admits(eventId, loaded.value) { return None, Some(BadEvent); }
          event := Some(Event(eventId, loaded.value));
        }
        ResetFrame();
      } else if line[0] == COLON {
        var comment := LStrip(line[1..]);
        if CRC_MARK <= comment {
          var checksum := comment[4..];
          if !ChecksumText(checksum) { return None, Some(BadChecksumText); }
          pendingChecksum := Some(checksum);
        }
      } else {
        failure := ProcessField(line);
      }
    }

    /** Takes one chunk: every complete line in the buffer is handled, then the unfinished line is measured. */
    method Feed(chunk: Bytes) returns (events: seq<Event>, failure: Option<Failure>)
      requires Valid()
      modifies this
      ensures Valid()
      ensures var r := Run(codec, old(State()), old(buffer) + chunk);
              && events == r.events
              && match r.end
                 case Failed(e) => failure == Some(e)
                 case Waiting(f, tail) => failure == None && State() == f && buffer == tail
    {
      buffer := buffer + chunk;
      events := [];
      ghost var whole := Run(codec, State(), buffer);
      while Find(buffer, LF) < |buffer|
        invariant Valid()
        invariant whole == Outcome(events + Run(codec, State(), buffer).events, Run(codec, State(), buffer).end)
        decreases |buffer|
      {
        var lineEnd := Find(buffer, LF);
        if lineEnd > MAX_SSE_EVENT_BYTES { return events, Some(LineTooLong); }
        var lineBytes := buffer[..lineEnd];
        buffer := buffer[lineEnd + 1..];
        var event, failed := ProcessLine(lineBytes);
        if failed.Some? { return events, failed; }
        if event.Some? {
          ghost var rest := Run(codec, State(), buffer);
          assert events + ([event.value] + rest.events) == (events + [event.value]) + rest.events;
          events := events + [event.value];
        }
      }
      if |buffer| > MAX_SSE_EVENT_BYTES { return events, Some(LineTooLong); }
      return events, None;
    }
  }

  lemma FinalFailure(c: Codec, done: Bytes, more: Bytes)
    requires Parse(c, done).end.Failed?
    ensures Parse(c, done + more) == Parse(c, done)
  {
    RunSplit(c, FRESH_FRAME, done, more);
  }

  /** `parse_sse_stream` over an iterator of chunks. Chunk independence: the events and the ending are those of the
      concatenated bytes, so no two ways of cutting one byte string into chunks can be told apart. */
  method ParseSseStream(c: Codec, chunks: seq<Bytes>) returns (events: seq<Event>, end: End)
    ensures Outcome(events, end) == Parse(c, Flatten(chunks))
  {
    var parser := new SseParser(c);
    events := [];
    for i := 0 to |chunks|
      invariant parser.Valid() && parser.codec == c && fresh(parser)
      invariant Outcome(events, Waiting(parser.State(), parser.buffer)) == Parse(c, Flatten(chunks[..i]))
    {
      ghost var done := Flatten(chunks[..i]);
      assert chunks[..i + 1][..i] == chunks[..i];
      assert Flatten(chunks[..i + 1]) == done + chunks[i];
      RunSplit(c, FRESH_FRAME, done, chunks[i]);
      var more, failure := parser.Feed(chunks[i]);
      events := events + more;
      if failure.Some? {
        FlattenSplit(chunks, i + 1);
        FinalFailure(c, Flatten(chunks[..i + 1]), Flatten(chunks[i + 1..]));
        return events, Failed(failure.value);
      }
    }
    assert chunks[..|chunks|] == chunks;
    end := Waiting(Frame(parser.eventId, parser.eventType, parser.dataLines, parser.pendingChecksum), parser.buffer);
  }

  lemma {:induction false} FlattenSplit(chunks: seq<Bytes>, i: nat)
    requires i <= |chunks|
    ensures Flatten(chunks) == Flatten(chunks[..i]) + Flatten(chunks[i..])
    decreases |chunks| - i
  {
    if i == |chunks| {
      assert chunks[..i] == chunks;
    } else {
      var n := |chunks| - 1;
      assert chunks[..n][..i] == chunks[..i];
      assert chunks[i..][..n - i] == chunks[..n][i..];
      FlattenSplit(chunks[..n], i);
    }
  }
}
